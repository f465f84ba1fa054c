# Verified model of lkv

lkv keeps a key-value map in one file: two Superblock pages, an immutable hash-table Base, and an
append-only Overlay log. This project models that file format and the code that reads, writes, compacts
and recovers it, and proves that every part agrees with a plain `map<key, value>`, through every crash.

`dafny verify dfyconfig.toml` checks everything.

## How the model is built

Three layers are kept apart. The abstract layer is a map. The logical layer is a `Content`: a `Base`
(entries and slot owners) and a list of batches. The byte layer is the file image. `Images.Holds` ties the
three together: which root is in charge, which Base and log stand under it, and which bytes follow.

| file | contents |
|---|---|
| `Bytes.dfy`, `PowersOfTwo.dfy` | little-endian fields; the modular arithmetic behind probing |
| `Log.dfy`, `Recovery.dfy` | log records, the scan, and the index rebuilt from it |
| `Roots.dfy` | root pages and root selection |
| `Segment.dfy`, `Lookup.dfy`, `Layout.dfy`, `Records.dfy`, `Reachability.dfy` | the Base: building, lookup, layout checks, validation, and what validation does not check |
| `Overlay.dfy`, `Iteration.dfy`, `Listing.dfy` | the in-memory index with its memory charge; iteration over live entries; the size of a Base as a function of the map |
| `Device.dfy`, `Images.dfy`, `CrashSafety.dfy`, `Loss.dfy`, `Pending.dfy` | crash models, file images, the safety of each protocol step, losses before a sync, and reopening over writes that are not yet durable |
| `Storage.dfy`, `Database.dfy`, `Opening.dfy` | the file with failing operations, the handle, and opening |
| `Visible.dfy`, `Runs.dfy`, `Snapshots.dfy` | what a caller sees of a healthy database, whole lifetimes, and snapshots over the life of a handle |
| `Verifier.dfy`, `Readers.dfy` | block verification on read, and any number of readers doing it at once |
| `Format.dfy` | the file format field by field, in plain numbers |
| `Crc32c.dfy`, `Transaction.dfy` | CRC32C bit by bit, cached checksums, staging and committing a transaction |
| `Memory.dfy` | the in-memory backend and its agreement with the file backend |

**Digests.** CRC32C and XXH3 are function parameters (`Digests`); every result holds for any two functions
of those types, except in `Transaction.dfy`, where the checksum is CRC32C itself (Castagnoli polynomial,
section 12.1 of RFC 3720). Where a checksum hypothesis is needed it is stated, and on crashes it only ever
excludes what is torn: after a crash each root page reads as it does on the medium, or fails, or is a root whose write was under way (`CrashSafety.GenuinePages`); a damaged block that still matches its stored
checksum is undamaged (`Verifier.NoCollision`); and a batch record that passes right behind the durable bytes
after a lossy crash was written there as a whole (`Loss.GenuineTail`). While no root page is being written the
first of these is proved (`CrashSafety.IdleIsGenuine`), and at every instant all that is pending is known to be
part of a page, of one record or of staging (`Loss.Known`).

**Crashes.** `Device.CrashesTo` is the ordered model: unsynced operations reach the medium in program order
and the last one is cut at any byte. `Device.LosesTo` is the lossy model: every byte is the durable one or
any pending one, independently. `Storage.File` records every instant the device passes through, so a
statement about all recorded instants is a statement about every crash point.

**Faults.** Which system calls fail is an input: a fault plan says so for every tick of the file's clock. A
result therefore holds for every pattern of failures, and an I/O error is returned only when the plan has a
fault during the call (`Storage.Fault`).

**Reading the main results.** `Runs.Run` is the top: any script of commits, compactions and restarts on a new
file, with any plan of failing system calls and the machine stopping anywhere, in order or losing any unsynced
bytes. It ends with a listing that is the replay of the acknowledged batches and, per handle, of at most one
whose outcome stayed uncertain; an early end carries its cause. Undisturbed, it always completes and does exactly
what a plain state machine of four fields does (`Visible.State`). Below it stand `Database.Handle.Commit`,
`Database.Handle.Compact` and `Opening.Open`, whose contracts speak about every instant of the call;
`Snapshots.Follow`; `Memory.RunBoth`; `Lookup.LookupIsMap`; `Log.ScanOfLog` and `Log.ScanIsCanonical`;
`Overlay.GetIsMap`; `Verifier.LookupSegment`; `Readers.EveryInterleaving`.

**Independent references.** What a reader function accepts is also said without it: `Log.QuietExactly` and
`Log.ScanExactly` for the log, `Roots.RootIsCanonical` for pages, `Layout.LayoutIsCanonical` and
`Layout.BaseHeaderIsCanonical` for a Base, `Segment.SlotCountExactly` for table sizes, `Overlay.ChargeOfFresh` for
the memory charge, `Crc32c.CheckValue` for the checksum, and `Format.dfy` for where every field stands.

**Where code and documentation differ.** The API documentation calls `Database::verify` the complete
integrity verification. The code behind it does not check that lookup reaches every record:
`Reachability.ValidatedButUnreachable` gives, for every hash function and entry, a segment and a root under
which a Full open passes and whose only key cannot be found, and `Reachability.LookupAgreesIffReachable` says
exactly when lookup agrees with the map on a segment that passes. The model follows the code; lookup correctness
rests on the builder.

**Where two promises fail.** The two backends are meant to behave alike, but a file needs room for a second copy
of its Base: `Memory.BackendsPart` shows a compaction that memory accepts and the file refuses, and
`Memory.CompactBoth` says exactly when they agree. A compaction is meant to survive any loss, but if the process
dies before the destination root is synced and the file is reopened, the opening cuts off the staging Base:
`Pending.CutLosesAll` shows a loss that then leaves no root at all, and `Pending.CutSurvivesWhen` that the cut
survives exactly when the page is durable before it.

## Model

| member | source | states |
|---|---|---|
| `Bytes.ValueOfLittleEndian` | lkv/src/format/log.rs:133-148 | decoding a little-endian field gives back every integer that fits its width |
| `Bytes.LittleEndianOfValue` | lkv/src/format/log.rs:133-148 | encoding gives back the bytes, so a field has exactly one representation |
| `PowersOfTwo.WrappedProbe` | lkv/src/database/view.rs:70-70 | masking after a wrapping 64-bit add is the same as masking the unwrapped sum |
| `Log.BatchPayloadLen` | lkv/src/format/log.rs:32-58 | succeeds exactly within the operation and size limits, and then returns the exact encoded length |
| `Log.DecodeOfOpsBytes` | lkv/src/database/recovery.rs:162-219 | decoding the encoding of any storable operations returns them |
| `Log.DecodedOpsAreCanonical` | lkv/src/database/recovery.rs:162-219 | whatever decodes is byte for byte what the writer would have produced |
| `Log.ReadOfRecord` | lkv/src/database/recovery.rs:50-126 | a written batch record is read back whole, with its exact end |
| `Log.ReadRecordIsCanonical` | lkv/src/database/recovery.rs:50-126 | an accepted record is exactly the writer's encoding of its batch |
| `Log.ScanOfLog` | lkv/src/database/recovery.rs:44-136 | scanning the encodings of any list of batches followed by anything scans the batches and then the rest |
| `Log.TornRecordIsQuiet` | lkv/src/database/recovery.rs:54-56 | any proper prefix of one more record ends the scan without an error |
| `Log.MarkerIsQuiet` | lkv/src/database/recovery.rs:92-100 | a compact marker ends the scan whatever bytes follow |
| `Log.QuietPrefix` | lkv/src/database/recovery.rs:50-100 | bytes that end the scan still do so when cut anywhere |
| `Log.ScanIsCanonical` | lkv/src/database/recovery.rs:44-136 | on any bytes, the accepted prefix is the encoding of the returned batches and ends at the returned length |
| `Log.QuietExactly` | lkv/src/database/recovery.rs:50-126 | the scan stops without an error exactly at tails too short for a header, at a sound header whose record does not fit, and at a compact marker; everything else is reported |
| `Log.ScanExactly` | lkv/src/database/recovery.rs:44-136 | a log is accepted if and only if it is whole batches followed by such a tail, and then as exactly those batches |
| `Log.DamageIsRejected` | lkv/src/database/recovery.rs:101-126 | a batch damaged so that one of its checksums notices makes the scan refuse, whatever stands before and behind it |
| `Log.RescanAfterTruncation` | lkv/src/database/mod.rs:516-536 | scanning the trimmed log again returns the same batches and length |
| `Recovery.ApplyBatchPayload` | lkv/src/database/recovery.rs:138-222 | accepts exactly the payloads that decode; the index and the charge then stand for the updated map |
| `Recovery.ScanOverlay` | lkv/src/database/recovery.rs:44-136 | the loop refuses exactly when the scan does, and otherwise rebuilds an index and charge for exactly its batches |
| `Recovery.InstallRecovered` | lkv/src/database/state.rs:436-447 | installing a recovered operation acts as one map update and keeps the charge exact without saturation |
| `Recovery.RebuildingIsIdempotent` | lkv/src/database/mod.rs:516-536 | rebuilding from the trimmed log gives the same length, the same charge, and an index that answers every key alike |
| `Roots.PageReadsBack` | lkv/src/format/superblock.rs:91-106 | a written root page is read back as that root |
| `Roots.ReadLatest` | lkv/src/format/superblock.rs:108-167 | the page loop selects what the order-free specification asks for: a newer format refuses, else a fitting root of highest generation wins, else there is none |
| `Roots.LatestIsNewest` | lkv/src/format/superblock.rs:108-167 | the selection function meets the same order-free specification |
| `Roots.RootIsCanonical` | lkv/src/format/superblock.rs:108-134 | a page reads as a root if and only if it starts with exactly the header the writer produces for it |
| `Roots.NewerIsRecognised` | lkv/src/format/superblock.rs:166-183 | a page of another version is refused as such by its envelope alone, whatever its header size, and skipped if its checksum fails |
| `Segment.FindSlot` | lkv/src/format/segment.rs:124-189 | the insertion probe terminates at the first empty slot from the key's home |
| `Segment.EmptySlotExists` | lkv/src/format/segment.rs:350-361 | with fewer entries than slots some slot is empty |
| `Segment.InsertKeepsIndexed` | lkv/src/format/segment.rs:124-189 | filling the first empty slot keeps every earlier entry reachable |
| `Segment.AppendBlockChecksums` | lkv/src/format/segment.rs:191-241 | the appended bytes are the block table and footer of exactly the data |
| `Segment.BuildBase` | lkv/src/format/segment.rs:124-189 | succeeds exactly when count and sizes fit, and then writes a valid Base of exactly the entries |
| `Segment.MeasureBase` | lkv/src/format/segment.rs:313-348 | predicts the entry count and the exact size that the builder writes, or refuses exactly when the builder would |
| `Segment.SlotCountExactly` | lkv/src/format/segment.rs:350-361 | a table size exists exactly when 64 bits hold a power of two that keeps the table at most four fifths full, and it is the smallest such |
| `Segment.BlockCountExactly` | lkv/src/format/segment.rs:191-241 | as many checksum blocks as the data needs and no empty one |
| `Lookup.LookupIsMap` | lkv/src/database/view.rs:56-115 | on the written bytes, for every hash function, start offset and key, lookup answers as the map of the entries |
| `Lookup.PresentKeyHits` | lkv/src/database/view.rs:56-115 | probing finds a reachable entry past every collision |
| `Lookup.AbsentKeyMisses` | lkv/src/database/view.rs:56-115 | probing for an absent key ends without an answer |
| `Layout.WrittenBaseAccepted` | lkv/src/format/segment.rs:260-306 | what the builder writes passes layout, header and block checks with the builder's own sizes |
| `Layout.LayoutIsCanonical` | lkv/src/format/segment.rs:260-297 | a data size is accepted if and only if the bytes end in the checksum table and footer that the writer produces for it |
| `Layout.BaseHeaderIsCanonical` | lkv/src/format/segment.rs:363-393 | a header is accepted if and only if it is the written header of a table that fits the data |
| `Format.RecordFormat` | lkv/src/format/log.rs:103-126 | tag, lengths, both checksums, operation count and operations of a batch record stand at their offsets |
| `Format.MarkerFormat` | lkv/src/format/log.rs:128-148 | the same of a compact marker |
| `Format.OperationFormat` | lkv/src/format/log.rs:114-124 | the same of one operation |
| `Format.Limits` | lkv/src/format/log.rs:32-58 | keys up to one mebibyte, values and payloads below four gibibytes, a million operations, and nothing less |
| `Format.PageFormat` | lkv/src/format/superblock.rs:91-106 | every field of a root page stands at its offset, and the rest is zero |
| `Format.PagePlace` | lkv/src/format/superblock.rs:70-89 | even generations go to the first page and odd ones to the second |
| `Format.BaseFormat` | lkv/src/format/segment.rs:124-189 | name, header size and counts of a Base |
| `Format.SlotFormat` | lkv/src/format/segment.rs:124-189 | a slot holds the upper half of the hash and the absolute offset of its record, or zeros |
| `Format.RecordPlaces` | lkv/src/format/segment.rs:124-189 | records stand one behind the other after the slots up to the end of the data, each with both lengths, key and value |
| `Format.ChecksumFormat` | lkv/src/format/segment.rs:191-241 | one checksum for every 65536 bytes or part of them, then a footer about the table |
| `Records.ValidateBase` | lkv/src/format/segment.rs:395-466 | accepts exactly the data whose records, of distinct keys, tile the record area and match the occupied slots one to one |
| `Records.CheckRecords` | lkv/src/format/segment.rs:395-436 | the record loop accepts exactly the tilings with distinct keys and tabulates their offsets |
| `Records.CheckSlots` | lkv/src/format/segment.rs:437-465 | the slot loop accepts exactly the one-to-one slot tables |
| `Records.BuiltIsSound` | lkv/src/format/segment.rs:395-466 | validation accepts every Base the builder writes |
| `Records.SoundReadingIsUnique` | lkv/src/format/segment.rs:395-466 | validated data has only one reading |
| `Records.TrustedWalkIsChecked` | lkv/src/format/segment.rs:101-113 | after validation the unchecked read stays in bounds and equals the checked read, record by record, to the end |
| `Records.WalkOfBase` | lkv/src/format/segment.rs:37-61 | both reads return each entry of a written Base and the place of the next |
| `Reachability.LookupAgreesIffReachable` | lkv/src/format/segment.rs:437-465 | on a validated Base, lookup answers every key as the map does if and only if every record is reachable by probing |
| `Reachability.ValidatedButUnreachable` | lkv/src/format/segment.rs:437-465 | a counterexample for every hash and entry: under a matching root a Full open accepts the segment, and lookup misses its only key |
| `Overlay.MappedMutations` | lkv/src/database/mod.rs:547-573 | predicts the offset of every operation of the batch |
| `Overlay.PredictedOffsetsDecode` | lkv/src/database/mod.rs:547-573 | each predicted offset decodes to its own key and value in the bytes that are then appended |
| `Overlay.GetIsMap` | lkv/src/database/state.rs:286-307 | table and tail together answer every key as one map |
| `Overlay.PutTailRepresents` | lkv/src/database/state.rs:400-434 | putting a key into the tail acts as a map update |
| `Overlay.PutMappedRepresents` | lkv/src/database/state.rs:494-528 | putting a key into the mapped table acts as a map update |
| `Overlay.PromoteRepresents` | lkv/src/database/state.rs:367-398 | moving a tail entry into a longer mapping changes nothing |
| `Overlay.TailInstalled` | lkv/src/database/state.rs:400-434 | the tail loop applies the batch and reports exactly the charge removed and added |
| `Overlay.MappedInstalled` | lkv/src/database/state.rs:367-398 | promotion and mapped install apply the batch and report exactly the charge removed and added |
| `Overlay.OverlayState.InstallTail` | lkv/src/database/state.rs:631-634 | index and charge stand for the updated map, with no saturation |
| `Overlay.OverlayState.InstallMapped` | lkv/src/database/state.rs:622-625 | index and charge stand for the updated map over the longer mapping, and the tail is empty; the charge is the one of `Overlay.ChargeOfFresh` |
| `Overlay.PreviousCharge` | lkv/src/database/state.rs:226-236 | the charge found for a key is the one that was added for it |
| `Overlay.ChargeWithinLog` | lkv/src/database/state.rs:173-179 | the charge of a log never exceeds its bytes, so no counter overflows |
| `Overlay.ChargeOfFresh` | lkv/src/database/state.rs:226-236 | a new key costs its length, and its value's unless that is a mebibyte or more; a tombstone costs its key |
| `Overlay.ChargeOfFreshBatch` | lkv/src/database/state.rs:226-236 | so does every operation of a batch of new keys, summed up |
| `Visible.CommitFresh` | lkv/src/database/mod.rs:303-362 | after a committed batch of new keys the handle's memory charge has grown by exactly that sum |
| `Iteration.CollectEntries` | lkv/src/database/transaction.rs:355-400 | iteration yields every live key exactly once with the value the map holds, and nothing else |
| `Iteration.WalkBase` | lkv/src/database/transaction.rs:358-392 | the Base half yields the unshadowed entries in order and ends at the end of the data |
| `Iteration.OverlayValues` | lkv/src/database/state.rs:530-559 | the Overlay half lists every key that carries a value, once |
| `Device.OrderedIsLoss` | lkv/src/database/tests/recovery.rs:282-324 | every image an ordered crash can leave, a lossy crash can leave |
| `Images.HeldOpens` | lkv/src/database/mod.rs:495-545 | an image that holds a content opens, keeps exactly its log, and reads as exactly its map |
| `Images.OverlaidUpdates` | lkv/src/database/view.rs:22-36 | logging a batch over a Base updates the map that the two stand for |
| `Images.RecoveryIsUnique` | lkv/src/database/mod.rs:495-545 | an image recovers to at most one map |
| `CrashSafety.ReadySurvivesLoss` | lkv/src/database/maintenance.rs:112-134 | while the front of the file is rewritten, losing any unsynced bytes recovers the same map |
| `CrashSafety.IdleIsGenuine` | lkv/src/format/superblock.rs:108-167 | while no root page is being written, every crash image satisfies the hypothesis on root pages |
| `CrashSafety.HeldIsRecovered` | lkv/src/database/mod.rs:495-545 | a crash claim about a file that holds a map can only be met by that map, whatever roots were recorded |
| `CrashSafety.CommitIsSafe` | lkv/src/database/mod.rs:303-362 | an append cut at any byte leaves the old or the new content |
| `CrashSafety.MarkerIsSafe` | lkv/src/database/maintenance.rs:64-66 | a compact marker cut at any byte leaves the content unchanged |
| `CrashSafety.StagingIsSafe` | lkv/src/database/maintenance.rs:68-91 | any write behind the marker leaves the content unchanged |
| `CrashSafety.PublishSurvivesLoss` | lkv/src/format/superblock.rs:70-79 | a torn write of the next root leaves one of two roots in charge, whatever the page held before, and both stand for the same map |
| `CrashSafety.CopySurvivesLoss` | lkv/src/format/superblock.rs:81-89 | a torn second copy of the root never endangers the first |
| `CrashSafety.ShrinkSurvivesLoss` | lkv/src/database/maintenance.rs:166-173 | cutting off what follows the log is safe whether or not the cut persists |
| `CrashSafety.RelocatedIsStored` | lkv/src/database/maintenance.rs:121-134 | the relocated Base closed by its marker can be published with an empty log |
| `Loss.LossNeverLies` | lkv/src/database/recovery.rs:44-136 | whatever unsynced bytes of an append or of staging are lost, the log is refused, or the image holds the old content, or it holds the appended batch as well because its whole record is there |
| `Loss.FrankNeverLies` | lkv/src/database/mod.rs:495-545 | where every loss is refused or holds one of the contents, an opening that succeeds shows one of their maps and no other |
| `Loss.AppendIsUnsynced` | lkv/src/database/mod.rs:320-326 | pending writes and cuts behind everything a handle holds are in the state that `Loss.LossNeverLies` speaks of |
| `Loss.CommitIsGuarded` | lkv/src/database/mod.rs:320-326 | an append, whole or torn: an ordered crash leaves the old or the new content, and any loss leaves one of them or is refused |
| `Loss.CutBackIsGuarded` | lkv/src/database/mod.rs:485-492 | the same while the append is cut off again, whether or not its sync had already made it durable |
| `Loss.UnstagingIsGuarded` | lkv/src/database/mod.rs:485-492 | the same while a staged Base and its marker are cut off again, synced or not |
| `Pending.TrimOverPending` | lkv/src/database/mod.rs:516-536 | opening a file whose last writes are not durable reads one of the two possible maps, and after its trim an ordered crash still allows only those two |
| `Pending.CutBeforeRoot` | lkv/src/database/mod.rs:516-536 | with the destination root written but not synced, the trim can outlive the root page; then neither root is selected, and none at all unless an older one happens to fit |
| `Pending.CutLosesAll` | lkv/src/database/mod.rs:516-536 | a counterexample: tearing the pending page behind its fields makes it fail whatever older root it held, and the other root points past the cut, so no root is left |
| `Pending.CutSurvivesWhen` | lkv/src/database/maintenance.rs:145-173 | the cut survives any loss if and only if the root page is durable before it; while it is pending, no map at all survives every loss |
| `Database.Handle.WriteAt` | lkv/src/format/segment.rs:92-98 | every write of a handle avoids the ranges mapped by it and by its live snapshots and leaves their bytes unchanged; it fails exactly when the plan says so |
| `Database.Handle.CutTo` | lkv/src/format/segment.rs:92-98 | every truncation of a handle keeps the ranges mapped by it and by its live snapshots; it fails exactly when the plan says so |
| `Database.Handle.RollbackOrPoison` | lkv/src/database/mod.rs:485-492 | whatever fails, writes stop, and every instant of the rollback recovers one of the two maps, or is refused after a loss out of order; if the rollback itself does not fail, the file is durably what it was |
| `Database.Handle.Append` | lkv/src/database/mod.rs:653-662 | at every instant of the append and its sync a crash recovers the old or the new map; success means durable |
| `Database.Handle.InstallBatch` | lkv/src/database/mod.rs:331-361 | after a durable append the index serves the updated content, or is unchanged when mapping fails; it is mapped anew exactly when the log has outgrown the mapping by a mebibyte |
| `Database.Handle.Commit` | lkv/src/database/mod.rs:303-362 | success means durable and served; without an I/O fault the verdict is the one of the size limits; any error leaves the served map, and if only one system call failed the file is durably what it was; every instant recovers the old or the new map without any hypothesis on root pages, shows no other under any loss, keeps what snapshots have mapped, and stays within the size limit |
| `Database.Handle.CommitWith` | lkv/src/database/mod.rs:303-362 | the same for a record encoded by the caller, provided it is the record of the batch |
| `Database.UpheldOutright` | lkv/src/database/mod.rs:303-362 | at every instant of a commit an ordered crash recovers one of the two maps outright, and after any loss an opening that succeeds does, torn records aside |
| `Database.Handle.Unpublish` | lkv/src/database/mod.rs:331-352 | cutting a durable batch off again when it cannot be mapped poisons the handle and keeps every instant recoverable, under losses too |
| `Database.Handle.StageBase` | lkv/src/database/maintenance.rs:64-92 | marker, staging Base and first sync; failure cuts back and poisons, after a single failed call without a trace; every instant recovers the map |
| `Database.Handle.PublishRoot` | lkv/src/format/superblock.rs:70-79 | hands the file to the next root; every instant survives any loss; failure poisons |
| `Database.Handle.CopyRoot` | lkv/src/format/superblock.rs:81-89 | publishes the second copy under the same guarantees; then both pages hold the root |
| `Database.Handle.Relocate` | lkv/src/database/maintenance.rs:121-134 | writes the relocated Base and its marker below the staging Base, which stays in charge throughout |
| `Database.Handle.Shrink` | lkv/src/database/maintenance.rs:166-173 | cuts off the staging Base; every instant survives any loss |
| `Database.Handle.FinishCompaction` | lkv/src/database/maintenance.rs:115-180 | from the staging Base to the relocated one: the map never changes, and a handle left Healthy agrees with the file |
| `Database.Handle.Compact` | lkv/src/database/maintenance.rs:21-181 | without an I/O fault it succeeds if and only if there is nothing to do or a second Base fits both behind the file and behind the relocated Base, and success leaves a file of exactly a Base of the map with its root in both pages; the map never changes on success, on failure at any step, or at any crash point; from the first sync on not even under lossy crashes, before it a loss is at worst refused; snapshots make it refuse without effect |
| `Database.SourceIsLeast` | lkv/src/database/maintenance.rs:54-58 | the staging Base stands at the first offset that clears both the file and the relocated Base, each with its marker |
| `Database.Handle.LiveEntries` | lkv/src/database/maintenance.rs:266-284 | the entries handed to the builder are exactly the live map and all fit the format |
| `Database.Handle.Get` | lkv/src/database/mod.rs:269-272 | a handle that is not Unavailable answers every key with its last acknowledged map |
| `Database.Handle.Snapshot` | lkv/src/database/mod.rs:244-254 | refused only without a mapping; the view joins the live ones, whose bytes every later operation must keep |
| `Database.ReadKey` | lkv/src/database/view.rs:22-36 | Overlay first, then Base, answers as the map |
| `Database.ViewsStand` | lkv/src/database/mod.rs:303-362 | at every instant of a commit the bytes mapped by all live views are the ones they were created over |
| `Snapshots.Ask` | lkv/src/database/transaction.rs:437-516 | read through the bytes the file has now, the view answers with the map of its creation |
| `Snapshots.Serve` | lkv/src/database/maintenance.rs:21-28 | one commit, compaction attempt, snapshot or drop keeps an undropped snapshot and its bytes, and does its own work |
| `Snapshots.Follow` | lkv/src/database/mod.rs:224-254 | from a snapshot on, through any sequence of such requests and any failures, its mapped bytes are unchanged at every instant and it always answers with the map of its creation, while the database moves on exactly as the plain states do |
| `Opening.ReloadedAlike` | lkv/src/database/recovery.rs:209-211 | after any loss of unsynced bytes, loading the file of a healthy handle rebuilds the very memory charge it kept commit by commit, its root, its mapping, and an index that answers every key alike |
| `Opening.VerifyBlocks` | lkv/src/format/segment.rs:299-306 | accepts exactly when every block matches its stored checksum |
| `Opening.OpenBase` | lkv/src/database/state.rs:59-93 | accepts exactly what its mode checks |
| `Opening.Load` | lkv/src/database/mod.rs:495-545 | loads root, Base, index and charge of any image, fails only on what is not openable or on an I/O fault, and touches the file only to cut off a torn tail |
| `Opening.Open` | lkv/src/database/mod.rs:192-211 | accepts exactly the openable images, up to I/O failures, and refuses others untouched and with the right complaint; on an image that holds a content the handle serves it, and every instant survives any loss |
| `Opening.DamagedBatchIsRefused` | lkv/src/database/tests/recovery.rs:535-600 | an acknowledged batch damaged so that a checksum notices makes the file unopenable in both modes, so it is refused and never trimmed |
| `Opening.HeldIsOpenable` | lkv/src/database/mod.rs:495-545 | an image that holds a content is accepted in both verification modes and its log ends where that content's log does |
| `Opening.HealthyRootIsSelected` | lkv/src/database/mod.rs:422-460 | after any loss of unsynced bytes, reopening selects the very generation a healthy handle appends to |
| `Runs.InitialImage` | lkv/src/database/mod.rs:677-691 | a new file holds the empty map at generation 1 and ends behind its Base |
| `Runs.SubmitStep` | lkv/src/database/mod.rs:303-362 | one commit seen from a whole run: acknowledged, refused without effect, or undecided between two maps; on a healthy handle without a fault exactly the plain commit |
| `Runs.RebuildStep` | lkv/src/database/maintenance.rs:21-181 | one compaction seen from a whole run: the map and the undecided batch stay what they were; on a healthy handle without a fault exactly the plain compaction |
| `Runs.Reopen` | lkv/src/database/mod.rs:495-545 | a crash at any instant, in order or with losses, then opening in either mode: the map, or the map with the undecided batch; otherwise it returns the image in which something unsynced and torn passed its checksum, the image whose loss out of order was noticed, or an I/O error with its fault; a healthy handle's root and content come back unless a call fails |
| `Runs.LateBatch` | lkv/src/database/recovery.rs:44-136 | finding an undecided batch in the file is the same as having applied it when it was submitted |
| `Runs.OnCourseDecided` | lkv/src/database/recovery.rs:44-136 | a reopening decides the one undecided batch of the handle that ended, and with it the replay |
| `Runs.Create` | lkv/src/database/mod.rs:192-211 | a new database opens unless a call fails or the limit is below an empty one, and is the plain empty state |
| `Runs.StopDuring` | lkv/src/database/mod.rs:495-545 | the machine stops at any instant of the last action: a live handle again, or a justified end; a restart of a healthy handle comes back with nothing visible changed, or fails on I/O |
| `Runs.Perform` | lkv/src/database/mod.rs:303-362 | one action keeps the run's invariant, and undisturbed does and reports what the plain states foresee |
| `Runs.Run` | lkv/src/database/mod.rs:303-545 | over every script, fault plan and pattern of deaths: the final listing is the replay of all acknowledged batches plus undecided ones, each wholly or not at all, at most one per handle; rejected ones are absent; nothing is uncertain and no run ends early without its cause; until the first disturbance every outcome is the one the plain states foresee, and an undisturbed run completes with exactly their map |
| `Verifier.SegmentVerifier.constructor` | lkv/src/database/state.rs:661-682 | a new verifier marks all blocks only for data whose blocks match |
| `Verifier.SegmentVerifier.VerifyRange` | lkv/src/database/state.rs:684-716 | with other readers interfering: success means every block the range touches passes and is now marked, and a range whose blocks pass always succeeds, whatever is damaged elsewhere |
| `Verifier.PassingRange` | lkv/src/database/state.rs:684-716 | a range whose blocks pass reads as the intact Base does |
| `Verifier.UndamagedPasses` | lkv/src/database/state.rs:684-716 | a range without damage passes, whatever is damaged in other blocks |
| `Verifier.LookupSegment` | lkv/src/database/view.rs:56-115 | with any data bytes altered and any verification history, an answer is the intact Base's answer; and it always answers when the blocks of the slots it probes and of the records it compares pass |
| `Readers.StepInv` | lkv/src/database/state.rs:684-716 | every atomic step of every reader keeps the shared invariant |
| `Readers.EveryInterleaving` | lkv/src/database/state.rs:661-716 | in every interleaving: marks only on passing blocks, countdown equals unmarked blocks plus decrements in flight and never underflows, the flag means all pass, each finished call answered exactly for its blocks |
| `Readers.FinishedIsMarked` | lkv/src/database/state.rs:684-716 | in every interleaving a call that succeeded leaves all its blocks marked |
| `Readers.QuiescentFlag` | lkv/src/database/state.rs:661-716 | when no call is in progress the flag is up exactly when every block is marked |
| `Readers.OthersInterfere` | lkv/src/database/state.rs:684-716 | any number of steps of other readers is what `Verifier.SegmentVerifier.VerifyRange` allows them between two of its own steps |
| `Crc32c.AppendConcat` | lkv/src/format/log.rs:158-170 | a checksum may be computed piece by piece |
| `Crc32c.CheckValue` | lkv/src/format/log.rs:158-170 | the published check value of CRC32C, that of the digits one to nine |
| `Crc32c.CombineIsAppend` | lkv/src/format/log.rs:79-82 | combining with a cached value checksum equals reading the value |
| `Transaction.BatchRecordChecksum` | lkv/src/format/log.rs:60-87 | with any correct cache the checksum is the one recovery recomputes over the payload |
| `Transaction.EncodeBatch` | lkv/src/format/log.rs:103-126 | the bytes written are those of the batch record whatever was cached |
| `Transaction.ReservedValue.Write` | lkv/src/database/transaction.rs:259-277 | takes the whole input or nothing; the running checksum covers exactly the bytes written |
| `Transaction.CopyValue` | lkv/src/database/transaction.rs:284-297 | the chunked copy equals the value and its checksum is the value's |
| `Transaction.WriteTransaction.Put` | lkv/src/database/transaction.rs:72-93 | succeeds exactly for admissible lengths; the last staged value wins and its cached checksum matches it |
| `Transaction.WriteTransaction.PutReserved` | lkv/src/database/transaction.rs:112-164 | for callers that stop at a refused write and for those that carry on: succeeds exactly when the caller does and the accepted writes fill the reservation; then they are the value, otherwise nothing is staged |
| `Transaction.WriteTransaction.Delete` | lkv/src/database/transaction.rs:166-172 | stages a tombstone and drops any cached checksum |
| `Transaction.OrderIsIrrelevant` | lkv/src/format/log.rs:114-124 | whatever order the staging map is iterated in, the batch updates the map in the same way |
| `Transaction.ReadThrough` | lkv/src/database/transaction.rs:175-184 | a transaction sees its own staged changes over the committed map |
| `Transaction.CommitTransaction` | lkv/src/database/transaction.rs:192-194 | appends the record encoded with the cached checksums; verdict as for its batch; the map becomes the old one with every staged change, or stays what it was |
| `Memory.MemoryDatabase.Commit` | lkv/src/database/mod.rs:286-301 | same verdict and map update as the file backend, keeping only the length of the log |
| `Memory.MemoryDatabase.Compact` | lkv/src/database/maintenance.rs:183-242 | succeeds exactly when a Base of the map fits, keeps the map, and leaves no log and exactly that length |
| `Listing.SameMapSameSize` | lkv/src/format/segment.rs:313-348 | the size of a Base depends only on the map, not on the order of its entries |
| `Listing.MapSizeOf` | lkv/src/format/segment.rs:313-348 | every listing of a map measures as the map itself, including when the size overflows |
| `Visible.CommitSeen` | lkv/src/database/mod.rs:303-330 | a committed batch updates the map and lengthens the file by exactly its record |
| `Memory.CommitBoth` | lkv/src/database/mod.rs:274-301 | unless the file system fails, both backends give the same verdict, map and length, those of the plain commit |
| `Memory.CompactBoth` | lkv/src/database/maintenance.rs:21-62 | unless the file system fails, each backend gives the verdict of its own size check, and the verdicts agree if and only if there is nothing to compact, the staging copy fits as well, or not even the Base fits; where they agree, so do map and length |
| `Memory.RunBoth` | lkv/src/database/maintenance.rs:21-62 | any sequence of commits and compactions takes both backends through the same plain states; it stops early only at a file system fault, at the last generation, or at exactly such a disagreement |
| `Memory.BackendsPart` | lkv/src/database/maintenance.rs:42-62 | a counterexample without any fault, with its exact range: for one entry of 701 bytes memory compacts from a limit of 8977 bytes on, the file only from 9779 |

## Left out

- The C interface, benchmarks and fuzz drivers.
- File creation by hard link, directory sync and file locks; `Runs.InitialImage` is the image they publish.
- Allocation failures, except where compaction prepares its detached Base, and error message text.
- `begin_write`'s refusal above the memory limit, `stats`, `len` and `contains_key`: one comparison or one call each.
- Successful reopening after a lossy crash before the first sync of a compaction or before the sync of a commit: a lost piece can make the log refuse to open there. What is proved of those instants is that an opening that succeeds never shows a wrong map.
- `Runs.Reopen`: takes the image it opens as durable; `Pending.dfy` says what changes when it is not.
- `Pending.CutSurvivesWhen`: says nothing where the header on the medium happens to carry the checksum of the new header and an older root fits as well.
- Snapshots that outlive their handle: each opening starts its own guard.
- Integrity of iteration over damaged bytes in OnRead mode; damage detection is stated for point lookup.
- The 64-bit words of the verifier bitmap are one mark per block; atomics are sequentially consistent.
- `MemoryStorage` as a byte store: only its logical length and its Base are modelled; the memory charge, snapshots and handle states of a memory database are not.
- The checks that a Base size did not change between measuring and writing: builder and measure are proved equal, so they cannot fire.
- `Database.Handle.Compact`: requires two more generations below 2^64, because the code adds to the 64-bit generation unchecked; the full verification it runs first is not repeated there, because `Layout.WrittenBaseAccepted` and `Records.BuiltIsSound` show that it passes.
- `Database.Handle.Get`: takes the verifier of the active Base as a parameter instead of keeping it in the handle.
- Slot masking `& (slots - 1)` is written as a remainder, which is the same for the powers of two that the header check admits.
