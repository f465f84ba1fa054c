/** The database handle: opening, committing and compacting a single file. */
module Database {
  import opened Bytes
  import opened Log
  import opened Overlay
  import opened Roots
  import opened Segment
  import opened Lookup
  import opened Layout
  import opened Device
  import opened Images
  import opened CrashSafety
  import opened Loss
  import opened Storage
  import opened Iteration
  import opened Listing
  import opened Recovery
  import opened Verifier

  datatype HandleState = Healthy | WritePoisoned | Unavailable

  datatype Error = Poisoned | SnapshotsLive | TooLarge | DatabaseFull | Io | Corrupt | UnsupportedVersion

  datatype Result = Ok | Err(error: Error)

  /**
   * What holds at an instant of an operation: no root page is being written, and of the log only parts
   * of one record or of staging; an ordered crash recovers one of the two maps, any other loss recovers
   * one of them or is noticed; the bytes `keep` that readers may have mapped are unchanged, and the size
   * limit is respected.
   */
  datatype Claim = Claim(keep: Bytes, limit: nat, roots: set<Superblock>, a: map<Bytes, Bytes>, b: map<Bytes, Bytes>)

  ghost predicate Upholds(d: Digests, t: Moment, claim: Claim) {
    && Tidy(d, t.disk)
    && Survives(d, t, claim.a, claim.b)
    && NeverLies(d, t, claim.a, claim.b)
    && t.roots == claim.roots
    && claim.keep <= Image(t.disk)
    && Reach(t.disk) <= claim.limit
  }

  /** The claim holds at every instant from the `from`-th on. */
  ghost predicate Throughout(d: Digests, trail: seq<Moment>, from: nat, claim: Claim) {
    from <= |trail| && forall i :: from <= i < |trail| ==> Upholds(d, trail[i], claim)
  }

  /** So a crash then recovers one of the two maps outright, with no hypothesis on the root pages. */
  lemma UpheldOutright(d: Digests, t: Moment, claim: Claim, image: Bytes)
    requires Upholds(d, t, claim)
    ensures CrashesTo(t.disk, image) ==> RecoversTo(d, image, claim.a) || RecoversTo(d, image, claim.b)
    ensures LosesTo(t.disk, image) && GenuineTail(d, t.disk, image) && Opens(d, image) ==>
              RecoversTo(d, image, claim.a) || RecoversTo(d, image, claim.b)
  {
    hide Idle, KnownTail, CrashesTo, LosesTo, GenuinePages, GenuineTail, Opens, RecoversTo, Image, Reach;
    if CrashesTo(t.disk, image) {
      OrderedIsLoss(t.disk, image);
    }
    if LosesTo(t.disk, image) {
      IdleIsGenuine(d, t.disk, image, t.roots);
    }
  }

  lemma ThroughoutMore(d: Digests, trail: seq<Moment>, from: nat, t: Moment, claim: Claim)
    requires Throughout(d, trail, from, claim) && Upholds(d, t, claim)
    ensures Throughout(d, trail + [t], from, claim)
  {
    hide Upholds;
  }

  /** A guarded device state whose image is in bounds upholds the claim. */
  lemma GuardedUpholds(d: Digests, t: Moment, sb: Superblock, cs: set<Content>, claim: Claim)
    requires Guarded(d, t.disk, sb, cs)
    requires forall c :: c in cs ==> Meaning(c) == claim.a || Meaning(c) == claim.b
    requires claim.keep <= Image(t.disk) && Reach(t.disk) <= claim.limit && t.roots == claim.roots && Tidy(d, t.disk)
    ensures Upholds(d, t, claim)
  {
    hide Safe, Frank, Meaning, Survives, NeverLies, Image, Tidy;
    SafeSurvives(d, t, sb, cs, claim.a, claim.b);
    FrankNeverLies(d, t, sb, cs, claim.a, claim.b);
  }

  /** Staged changes: lengths were checked by `put`, `put_reserved` and `delete`, keys are distinct. */
  ghost predicate Staged(ops: seq<Op>) {
    DistinctKeys(ops) && forall i :: 0 <= i < |ops| ==> Loggable(ops[i])
  }

  /** How a commit ends when no file operation fails. */
  function Verdict(staged: seq<Op>, length: nat, limit: nat): Result {
    if staged == [] then Ok
    else if |staged| > MAX_BATCH_OPERATIONS || |Payload(staged)| >= U32_LIMIT then Err(TooLarge)
    else if length + Log.HEADER_SIZE + |Payload(staged)| > limit then Err(DatabaseFull)
    else Ok
  }

  /** Where a compaction stages its Base: past the current log and past the relocated Base, with room for a marker. */
  function SourceOffset(length: nat, size: nat): nat {
    var destinationEnd := DATA_START + size;
    if length <= destinationEnd then destinationEnd + Log.HEADER_SIZE else length + Log.HEADER_SIZE
  }

  /** The staging Base stands as early as it can: nothing shorter leaves room for both markers. */
  lemma SourceIsLeast(length: nat, size: nat)
    ensures var s := SourceOffset(length, size);
            && length + Log.HEADER_SIZE <= s && DATA_START + size + Log.HEADER_SIZE <= s
            && (s == length + Log.HEADER_SIZE || s == DATA_START + size + Log.HEADER_SIZE)
  {
  }

  /** A second Base of this size, behind a marker, fits both behind the file and behind the relocated Base. */
  predicate RoomFor(size: nat, length: nat, limit: nat) {
    && length + Log.HEADER_SIZE + size <= limit
    && DATA_START + size + Log.HEADER_SIZE + size <= limit
  }

  /** There is nothing to compact. */
  predicate AlreadyCompact(root: Superblock, length: nat) {
    root.baseOffset == DATA_START && length == root.logStart
  }

  /** How a compaction of the map ends when no file operation fails. */
  ghost function CompactVerdict(m: map<Bytes, Bytes>, compact: bool, length: nat, limit: nat): Result {
    if compact then Ok
    else
      match MapSize(m)
      case None => Err(TooLarge)
      case Some(size) =>
        var sourceEnd := SourceOffset(length, size) + size;
        if sourceEnd >= U64_LIMIT then Err(TooLarge)
        else if sourceEnd > limit then Err(DatabaseFull)
        else Ok
  }

  /** Both pages hold the root, so that either of them alone is enough. */
  predicate Doubled(d: Digests, image: Bytes, sb: Superblock) {
    RootAt(d, image, 0) == Fields(sb) && RootAt(d, image, 1) == Fields(sb)
  }

  lemma DoubledCut(d: Digests, image: Bytes, sb: Superblock, len: nat)
    requires Doubled(d, image, sb) && DATA_START <= len <= |image|
    ensures Doubled(d, image[..len], sb)
  {
    hide RootAt;
    SubSlice(image, 0, len, 0, PAGE_SIZE);
    SubSlice(image, 0, len, PAGE_SIZE, DATA_START);
    SamePagesSameRoots(d, image, image[..len], 0);
    SamePagesSameRoots(d, image, image[..len], 1);
  }

  /** Mapped Base, Overlay index and memory charge stand for `c`. */
  ghost predicate Serves(d: Digests, sb: Superblock, mapping: Bytes, c: Content, index: OverlayMap, memory: nat) {
    && Segment.Valid(d, c.base)
    && sb == RootOf(d, sb.generation, c.base)
    && mapping == BaseBytes(d, c.base)
    && StorableLog(c.batches)
    && Represents(index, LogBytes(d, c.batches), ApplyBatches(c.batches))
    && memory == Charge(ApplyBatches(c.batches))
  }

  lemma ServesBatch(d: Digests, sb: Superblock, mapping: Bytes, c: Content, index: OverlayMap, memory: nat,
                    ops: seq<Op>, index': OverlayMap, memory': nat)
    requires Serves(d, sb, mapping, c, index, memory) && StorableBatch(ops)
    requires Represents(index', LogBytes(d, c.batches) + BatchRecord(d, ops), ApplyOps(ApplyBatches(c.batches), ops))
    requires memory' == Charge(ApplyOps(ApplyBatches(c.batches), ops))
    ensures Serves(d, sb, mapping, WithBatch(c, ops), index', memory')
  {
    hide Segment.Valid, RootOf, BaseBytes, StorableBatch, StorableLog, Represents, LogBytes, ApplyOps,
         ApplyBatches, Charge, BatchRecord;
    StorableLogGrows(c.batches, ops);
    LogGrows(d, c.batches, ops);
    ApplyLastBatch(c.batches, ops);
  }

  lemma StorableLogGrows(batches: seq<seq<Op>>, ops: seq<Op>)
    requires StorableLog(batches) && StorableBatch(ops)
    ensures StorableLog(batches + [ops])
  {
    hide StorableBatch;
  }

  lemma ReadyWithBatch(d: Digests, disk: Disk, sb: Superblock, c: Content, ops: seq<Op>)
    requires Ready(d, disk, sb, c) && StorableBatch(ops)
    ensures var after := Disk(Image(disk) + BatchRecord(d, ops), []);
            && Ready(d, after, sb, WithBatch(c, ops))
            && Image(after) == Image(disk) + BatchRecord(d, ops)
            && sb.logStart <= |Image(after)|
            && Image(after)[sb.logStart..] == LogBytes(d, c.batches) + BatchRecord(d, ops)
  {
    hide Holds, BatchRecord, StorableBatch, WithBatch, LogBytes;
    ReadyParts(d, disk, sb, c);
    BatchAppended(d, Image(disk), sb, c, ops);
    LogSlice(Image(disk), BatchRecord(d, ops), sb.logStart, LogBytes(d, c.batches));
  }

  predicate SameRange(a: Bytes, b: Bytes, lo: nat, hi: nat) {
    lo <= hi <= |a| && hi <= |b| && a[lo..hi] == b[lo..hi]
  }

  lemma PatchAvoids(image: Bytes, offset: nat, data: Bytes, lo: nat, hi: nat)
    requires lo <= hi <= |image| && (offset + |data| <= lo || hi <= offset)
    ensures SameRange(image, Patch(image, offset, data), lo, hi)
  {
    PatchKeeps(image, offset, data, lo, hi);
  }

  lemma ResizeAvoids(image: Bytes, len: nat, lo: nat, hi: nat)
    requires lo <= hi <= |image| && hi <= len
    ensures SameRange(image, Resize(image, len), lo, hi)
    ensures SameRange(image, image, lo, hi)
  {
  }

  /** What a handle has mapped lies inside the file it agrees with. */
  lemma MappedWithin(d: Digests, disk: Disk, sb: Superblock, mapping: Bytes, c: Content, index: OverlayMap, memory: nat)
    requires Serves(d, sb, mapping, c, index, memory) && Ready(d, disk, sb, c)
    ensures DATA_START <= sb.baseOffset <= sb.logStart && sb.baseOffset + sb.baseSize <= |Image(disk)|
    ensures sb.logStart + |Mapping(index)| <= |Image(disk)|
  {
    hide *;
    ServingParts(d, sb, mapping, c, index, memory);
    ReadyParts(d, disk, sb, c);
    RootBelowEnd(d, disk, sb, c);
    MappingPrefix(index, LogBytes(d, c.batches), ApplyBatches(c.batches));
  }

  /** The mapped bytes are what the file holds at their place. */
  ghost predicate BackedBy(image: Bytes, sb: Superblock, mapping: Bytes, index: OverlayMap) {
    && |mapping| == sb.baseSize
    && Reflects(image, sb.baseOffset, mapping) && Reflects(image, sb.logStart, Mapping(index))
  }

  ghost predicate Reflects(image: Bytes, offset: nat, bytes: Bytes) {
    offset + |bytes| <= |image| && image[offset..offset + |bytes|] == bytes
  }

  lemma ReadyBacked(d: Digests, disk: Disk, sb: Superblock, mapping: Bytes, c: Content, index: OverlayMap, memory: nat)
    requires Serves(d, sb, mapping, c, index, memory) && Ready(d, disk, sb, c)
    ensures BackedBy(Image(disk), sb, mapping, index)
  {
    hide *;
    ServingParts(d, sb, mapping, c, index, memory);
    ReadyParts(d, disk, sb, c);
    MappedBase(d, disk, sb, c);
    MappingPrefix(index, LogBytes(d, c.batches), ApplyBatches(c.batches));
    BackedFrom(Image(disk), sb, mapping, index);
  }

  lemma BackedFrom(image: Bytes, sb: Superblock, mapping: Bytes, index: OverlayMap)
    requires |mapping| == sb.baseSize && sb.baseOffset + sb.baseSize <= |image| && sb.logStart <= |image|
    requires image[sb.baseOffset..sb.baseOffset + sb.baseSize] == mapping && Mapping(index) <= image[sb.logStart..]
    ensures BackedBy(image, sb, mapping, index)
  {
    SubSlice(image, sb.logStart, |image|, 0, |Mapping(index)|);
  }

  lemma MappingPrefix(o: OverlayMap, log: Bytes, m: Changes)
    requires Represents(o, log, m)
    ensures Mapping(o) <= log
  {
  }

  lemma BackedPrefix(before: Bytes, after: Bytes, sb: Superblock, mapping: Bytes, index: OverlayMap)
    requires BackedBy(before, sb, mapping, index) && before <= after
    ensures BackedBy(after, sb, mapping, index)
  {
    SubSlice(after, 0, |before|, sb.baseOffset, sb.baseOffset + |mapping|);
    SubSlice(after, 0, |before|, sb.logStart, sb.logStart + |Mapping(index)|);
  }

  lemma BackedIntact(before: Bytes, after: Bytes, sb: Superblock, mapping: Bytes, index: OverlayMap, end: nat)
    requires BackedBy(before, sb, mapping, index) && SameRange(before, after, sb.baseOffset, end)
    requires sb.baseOffset + sb.baseSize <= end && sb.logStart + |Mapping(index)| <= end && sb.baseOffset <= sb.logStart
    ensures BackedBy(after, sb, mapping, index)
  {
    var lo := sb.baseOffset;
    var at := sb.logStart - lo;
    SubSlice(before, lo, end, 0, |mapping|);
    SubSlice(after, lo, end, 0, |mapping|);
    SubSlice(before, lo, end, at, at + |Mapping(index)|);
    SubSlice(after, lo, end, at, at + |Mapping(index)|);
  }

  lemma KeptPrefix(d: Digests, trail: seq<Moment>, from: nat, claim: Claim)
    requires Throughout(d, trail, from, claim) && from < |trail|
    ensures claim.keep <= Image(trail[|trail| - 1].disk)
  {
    hide Survives, NeverLies, Image;
    assert Upholds(d, trail[|trail| - 1], claim);
  }

  /** What a read transaction or a snapshot holds on to. */
  datatype ReadView = ReadView(root: Superblock, mapping: Bytes, index: OverlayMap)

  /** The view answers with the meaning of `c`. */
  ghost predicate Views(d: Digests, view: ReadView, c: Content) {
    Serves(d, view.root, view.mapping, c, view.index, Charge(ApplyBatches(c.batches)))
  }

  /** `ReadView::get`: the Overlay first, then the Base. */
  method ReadKey(d: Digests, view: ReadView, onRead: bool, verifier: SegmentVerifier, key: Bytes, ghost c: Content)
    returns (r: ReadResult)
    requires Views(d, view, c)
    requires verifier.dataSize == DataSize(c.base) && verifier.Valid(d, view.mapping)
    modifies verifier
    ensures verifier.Valid(d, view.mapping)
    ensures r == Answered(MapGet(Meaning(c), key))
  {
    hide Serves, Segment.Valid, BaseBytes, DataSize, DataLength, BlocksMatch, Represents, AsMap, Overlaid,
         ApplyBatches, LogBytes, StorableLog, Altered, Get;
    ServingParts(d, view.root, view.mapping, c, view.index, Charge(ApplyBatches(c.batches)));
    GetIsMap(view.index, LogBytes(d, c.batches), ApplyBatches(c.batches), key);
    AnswerIsOverlaid(AsMap(c.base.entries), ApplyBatches(c.batches), key);
    var entry := Get(view.index, key);
    if entry.Some? {
      return Answered(entry.value);
    }
    Unaltered(d, c.base);
    r := LookupSegment(d, view.mapping, onRead, view.root.baseOffset, view.root.baseSlots, verifier, key, d.hash(key),
                       c.base);
  }

  lemma Unaltered(d: Digests, b: Base)
    requires Segment.Valid(d, b)
    ensures Altered(d, BaseBytes(d, b), BaseBytes(d, b), DataSize(b)) && BlocksMatch(d, BaseBytes(d, b), DataSize(b))
  {
    hide Segment.Valid, BaseBytes, Data, Metadata, DataLength, BlocksMatch, ReadHeader, DataSize, BlockCount, Block;
    WrittenBaseAccepted(d, b);
  }

  /** Where the ranges a view has mapped end: those of its Base and of its Overlay. */
  function ViewEnd(view: ReadView): nat {
    var base, log := view.root.baseOffset + view.root.baseSize, view.root.logStart + |Mapping(view.index)|;
    if base <= log then log else base
  }

  /** Every byte that a live view has mapped is the one it was created over. */
  ghost predicate Standing(image: Bytes, views: seq<ReadView>) {
    forall i :: 0 <= i < |views| ==> BackedBy(image, views[i].root, views[i].mapping, views[i].index)
  }

  /** Each view answers with the content of the instant it was created. */
  ghost predicate Told(d: Digests, views: seq<ReadView>, pasts: seq<Content>) {
    |views| == |pasts| && forall i :: 0 <= i < |views| ==> Views(d, views[i], pasts[i])
  }

  ghost predicate ViewsBelow(views: seq<ReadView>, n: nat) {
    forall i :: 0 <= i < |views| ==> ViewEnd(views[i]) <= n
  }

  lemma NothingStands(d: Digests, disk: Disk)
    ensures forall image :: Standing(image, [])
    ensures Told(d, [], [])
  {
  }

  lemma StandingWithin(image: Bytes, views: seq<ReadView>)
    requires Standing(image, views)
    ensures ViewsBelow(views, |image|)
  {
  }

  lemma StandingPrefix(before: Bytes, after: Bytes, views: seq<ReadView>)
    requires Standing(before, views) && before <= after
    ensures Standing(after, views)
  {
    hide BackedBy;
    forall i | 0 <= i < |views|
      ensures BackedBy(after, views[i].root, views[i].mapping, views[i].index)
    {
      BackedPrefix(before, after, views[i].root, views[i].mapping, views[i].index);
    }
  }

  /** At every instant of a commit the bytes mapped by the live views are the ones they were created over. */
  lemma ViewsStand(d: Digests, trail: seq<Moment>, from: nat, claim: Claim, views: seq<ReadView>)
    requires Throughout(d, trail, from, claim) && Standing(claim.keep, views)
    ensures forall i :: from <= i < |trail| ==> Standing(Image(trail[i].disk), views)
  {
    hide Survives, NeverLies, Image, Standing;
    forall i | from <= i < |trail|
      ensures Standing(Image(trail[i].disk), views)
    {
      assert Upholds(d, trail[i], claim);
      StandingPrefix(claim.keep, Image(trail[i].disk), views);
    }
  }

  class Handle {
    const d: Digests
    const file: File
    const overlay: OverlayState
    const maxBytes: U64
    var state: HandleState
    var root: Superblock
    var mapping: Bytes

    /** The live snapshots. */
    var views: seq<ReadView>

    /** What the mapped Base and the Overlay index stand for. */
    ghost var content: Content

    /** What each live snapshot stands for. */
    ghost var pasts: seq<Content>

    constructor (d: Digests, file: File, overlay: OverlayState, maxBytes: U64, root: Superblock, mapping: Bytes,
                 ghost content: Content)
      ensures this.d == d && this.file == file && this.overlay == overlay && this.maxBytes == maxBytes
      ensures this.root == root && this.mapping == mapping && this.content == content
      ensures state == Healthy && views == [] && pasts == []
    {
      this.d, this.file, this.overlay, this.maxBytes := d, file, overlay, maxBytes;
      this.root, this.mapping, this.content := root, mapping, content;
      this.state, this.views, this.pasts := Healthy, [], [];
    }

    /** The memory of the handle answers reads with the meaning of `content`. */
    ghost predicate Serving()
      reads this, overlay
    {
      Serves(d, root, mapping, content, overlay.index, overlay.memory)
    }

    /** A healthy handle agrees with the file: the next append goes to the generation reopening selects. */
    ghost predicate InStep()
      reads this, file
    {
      && Ready(d, file.disk, root, content)
      && Settled(file.roots, root)
      && file.Length() <= maxBytes
    }

    ghost predicate Valid()
      reads this, overlay, file
    {
      && (state != Unavailable ==> Serving())
      && (state == Healthy ==> InStep())
      && (state == WritePoisoned ==> BackedBy(Image(file.disk), root, mapping, overlay.index))
      && Standing(Image(file.disk), views) && Told(d, views, pasts)
    }

    /** The last acknowledged map. */
    ghost function Contents(): map<Bytes, Bytes>
      reads this
    {
      Meaning(content)
    }

    /** Where the ranges mapped by the handle end: those of its Base and of its Overlay. */
    ghost function MappedEnd(): nat
      reads this`root, overlay
    {
      var base, log := root.baseOffset + root.baseSize, root.logStart + |Mapping(overlay.index)|;
      if base <= log then log else base
    }

    /** Everything that the handle or a live snapshot has mapped ends at or before `n`. */
    ghost predicate MappedBelow(n: nat)
      reads this`root, this`state, this`views, overlay
    {
      (state == Unavailable || MappedEnd() <= n) && ViewsBelow(views, n)
    }

    /** A write of the bytes from `lo` to `hi` touches nothing that the handle or a live snapshot has mapped. */
    ghost predicate Clear(lo: nat, hi: nat)
      reads this`root, this`state, this`views, overlay
    {
      || MappedBelow(lo)
      || ((state == Unavailable || hi <= root.baseOffset)
          && forall i :: 0 <= i < |views| ==> hi <= views[i].root.baseOffset)
    }

    /** No byte that the handle or a live snapshot has mapped differs between the two images. */
    ghost predicate MappedIntact(before: Bytes, after: Bytes)
      reads this`root, this`state, this`views, overlay
    {
      && (state == Unavailable || MappedEnd() > |before| || SameRange(before, after, root.baseOffset, MappedEnd()))
      && forall i :: 0 <= i < |views| && ViewEnd(views[i]) <= |before| ==>
           SameRange(before, after, views[i].root.baseOffset, ViewEnd(views[i]))
    }

    /** Every write of the handle goes through here: it may not touch a mapped byte. */
    method WriteAt(offset: nat, data: Bytes) returns (ok: bool, ghost written: nat)
      requires Clear(offset, offset + |data|)
      modifies file
      ensures ok <==> !file.plan(old(file.clock))
      ensures written <= |data| && (ok ==> written == |data|)
      ensures file.disk == old(file.disk).(pending := old(file.disk).pending + [Write(offset, data[..written])])
      ensures file.roots == old(file.roots) && file.trail == old(file.trail) + [Moment(file.disk, file.roots)]
      ensures file.clock == old(file.clock) + 1
      ensures MappedIntact(old(Image(file.disk)), Image(file.disk))
    {
      hide Image, Patch;
      ok, written := file.Put(offset, data);
      ghost var before := old(Image(file.disk));
      ImageStep(old(file.disk), Write(offset, data[..written]));
      if state != Unavailable && MappedEnd() <= |before| {
        PatchAvoids(before, offset, data[..written], root.baseOffset, MappedEnd());
      }
      forall i | 0 <= i < |views| && ViewEnd(views[i]) <= |before|
        ensures SameRange(before, Image(file.disk), views[i].root.baseOffset, ViewEnd(views[i]))
      {
        PatchAvoids(before, offset, data[..written], views[i].root.baseOffset, ViewEnd(views[i]));
      }
    }

    /** Every truncation of the handle goes through here: it may not cut off a mapped byte. */
    method CutTo(len: nat) returns (ok: bool)
      requires MappedBelow(len)
      modifies file
      ensures ok <==> !file.plan(old(file.clock))
      ensures file.disk == old(file.disk).(pending := old(file.disk).pending + [SetLen(len)]) ||
              (!ok && file.disk == old(file.disk))
      ensures file.roots == old(file.roots) && file.trail == old(file.trail) + [Moment(file.disk, file.roots)]
      ensures file.clock == old(file.clock) + 1
      ensures MappedIntact(old(Image(file.disk)), Image(file.disk))
    {
      hide Image, Resize;
      ok := file.SetLength(len);
      ghost var before := old(Image(file.disk));
      ImageStep(old(file.disk), SetLen(len));
      if state != Unavailable && MappedEnd() <= |before| {
        ResizeAvoids(before, len, root.baseOffset, MappedEnd());
      }
      forall i | 0 <= i < |views| && ViewEnd(views[i]) <= |before|
        ensures SameRange(before, Image(file.disk), views[i].root.baseOffset, ViewEnd(views[i]))
      {
        ResizeAvoids(before, len, views[i].root.baseOffset, ViewEnd(views[i]));
      }
    }

    /** Cuts the file back after a failed write and refuses writes from now on. */
    method RollbackOrPoison(len: nat, ghost cs: set<Content>, ghost claim: Claim, ghost from: nat)
      requires Guarded(d, file.disk, root, cs)
      requires Guarded(d, file.disk.(pending := file.disk.pending + [SetLen(len)]), root, cs)
      requires forall c :: c in cs ==> Meaning(c) == claim.a || Meaning(c) == claim.b
      requires claim.keep <= Image(file.disk) && |claim.keep| <= len <= |Image(file.disk)|
      requires Reach(file.disk) <= claim.limit && Tidy(d, file.disk) && DATA_START <= len
      requires claim.roots == file.roots && MappedBelow(len) && state == Healthy
      requires Throughout(d, file.trail, from, claim)
      modifies this`state, file
      ensures state == WritePoisoned
      ensures Throughout(d, file.trail, from, claim)
      ensures file.Logged() && old(file.trail) < file.trail
      ensures file.roots == old(file.roots) && old(file.clock) <= file.clock
      ensures len == |claim.keep| && !Fault(file.plan, old(file.clock), file.clock) ==>
                file.disk == Disk(claim.keep, [])
    {
      hide Guarded, Survives, Throughout, Upholds, Resize, Image, Meaning, MappedEnd, ViewsBelow, MappedIntact, Tidy;
      state := WritePoisoned;
      TidyCut(d, file.disk, len);
      var ok := CutTo(len);
      if file.disk != old(file.disk) {
        ImageStep(old(file.disk), SetLen(len));
        ReachImage(old(file.disk));
        ReachStep(old(file.disk), SetLen(len));
        ResizeKeeps(Image(old(file.disk)), len, claim.keep);
        WholePrefix(claim.keep, Resize(Image(old(file.disk)), len));
      }
      GuardedUpholds(d, Moment(file.disk, file.roots), root, cs, claim);
      ThroughoutMore(d, old(file.trail), from, Moment(file.disk, file.roots), claim);
      if ok {
        ghost var trail, disk := file.trail, file.disk;
        var synced := file.Sync();
        GuardedAfterSync(d, disk, file.disk, root, cs);
        TidySynced(d, disk, file.disk);
        ReachSynced(disk, file.disk);
        GuardedUpholds(d, Moment(file.disk, file.roots), root, cs, claim);
        ThroughoutMore(d, trail, from, Moment(file.disk, file.roots), claim);
      }
    }

    /** Writes one batch record, or the front of one, at the end of the file. */
    method WriteRecord(ghost staged: seq<Op>, record: Bytes, len: nat, ghost claim: Claim)
      returns (ok: bool, ghost data: Bytes)
      requires Ready(d, file.disk, root, content) && StorableBatch(staged) && record == BatchRecord(d, staged)
      requires MappedBelow(len) && len == file.Length() && len + |record| <= maxBytes
      requires claim == Claim(Image(file.disk), maxBytes, file.roots, Meaning(content),
                              Meaning(WithBatch(content, staged)))
      modifies file
      ensures data <= record && (ok ==> data == record) && DATA_START <= len
      ensures file.disk == old(file.disk).(pending := old(file.disk).pending + [Write(len, data)])
      ensures Image(file.disk) == claim.keep + data
      ensures Guarded(d, file.disk, root, {content, WithBatch(content, staged)})
      ensures Tidy(d, file.disk) && Reach(file.disk) <= maxBytes
      ensures file.Logged() && old(file.trail) < file.trail && Throughout(d, file.trail, |old(file.trail)|, claim)
      ensures file.roots == old(file.roots) && old(file.clock) <= file.clock
      ensures !ok ==> Fault(file.plan, old(file.clock), file.clock)
    {
      hide Guarded, Survives, Throughout, Upholds, Image, Meaning, BatchRecord, Ready, WithBatch, Patch, StorableBatch,
           MappedBelow, MappedIntact, Tidy;
      ghost var disk, from, cs := file.disk, |file.trail|, {content, WithBatch(content, staged)};
      ghost var written;
      BehindEnd(len, len, len + |record|);
      ok, written := WriteAt(len, record);
      data := record[..written];
      CommitIsGuarded(d, disk, root, content, staged, data);
      ImageStep(disk, Write(len, data));
      TidyReady(d, disk, root, content);
      TidyRecord(d, disk, root, content, staged, data);
      ReadyReach(d, disk, root, content);
      ReachStep(disk, Write(len, data));
      PatchAtEnd(Image(disk), data);
      GuardedUpholds(d, Moment(file.disk, file.roots), root, cs, claim);
      ThroughoutStart(d, old(file.trail), claim);
      ThroughoutMore(d, old(file.trail), from, Moment(file.disk, file.roots), claim);
    }

    /** A sync of guarded writes. */
    method SyncGuarded(ghost cs: set<Content>, ghost claim: Claim, ghost from: nat) returns (ok: bool)
      requires Guarded(d, file.disk, root, cs) && Tidy(d, file.disk) && Reach(file.disk) <= claim.limit
      requires forall c :: c in cs ==> Meaning(c) == claim.a || Meaning(c) == claim.b
      requires claim.keep <= Image(file.disk) && claim.roots == file.roots && Throughout(d, file.trail, from, claim)
      modifies file
      ensures file.disk == Disk(Image(old(file.disk)), []) || (!ok && file.disk == old(file.disk))
      ensures Image(file.disk) == old(Image(file.disk))
      ensures Guarded(d, file.disk, root, cs) && Tidy(d, file.disk) && Reach(file.disk) <= claim.limit
      ensures file.Logged() && old(file.trail) < file.trail && Throughout(d, file.trail, from, claim)
      ensures file.roots == old(file.roots) && old(file.clock) < file.clock
      ensures !ok ==> Fault(file.plan, old(file.clock), file.clock)
    {
      hide Guarded, Survives, Throughout, Upholds, Image, Meaning, Tidy;
      ghost var trail, disk := file.trail, file.disk;
      ok := file.Sync();
      GuardedAfterSync(d, disk, file.disk, root, cs);
      SyncedImage(disk, file.disk);
      TidySynced(d, disk, file.disk);
      ReachSynced(disk, file.disk);
      GuardedUpholds(d, Moment(file.disk, file.roots), root, cs, claim);
      ThroughoutMore(d, trail, from, Moment(file.disk, file.roots), claim);
    }

    /** Appends one batch record and waits for it to be durable; on failure it is cut off again. */
    method Append(ghost staged: seq<Op>, record: Bytes, len: nat, ghost claim: Claim) returns (ok: bool)
      requires Valid() && state == Healthy && StorableBatch(staged) && record == BatchRecord(d, staged)
      requires MappedBelow(len) && len == file.Length() && len + |record| <= maxBytes
      requires claim == Claim(Image(file.disk), maxBytes, file.roots, Meaning(content),
                              Meaning(WithBatch(content, staged)))
      modifies this`state, file
      ensures state == if ok then Healthy else WritePoisoned
      ensures file.Logged() && old(file.trail) < file.trail && Throughout(d, file.trail, |old(file.trail)|, claim)
      ensures file.roots == old(file.roots) && old(file.clock) <= file.clock
      ensures !ok ==> Fault(file.plan, old(file.clock), file.clock)
      ensures !ok && Alone(file.plan, old(file.clock), file.clock) ==> file.disk == Disk(old(Image(file.disk)), [])
      ensures ok ==> file.disk == Disk(old(Image(file.disk)) + record, [])
    {
      hide Guarded, Throughout, Image, Meaning, BatchRecord, Ready, Serves, Settled, WithBatch, StorableBatch,
           MappedBelow, Standing, Told, BackedBy, Tidy, Fault, Alone, Reach;
      ghost var disk, from, cs := file.disk, |file.trail|, {content, WithBatch(content, staged)};
      ghost var data;
      ok, data := WriteRecord(staged, record, len, claim);
      if ok {
        ghost var mid := file.clock;
        ok := SyncGuarded(cs, claim, from);
        FaultLater(file.plan, old(file.clock), mid, file.clock);
      }
      if !ok {
        CutBackIsGuarded(d, disk, root, content, staged, data, file.disk);
        ghost var mid := file.clock;
        RollbackOrPoison(len, cs, claim, from);
        FaultThen(file.plan, old(file.clock), mid, file.clock);
      }
    }

    lemma WholePrefix(a: Bytes, b: Bytes)
      ensures a <= b && |a| == |b| ==> a == b
    {
    }

    lemma BehindEnd(n: nat, lo: nat, hi: nat)
      requires MappedBelow(n) && n <= lo
      ensures Clear(lo, hi)
    {
    }

    /** Publishes a durable batch in memory: into the tail, or through a longer mapping. */
    method InstallBatch(staged: seq<Op>, offsets: seq<nat>) returns (ok: bool)
      requires Serving() && DistinctKeys(staged) && StorableBatch(staged)
      requires offsets == OpOffsets(|LogBytes(d, content.batches)| + Log.HEADER_SIZE + 4, staged)
      requires root.logStart <= file.Length()
      requires Image(file.disk)[root.logStart..] == LogBytes(d, content.batches) + BatchRecord(d, staged)
      modifies overlay, file`clock
      ensures ok ==> Serves(d, root, mapping, WithBatch(content, staged), overlay.index, overlay.memory)
      ensures ok ==>
                var log := LogBytes(d, content.batches) + BatchRecord(d, staged);
                overlay.index.bytes ==
                if |log| >= |Mapping(old(overlay.index))| + 0x10_0000 then Some(log) else old(overlay.index.bytes)
      ensures !ok ==> Serving() && overlay.index == old(overlay.index) && Fault(file.plan, old(file.clock), file.clock)
      ensures old(file.clock) <= file.clock
    {
      hide Segment.Valid, RootOf, BaseBytes, StorableLog, Represents, Charge, ApplyOps, ApplyBatches, LogBytes,
           BatchRecord, StorableBatch, OpOffsets, Predicted, Image, DistinctKeys, WithBatch;
      ghost var log, m := LogBytes(d, content.batches), ApplyBatches(content.batches);
      ghost var grown := log + BatchRecord(d, staged);
      ghost var index, memory := overlay.index, overlay.memory;
      AllPredicted(d, log, staged, offsets);
      var size := file.Length() - root.logStart;
      if overlay.NeedsMapping(size) {
        var mapped := file.Map(root.logStart, size);
        if mapped.None? {
          return false;
        }
        assert mapped.value == grown;
        overlay.InstallMapped(mapped.value, offsets, staged, log, m);
      } else {
        TailValuesSmall(d, index, log, m, staged);
        GrowthRepresents(index, log, m, grown, index.bytes);
        assert index.(bytes := index.bytes) == index;
        overlay.InstallTail(staged, offsets, grown, m);
      }
      ServesBatch(d, root, mapping, content, index, memory, staged, overlay.index, overlay.memory);
      ok := true;
    }

    /** Appends, syncs and publishes a batch that passed every check. */
    method CommitBatch(staged: seq<Op>, record: Bytes, len: nat, ghost claim: Claim) returns (ok: bool)
      requires Valid() && state == Healthy && DistinctKeys(staged)
      requires StorableBatch(staged) && record == BatchRecord(d, staged)
      requires len == file.Length() && len + |record| <= maxBytes
      requires claim == Claim(Image(file.disk), maxBytes, file.roots, Meaning(content),
                              Meaning(WithBatch(content, staged)))
      modifies this`state, this`content, file, overlay
      ensures Valid()
      ensures state == (if ok then Healthy else WritePoisoned)
      ensures !ok ==> Fault(file.plan, old(file.clock), file.clock)
      ensures !ok && Alone(file.plan, old(file.clock), file.clock) ==> file.disk == Disk(old(Image(file.disk)), [])
      ensures content == if ok then WithBatch(old(content), staged) else old(content)
      ensures file.roots == old(file.roots) && file.Logged()
      ensures old(file.trail) < file.trail && old(file.clock) <= file.clock
      ensures Throughout(d, file.trail, |old(file.trail)|, claim)
    {
      hide Ready, Settled, Serves, Holds, Throughout, Meaning, WithBatch, StorableBatch, BatchRecord, LogBytes,
           Image, DistinctKeys, Guarded, OpOffsets, Standing, Told, ViewsBelow, BackedBy;
      ghost var disk := file.disk;
      ReadyParts(d, disk, root, content);
      MappedWithin(d, disk, root, mapping, content, overlay.index, overlay.memory);
      StandingWithin(Image(disk), views);
      ReadyBacked(d, disk, root, mapping, content, overlay.index, overlay.memory);
      var offsets := MappedMutations(staged, len - root.logStart);
      ok := Append(staged, record, len, claim);
      KeptPrefix(d, file.trail, |old(file.trail)|, claim);
      StandingPrefix(claim.keep, Image(file.disk), views);
      if !ok {
        BackedPrefix(claim.keep, Image(file.disk), root, mapping, overlay.index);
        return;
      }
      ReadyWithBatch(d, disk, root, content, staged);
      ok := InstallBatch(staged, offsets);
      if ok {
        content := WithBatch(content, staged);
      } else {
        ghost var mid := file.clock;
        Unpublish(staged, len, disk, claim, |old(file.trail)|);
        if Alone(file.plan, old(file.clock), file.clock) {
          AloneAfter(file.plan, old(file.clock), mid, file.clock);
        }
        KeptPrefix(d, file.trail, |old(file.trail)|, claim);
        StandingPrefix(claim.keep, Image(file.disk), views);
        BackedPrefix(claim.keep, Image(file.disk), root, mapping, overlay.index);
      }
    }

    /** Cuts a durable batch off again when it could not be published. */
    method Unpublish(ghost staged: seq<Op>, len: nat, ghost disk: Disk, ghost claim: Claim, ghost from: nat)
      requires Ready(d, disk, root, content) && StorableBatch(staged) && len == |Image(disk)| && state == Healthy
      requires file.disk == Disk(Image(disk) + BatchRecord(d, staged), []) && len + |BatchRecord(d, staged)| <= maxBytes
      requires claim == Claim(Image(disk), maxBytes, file.roots, Meaning(content), Meaning(WithBatch(content, staged)))
      requires MappedBelow(len) && Throughout(d, file.trail, from, claim)
      modifies this`state, file
      ensures state == WritePoisoned
      ensures Throughout(d, file.trail, from, claim)
      ensures file.Logged() && old(file.trail) < file.trail
      ensures file.roots == old(file.roots) && old(file.clock) <= file.clock
      ensures !Fault(file.plan, old(file.clock), file.clock) ==> file.disk == Disk(Image(disk), [])
    {
      hide Ready, Meaning, WithBatch, StorableBatch, BatchRecord, Image, Guarded, Throughout, MappedBelow, Patch, Tidy;
      ghost var record, cs := BatchRecord(d, staged), {content, WithBatch(content, staged)};
      ghost var written := disk.(pending := disk.pending + [Write(len, record)]);
      ImageStep(disk, Write(len, record));
      PatchAtEnd(Image(disk), record);
      CommitIsGuarded(d, disk, root, content, staged, record);
      GuardedAfterSync(d, written, file.disk, root, cs);
      TidyReady(d, disk, root, content);
      TidyRecord(d, disk, root, content, staged, record);
      TidySynced(d, written, file.disk);
      CutBackIsGuarded(d, disk, root, content, staged, record, file.disk);
      ReachImage(file.disk);
      RollbackOrPoison(len, cs, claim, from);
    }

    /** Commits a batch. The outcome is Ok only once the batch is durable. */
    method Commit(staged: seq<Op>) returns (r: Result)
      requires Valid() && Staged(staged)
      modifies this`state, this`content, file, overlay
      ensures Valid()
      ensures old(state) != Healthy ==> r == Err(Poisoned)
      ensures old(state) == Healthy ==> r == Err(Io) || r == Verdict(staged, old(file.Length()), maxBytes)
      ensures r.Ok? ==>
                state == Healthy && content == if staged == [] then old(content) else WithBatch(old(content), staged)
      ensures r.Err? ==> content == old(content)
      ensures r.Err? && r.error != Io ==>
                state == old(state) && file.disk == old(file.disk) && file.trail == old(file.trail)
      ensures r == Err(Io) ==> state == WritePoisoned && Fault(file.plan, old(file.clock), file.clock)
      ensures r == Err(Io) && Alone(file.plan, old(file.clock), file.clock) ==>
                file.disk == Disk(old(Image(file.disk)), [])
      ensures file.roots == old(file.roots) && old(file.trail) <= file.trail && (old(file.Logged()) ==> file.Logged())
      ensures old(file.clock) <= file.clock
      ensures Throughout(d, file.trail, |old(file.trail)|,
                         Claim(old(Image(file.disk)), maxBytes, old(file.roots), old(Contents()),
                               Meaning(WithBatch(old(content), staged))))
      ensures forall i :: |old(file.trail)| <= i < |file.trail| ==> Standing(Image(file.trail[i].disk), views)
    {
      r := CommitWith(staged, BatchRecord(d, staged));
    }

    /** Commits a batch whose record was encoded by the caller. */
    method CommitWith(staged: seq<Op>, record: Bytes) returns (r: Result)
      requires Valid() && Staged(staged)
      requires |staged| <= MAX_BATCH_OPERATIONS && |Payload(staged)| < U32_LIMIT ==> record == BatchRecord(d, staged)
      modifies this`state, this`content, file, overlay
      ensures Valid()
      ensures old(state) != Healthy ==> r == Err(Poisoned)
      ensures old(state) == Healthy ==> r == Err(Io) || r == Verdict(staged, old(file.Length()), maxBytes)
      ensures r.Ok? ==>
                state == Healthy && content == if staged == [] then old(content) else WithBatch(old(content), staged)
      ensures r.Err? ==> content == old(content)
      ensures r.Err? && r.error != Io ==>
                state == old(state) && file.disk == old(file.disk) && file.trail == old(file.trail)
      ensures r == Err(Io) ==> state == WritePoisoned && Fault(file.plan, old(file.clock), file.clock)
      ensures r == Err(Io) && Alone(file.plan, old(file.clock), file.clock) ==>
                file.disk == Disk(old(Image(file.disk)), [])
      ensures file.roots == old(file.roots) && old(file.trail) <= file.trail && (old(file.Logged()) ==> file.Logged())
      ensures old(file.clock) <= file.clock
      ensures Throughout(d, file.trail, |old(file.trail)|,
                         Claim(old(Image(file.disk)), maxBytes, old(file.roots), old(Contents()),
                               Meaning(WithBatch(old(content), staged))))
      ensures forall i :: |old(file.trail)| <= i < |file.trail| ==> Standing(Image(file.trail[i].disk), views)
    {
      hide Ready, Settled, Serves, Throughout, Meaning, WithBatch, StorableBatch, BatchRecord, Image, Loggable,
           Payload, Standing, Told, BackedBy;
      ghost var claim := Claim(Image(file.disk), maxBytes, file.roots, Meaning(content),
                               Meaning(WithBatch(content, staged)));
      ThroughoutStart(d, file.trail, claim);
      if state != Healthy {
        return Err(Poisoned);
      }
      if staged == [] {
        return Ok;
      }
      var payloadLen := BatchPayloadLen(staged);
      if payloadLen.None? {
        return Err(TooLarge);
      }
      RecordLength(d, staged);
      var len := file.Length();
      if len + Log.HEADER_SIZE + payloadLen.value > maxBytes {
        return Err(DatabaseFull);
      }
      var ok := CommitBatch(staged, record, len, claim);
      ViewsStand(d, file.trail, |old(file.trail)|, claim, views);
      r := if ok then Ok else Err(Io);
    }

    // ----------------------------------------------------------------- reading

    /** A point-in-time view. It is refused only when the handle has lost its mapping. */
    method Snapshot() returns (view: Option<ReadView>)
      requires Valid()
      modifies this`views, this`pasts
      ensures Valid()
      ensures view.None? <==> state == Unavailable
      ensures view.None? ==> views == old(views) && pasts == old(pasts)
      ensures view.Some? ==> views == old(views) + [view.value] && pasts == old(pasts) + [content]
    {
      hide Serves, Ready, Settled, Image, BackedBy, Meaning;
      if state == Unavailable {
        return None;
      }
      if state == Healthy {
        ReadyBacked(d, file.disk, root, mapping, content, overlay.index, overlay.memory);
      }
      ChargeIsExact(d, root, mapping, content, overlay.index, overlay.memory);
      var taken := ReadView(root, mapping, overlay.index);
      views, pasts := views + [taken], pasts + [content];
      view := Some(taken);
    }

    method DropSnapshot(i: nat)
      requires Valid() && i < |views|
      modifies this`views, this`pasts
      ensures Valid()
      ensures views == old(views)[..i] + old(views)[i + 1..] && pasts == old(pasts)[..i] + old(pasts)[i + 1..]
    {
      hide Serves, Ready, Settled, Image, BackedBy;
      views, pasts := views[..i] + views[i + 1..], pasts[..i] + pasts[i + 1..];
    }

    /** A handle that is not Unavailable answers every key with its last acknowledged map. */
    method Get(key: Bytes, onRead: bool, verifier: SegmentVerifier) returns (r: Option<ReadResult>)
      requires Valid() && verifier.dataSize == DataSize(content.base) && verifier.Valid(d, mapping)
      modifies verifier
      ensures state == Unavailable ==> r == None
      ensures state != Unavailable ==> r == Some(Answered(MapGet(Contents(), key)))
    {
      hide Serves, Ready, Settled, Image, BackedBy, Meaning, DataSize;
      if state == Unavailable {
        return None;
      }
      ChargeIsExact(d, root, mapping, content, overlay.index, overlay.memory);
      var answer := ReadKey(d, ReadView(root, mapping, overlay.index), onRead, verifier, key, content);
      r := Some(answer);
    }

    // ------------------------------------------------------------ compaction

    /** One write behind the compact marker. */
    method StagePut(offset: nat, data: Bytes, ghost base: Disk, ghost claim: Claim, ghost from: nat) returns (ok: bool)
      requires StagingOn(d, base, file.disk, root, content, maxBytes) && BehindMarker(d, Image(base), Image(file.disk))
      requires MappedBelow(|Image(base)|) && |Image(base)| + Log.HEADER_SIZE <= offset && offset + |data| <= maxBytes
      requires claim == Claim(Image(base), maxBytes, file.roots, Meaning(content), Meaning(content))
      requires Throughout(d, file.trail, from, claim)
      modifies file
      ensures StagingOn(d, base, file.disk, root, content, maxBytes) && BehindMarker(d, Image(base), Image(file.disk))
      ensures file.roots == old(file.roots) && old(file.clock) < file.clock
      ensures !ok ==> Fault(file.plan, old(file.clock), file.clock)
      ensures file.Logged() && old(file.trail) < file.trail && Throughout(d, file.trail, from, claim)
      ensures ok ==> Image(file.disk) == Patch(old(Image(file.disk)), offset, data)
    {
      hide StagingOn, Image, Meaning, Throughout, BehindMarker, Patch, MappedBelow, MappedIntact;
      ghost var disk := file.disk;
      ghost var written;
      BehindEnd(|Image(base)|, offset, offset + |data|);
      ok, written := WriteAt(offset, data);
      ghost var io := Write(offset, data[..written]);
      StagingStep(d, base, disk, io, root, content, maxBytes);
      ImageStep(disk, io);
      StagingUpholds(d, base, Moment(file.disk, file.roots), root, content, claim);
      ThroughoutMore(d, old(file.trail), from, Moment(file.disk, file.roots), claim);
      assert ok ==> data[..written] == data;
    }

    /** The three writes of a staging Base. */
    method StageWrites(start: nat, w: Written, ghost base: Disk, ghost claim: Claim, ghost from: nat) returns (ok: bool)
      requires StagingOn(d, base, file.disk, root, content, maxBytes) && BehindMarker(d, Image(base), Image(file.disk))
      requires MappedBelow(|Image(base)|) && |Image(base)| + Log.HEADER_SIZE <= start
      requires start + |w.head| + |w.records| + |w.metadata| <= maxBytes
      requires claim == Claim(Image(base), maxBytes, file.roots, Meaning(content), Meaning(content))
      requires Throughout(d, file.trail, from, claim)
      modifies file
      ensures StagingOn(d, base, file.disk, root, content, maxBytes) && BehindMarker(d, Image(base), Image(file.disk))
      ensures file.roots == old(file.roots) && old(file.clock) < file.clock
      ensures !ok ==> Fault(file.plan, old(file.clock), file.clock)
      ensures file.Logged() && old(file.trail) < file.trail && Throughout(d, file.trail, from, claim)
      ensures ok ==> Image(file.disk) == SegmentWritten(old(Image(file.disk)), start, w.head, w.records, w.metadata)
    {
      hide StagingOn, Image, Meaning, Throughout, BehindMarker, Patch, MappedBelow;
      ok := StagePut(start + |w.head|, w.records, base, claim, from);
      if ok {
        ok := StagePut(start, w.head, base, claim, from);
      }
      if ok {
        ok := StagePut(start + |w.head| + |w.records|, w.metadata, base, claim, from);
      }
    }

    /** Closes the current log with a compact marker. */
    method StageMarker(ghost claim: Claim) returns (ok: bool)
      requires Ready(d, file.disk, root, content) && MappedBelow(file.Length())
      requires file.Length() + Log.HEADER_SIZE <= maxBytes
      requires claim == Claim(Image(file.disk), maxBytes, file.roots, Meaning(content), Meaning(content))
      modifies file
      ensures StagingOn(d, old(file.disk), file.disk, root, content, maxBytes)
      ensures file.roots == old(file.roots) && old(file.clock) < file.clock
      ensures !ok ==> Fault(file.plan, old(file.clock), file.clock)
      ensures file.Logged() && old(file.trail) < file.trail && Throughout(d, file.trail, |old(file.trail)|, claim)
      ensures ok ==> Image(file.disk) == old(Image(file.disk)) + CompactMarker(d)
    {
      hide StagingOn, Image, Meaning, Throughout, Patch, Ready, CompactMarker, MappedBelow, MappedIntact;
      ghost var disk, from := file.disk, |file.trail|;
      ThroughoutStart(d, file.trail, claim);
      var len := file.Length();
      var marker := CompactMarker(d);
      ghost var written;
      BehindEnd(len, len, len + |marker|);
      ok, written := WriteAt(len, marker);
      ghost var data := marker[..written];
      MarkerStaged(d, disk, root, content, data, maxBytes);
      ImageStep(disk, Write(len, data));
      PatchAtEnd(Image(disk), data);
      StagingUpholds(d, disk, Moment(file.disk, file.roots), root, content, claim);
      ThroughoutMore(d, old(file.trail), from, Moment(file.disk, file.roots), claim);
      assert ok ==> data == marker;
    }

    /** The marker that closes the current log, and a staging Base behind it. */
    method StageBytes(w: Written, next: Superblock, ghost b: Base, ghost claim: Claim) returns (ok: bool)
      requires Ready(d, file.disk, root, content) && MappedBelow(file.Length())
      requires Pieces(d, b, w, next) && file.Length() + Log.HEADER_SIZE <= next.baseOffset && next.logStart <= maxBytes
      requires claim == Claim(Image(file.disk), maxBytes, file.roots, Meaning(content), Meaning(content))
      modifies file
      ensures file.Logged() && old(file.trail) < file.trail && Throughout(d, file.trail, |old(file.trail)|, claim)
      ensures StagingOn(d, old(file.disk), file.disk, root, content, maxBytes)
      ensures file.roots == old(file.roots) && old(file.clock) < file.clock
      ensures !ok ==> Fault(file.plan, old(file.clock), file.clock)
      ensures ok ==> StagedOn(d, old(Image(file.disk)), Image(file.disk), root, content, next, b)
    {
      hide StagingOn, Holds, Image, Meaning, Throughout, BehindMarker, Ready, CompactMarker, Pieces,
           SegmentWritten, StagedOn, MappedBelow;
      ghost var disk, from, before := file.disk, |file.trail|, Image(file.disk);
      ReadyImage(d, disk, root, content);
      PiecesFacts(d, b, w, next);
      ok := StageMarker(claim);
      if ok {
        MarkerInPlace(d, before);
        ok := StageWrites(next.baseOffset, w, disk, claim, from);
        if ok {
          StagedResult(d, before, root, content, b, w, next, Image(file.disk));
        }
      }
    }

    /** Marker, staging Base and first sync; on any failure the file is cut back and writes stop. */
    method StageBase(w: Written, next: Superblock, ghost b: Base, ghost claim: Claim) returns (ok: bool)
      requires Ready(d, file.disk, root, content) && MappedBelow(file.Length()) && state == Healthy
      requires Pieces(d, b, w, next) && file.Length() + Log.HEADER_SIZE <= next.baseOffset && next.logStart <= maxBytes
      requires claim == Claim(Image(file.disk), maxBytes, file.roots, Meaning(content), Meaning(content))
      modifies this`state, file
      ensures state == if ok then Healthy else WritePoisoned
      ensures file.Logged() && old(file.trail) < file.trail && Throughout(d, file.trail, |old(file.trail)|, claim)
      ensures file.roots == old(file.roots) && old(file.clock) <= file.clock
      ensures !ok ==> Fault(file.plan, old(file.clock), file.clock)
      ensures !ok && Alone(file.plan, old(file.clock), file.clock) ==> file.disk == Disk(old(Image(file.disk)), [])
      ensures ok ==>
                file.disk.pending == [] && StagedOn(d, old(Image(file.disk)), file.disk.durable, root, content, next, b)
    {
      hide StagingOn, Guarded, Image, Meaning, Throughout, Ready, Pieces, StagedOn, Reach, MappedBelow, Tidy;
      ghost var base, from := file.disk, |file.trail|;
      var len := file.Length();
      ok := StageBytes(w, next, b, claim);
      ghost var disk := file.disk;
      if ok {
        ok := SyncStaged(base, claim, from);
      }
      if !ok {
        UnstagingReady(d, base, disk, file.disk, root, content, maxBytes);
        ghost var mid := file.clock;
        RollbackOrPoison(len, {content}, claim, from);
        if Alone(file.plan, old(file.clock), file.clock) {
          AloneAfter(file.plan, old(file.clock), mid, file.clock);
        }
      }
    }

    /** The first sync of a compaction. */
    method SyncStaged(ghost base: Disk, ghost claim: Claim, ghost from: nat) returns (ok: bool)
      requires StagingOn(d, base, file.disk, root, content, maxBytes)
      requires claim == Claim(Image(base), maxBytes, file.roots, Meaning(content), Meaning(content))
      requires Throughout(d, file.trail, from, claim)
      modifies file
      ensures file.Logged() && old(file.trail) < file.trail && Throughout(d, file.trail, from, claim)
      ensures file.disk == Disk(Image(old(file.disk)), []) || (!ok && file.disk == old(file.disk))
      ensures file.roots == old(file.roots) && Image(file.disk) == old(Image(file.disk)) && old(file.clock) < file.clock
      ensures !ok ==> Fault(file.plan, old(file.clock), file.clock)
      ensures ok ==> file.disk.pending == [] && file.disk.durable == Image(file.disk)
    {
      hide StagingOn, Guarded, Image, Meaning, Throughout, Reach, Tidy;
      UnstagingReady(d, base, file.disk, file.disk, root, content, maxBytes);
      ok := SyncGuarded({content}, claim, from);
      if ok {
        DurableImage(file.disk);
      }
    }

    lemma PageIsClear(slot: nat)
      requires slot < 2 && state == Healthy && DATA_START <= root.baseOffset && views == []
      ensures Clear(PageOffset(slot), PageOffset(slot) + PAGE_SIZE)
    {
    }

    /** `superblock::write` and the sync after it: hands the file over to the next root. */
    method PublishRoot(next: Superblock, ghost c': Content, ghost tail: Bytes, ghost tail': Bytes,
                       ghost course: Course, ghost from: nat)
      returns (ok: bool)
      requires file.disk.pending == [] && Holds(d, file.disk.durable, root, content, tail)
      requires Stored(d, file.disk.durable, next, c', tail')
      requires next.generation == root.generation + 1 && Settled(file.roots, root)
      requires DATA_START <= root.baseOffset && state == Healthy && views == []
      requires Meaning(content) == Meaning(c') == course.m && DATA_START <= |file.disk.durable| <= course.limit
      requires AllSteady(d, file.trail, from, course)
      modifies this`state, file
      ensures state == if ok then Healthy else WritePoisoned
      ensures MappedIntact(old(Image(file.disk)), Image(file.disk))
      ensures file.Logged() && old(file.trail) < file.trail
      ensures AllSteady(d, file.trail, from, course) && old(file.clock) < file.clock
      ensures !ok ==> Fault(file.plan, old(file.clock), file.clock)
      ensures ok ==>
                && file.disk.pending == [] && |file.disk.durable| == |old(file.disk).durable|
                && Holds(d, file.disk.durable, next, c', tail')
                && Settled(file.roots, next) && next in file.roots
                && file.disk.durable ==
                   Do(old(file.disk).durable, PageWrite(PageOf(next.generation), EncodePage(d, next)))
    {
      hide Holds, Stored, Meaning, AllSteady, Steady, SurvivesLoss, EncodePage, PageOf, PageWrite, Do, Settled,
           Image, MappedEnd, Clear, MappedBelow, PageOffset;
      ghost var durable, roots := file.disk.durable, file.roots;
      file.roots := file.roots + {next};
      var page := EncodePage(d, next);
      ghost var written;
      PageIsClear(PageOf(next.generation));
      ok, written := WriteAt(PageOffset(PageOf(next.generation)), page);
      assert file.disk == Disk(durable, [Write(PageOffset(PageOf(next.generation)), page[..written])]);
      PublishSteady(d, durable, roots, page[..written], root, content, tail, next, c', tail', course);
      AllSteadyMore(d, old(file.trail), from, Moment(file.disk, file.roots), course);
      if ok {
        assert page[..written] == page;
        ghost var trail, disk := file.trail, file.disk;
        ok := file.Sync();
        SyncedImage(disk, file.disk);
        PublishedParts(d, durable, roots, root, content, tail, next, c', tail');
        SyncSteady(d, disk, file.disk, file.roots, course);
        AllSteadyMore(d, trail, from, Moment(file.disk, file.roots), course);
      }
      if !ok {
        state := WritePoisoned;
      }
    }

    /** `superblock::write_redundant` and its sync: a second copy of the published root. */
    method CopyRoot(active: Superblock, ghost c: Content, ghost tail: Bytes, ghost course: Course, ghost from: nat)
      returns (ok: bool)
      requires file.disk.pending == [] && Holds(d, file.disk.durable, active, c, tail) && Settled(file.roots, active)
      requires active in file.roots
      requires Meaning(c) == course.m && DATA_START <= |file.disk.durable| <= course.limit
      requires DATA_START <= root.baseOffset && state == Healthy && views == []
      requires AllSteady(d, file.trail, from, course)
      modifies this`state, file
      ensures state == if ok then Healthy else WritePoisoned
      ensures MappedIntact(old(Image(file.disk)), Image(file.disk))
      ensures file.roots == old(file.roots) && old(file.clock) < file.clock
      ensures !ok ==> Fault(file.plan, old(file.clock), file.clock)
      ensures file.Logged() && old(file.trail) < file.trail && AllSteady(d, file.trail, from, course)
      ensures ok ==>
                && file.disk.pending == [] && |file.disk.durable| == |old(file.disk).durable|
                && Holds(d, file.disk.durable, active, c, tail) && Doubled(d, file.disk.durable, active)
    {
      hide Holds, Meaning, AllSteady, Steady, SurvivesLoss, EncodePage, PageOf, PageWrite, Do, Settled, Image,
           MappedEnd, Clear, MappedBelow, PageOffset;
      ghost var durable := file.disk.durable;
      var page := EncodePage(d, active);
      ghost var written;
      PageIsClear(1 - PageOf(active.generation));
      ok, written := WriteAt(PageOffset(1 - PageOf(active.generation)), page);
      assert file.disk == Disk(durable, [Write(PageOffset(1 - PageOf(active.generation)), page[..written])]);
      CopySteady(d, durable, file.roots, page[..written], active, c, tail, course);
      AllSteadyMore(d, old(file.trail), from, Moment(file.disk, file.roots), course);
      if ok {
        assert page[..written] == page;
        ghost var trail, disk := file.trail, file.disk;
        ok := file.Sync();
        SyncedImage(disk, file.disk);
        CopiedParts(d, durable, file.roots, active, c, tail);
        SyncSteady(d, disk, file.disk, file.roots, course);
        AllSteadyMore(d, trail, from, Moment(file.disk, file.roots), course);
      }
      if !ok {
        state := WritePoisoned;
      }
    }

    /** One write into the space before the active staging Base. */
    method RelocatePut(offset: nat, data: Bytes, ghost course: Course, ghost from: nat) returns (ok: bool)
      requires Ready(d, file.disk, root, content) && Meaning(content) == course.m
      requires file.Length() <= course.limit && views == []
      requires DATA_START <= offset && offset + |data| <= root.baseOffset
      requires AllSteady(d, file.trail, from, course)
      modifies file
      ensures Ready(d, file.disk, root, content) && file.Length() == old(file.Length())
      ensures file.roots == old(file.roots) && old(file.clock) < file.clock
      ensures !ok ==> Fault(file.plan, old(file.clock), file.clock)
      ensures file.Logged() && old(file.trail) < file.trail && AllSteady(d, file.trail, from, course)
      ensures ok ==> Image(file.disk) == Patch(old(Image(file.disk)), offset, data)
    {
      hide Ready, Meaning, Image, AllSteady, Steady, SurvivesLoss, Patch, Holds, MappedIntact;
      ghost var disk := file.disk;
      ghost var written;
      ok, written := WriteAt(offset, data);
      ghost var io := Write(offset, data[..written]);
      ReadyWithInert(d, disk, io, root, content);
      ImageStep(disk, io);
      ReadySteady(d, Moment(file.disk, file.roots), root, content, course);
      AllSteadyMore(d, old(file.trail), from, Moment(file.disk, file.roots), course);
      assert ok ==> data[..written] == data;
    }

    /** The relocated Base, a marker closing it, and the sync that makes both durable. */
    method Relocate(w: Written, next: Superblock, ghost b: Base, ghost course: Course, ghost from: nat)
      returns (ok: bool)
      requires Ready(d, file.disk, root, content) && Meaning(content) == course.m
      requires file.Length() <= course.limit && views == []
      requires Pieces(d, b, w, next) && next.baseOffset == DATA_START
      requires next.logStart + Log.HEADER_SIZE <= root.baseOffset
      requires AllSteady(d, file.trail, from, course)
      modifies file
      ensures Ready(d, file.disk, root, content) && file.Length() == old(file.Length())
      ensures file.roots == old(file.roots) && old(file.clock) < file.clock
      ensures !ok ==> Fault(file.plan, old(file.clock), file.clock)
      ensures file.Logged() && old(file.trail) < file.trail && AllSteady(d, file.trail, from, course)
      ensures ok ==> file.disk.pending == [] && RelocatedOn(d, file.disk.durable, root, content, next, b)
    {
      hide Ready, Meaning, Image, AllSteady, Steady, SurvivesLoss, Patch, Holds, Pieces, RelocatedOn, CompactMarker;
      ghost var image := Image(file.disk);
      PiecesFacts(d, b, w, next);
      RootBelowEnd(d, file.disk, root, content);
      var size := |w.head| + |w.records| + |w.metadata|;
      ok := RelocatePut(DATA_START + |w.head|, w.records, course, from);
      if ok {
        ok := RelocatePut(DATA_START, w.head, course, from);
      }
      if ok {
        ok := RelocatePut(DATA_START + |w.head| + |w.records|, w.metadata, course, from);
      }
      if ok {
        ok := RelocatePut(DATA_START + size, CompactMarker(d), course, from);
      }
      if ok {
        RelocatedResult(d, image, file.disk, root, content, b, w, next);
        ghost var trail, disk := file.trail, file.disk;
        ok := file.Sync();
        ReadyAfterSync(d, disk, file.disk, root, content);
        ReadySteady(d, Moment(file.disk, file.roots), root, content, course);
        AllSteadyMore(d, trail, from, Moment(file.disk, file.roots), course);
      }
    }

    /** Cuts off the staging Base once the relocated one is published in both pages. */
    method Shrink(active: Superblock, ghost b: Base, ghost tail: Bytes, ghost course: Course, ghost from: nat)
      returns (ok: bool)
      requires file.disk.pending == [] && Holds(d, file.disk.durable, active, Content(b, []), tail)
      requires Meaning(Content(b, [])) == course.m
      requires |file.disk.durable| <= course.limit && state == Unavailable && views == []
      requires AllSteady(d, file.trail, from, course)
      modifies file
      ensures file.roots == old(file.roots) && old(file.clock) < file.clock
      ensures !ok ==> Fault(file.plan, old(file.clock), file.clock)
      ensures file.Logged() && old(file.trail) < file.trail && AllSteady(d, file.trail, from, course)
      ensures ok ==> Ready(d, file.disk, active, Content(b, [])) && file.Length() == active.logStart <= course.limit
      ensures ok ==> file.disk.pending == [] && DATA_START <= active.logStart <= |old(file.disk.durable)|
      ensures ok ==> file.disk.durable == old(file.disk.durable)[..active.logStart]
    {
      hide Meaning, Image, AllSteady, Steady, SurvivesLoss, Holds, CompactMarker, Resize, Ready, LogBytes,
           MappedEnd, MappedIntact, Reach;
      ghost var disk := file.disk;
      NoLog(d);
      HeldBounds(d, disk.durable, active, Content(b, []), tail);
      ShrinkSteady(d, disk.durable, file.roots, active, Content(b, []), tail, active.logStart, course);
      ok := CutTo(active.logStart);
      assert disk.pending + [SetLen(active.logStart)] == [SetLen(active.logStart)];
      AllSteadyMore(d, old(file.trail), from, Moment(file.disk, file.roots), course);
      if ok {
        ghost var trail, disk' := file.trail, file.disk;
        ok := file.Sync();
        IdleIsGenuine(d, disk', Image(disk'), file.roots);
        SyncSteady(d, disk', file.disk, file.roots, course);
        AllSteadyMore(d, trail, from, Moment(file.disk, file.roots), course);
      }
    }

    /** Builds the Base for a compaction and the root it will be published under. */
    method PrepareBase(start: nat, entries: seq<Entry>, generation: U64)
      returns (w: Written, sb: Superblock, ghost b: Base)
      requires Distinct(entries) && Buildable(start, entries)
      ensures Pieces(d, b, w, sb) && b.entries == entries
      ensures sb.generation == generation && sb.baseOffset == start && sb.baseSize == EntriesSize(entries)
      ensures sb.logStart == start + EntriesSize(entries)
    {
      hide Segment.Valid, Head, RecordsBytes, Metadata, Data, RootOf, Storable, Distinct, SlotCount, SegmentSize,
           Size, DataSize, RecordsStart;
      var built;
      built, b := BuildBase(d, start, |entries|, entries);
      w := built.value;
      BuiltRoot(d, generation, b, w);
      var size := |w.head| + |w.records| + |w.metadata|;
      sb := Superblock(generation, start, size, w.slots, |entries|, start + size, w.checksum);
    }

    /** The entries of a handle whose Overlay is empty are those of its Base. */
    method BaseEntries() returns (entries: seq<Entry>)
      requires Serving() && content.batches == [] && overlay.index == NOTHING
      ensures entries == content.base.entries && Distinct(entries)
      ensures Segment.Valid(d, content.base) && root.baseSize == Size(content.base)
    {
      hide Segment.Valid, BaseBytes, DataSize, Size, Represents, AsMap, Overlaid, Serves;
      ServingParts(d, root, mapping, content, overlay.index, overlay.memory);
      EmptyContent(d, content);
      var collected := CollectEntries(d, mapping, root.baseSlots, root.baseLen, DataLength(d, mapping).value, true,
                                      overlay.index, content.base, LogBytes(d, content.batches),
                                      ApplyBatches(content.batches));
      entries := collected.value;
    }

    /** Publishes the relocated Base in both pages. The handle still reads from the staging Base. */
    method PublishTwice(next: Superblock, ghost b: Base, ghost tail: Bytes, ghost course: Course, ghost from: nat)
      returns (ok: bool)
      requires state == Healthy && Serving() && Settled(file.roots, root)
      requires file.disk.pending == [] && views == [] && pasts == []
      requires next.generation == root.generation + 1 && RelocatedOn(d, file.disk.durable, root, content, next, b)
      requires tail == file.disk.durable[next.logStart..] && |file.disk.durable| <= course.limit
      requires Meaning(content) == Meaning(Content(b, [])) == course.m && AllSteady(d, file.trail, from, course)
      modifies this`state, file
      ensures old(file.trail) <= file.trail && file.Logged() && old(file.clock) < file.clock
      ensures AllSteady(d, file.trail, from, course)
      ensures !ok ==> Valid() && state == WritePoisoned && Fault(file.plan, old(file.clock), file.clock)
      ensures ok ==> state == Healthy && file.disk.pending == [] && |file.disk.durable| <= course.limit
      ensures ok ==> Holds(d, file.disk.durable, next, Content(b, []), tail) && Settled(file.roots, next)
      ensures ok ==> Doubled(d, file.disk.durable, next)
    {
      hide Ready, Settled, Serves, Meaning, Image, AllSteady, Holds, Stored, PageOf, EncodePage, Do, PageWrite,
           BackedBy, Standing, Told;
      NothingStands(d, file.disk);
      RelocatedBounds(d, file.disk.durable, root, content, next, b);
      RelocatedBacked(d, file.disk, root, mapping, content, overlay.index, overlay.memory, next, b);
      ghost var image := Image(file.disk);
      ok := PublishRoot(next, Content(b, []), [], tail, course, from);
      BackedIntact(image, Image(file.disk), root, mapping, overlay.index, MappedEnd());
      if !ok {
        return;
      }
      image := Image(file.disk);
      ok := CopyRoot(next, Content(b, []), tail, course, from);
      BackedIntact(image, Image(file.disk), root, mapping, overlay.index, MappedEnd());
    }

    /** Publishes the relocated Base in both pages, then cuts the file behind it. */
    method PublishRelocated(next: Superblock, ghost b: Base, ghost course: Course, ghost from: nat) returns (r: Result)
      requires state == Healthy && Serving() && Settled(file.roots, root)
      requires file.disk.pending == [] && views == [] && pasts == []
      requires next.generation == root.generation + 1 && next.baseOffset == DATA_START
      requires RelocatedOn(d, file.disk.durable, root, content, next, b) && |file.disk.durable| <= course.limit
      requires Meaning(content) == Meaning(Content(b, [])) == course.m
      requires overlay.index == NOTHING && overlay.memory == 0
      requires maxBytes == course.limit && AllSteady(d, file.trail, from, course)
      modifies this`state, this`root, this`mapping, this`content, file
      ensures Valid()
      ensures Meaning(content) == course.m
      ensures old(file.trail) <= file.trail && (old(file.Logged()) ==> file.Logged()) && old(file.clock) <= file.clock
      ensures AllSteady(d, file.trail, from, course)
      ensures r.Ok? ==> state == Healthy && root.baseOffset == DATA_START && file.Length() == root.logStart
      ensures r.Ok? ==> root.generation == old(root).generation + 1 && Doubled(d, file.disk.durable, root)
      ensures r.Ok? || (r == Err(Io) && Fault(file.plan, old(file.clock), file.clock))
    {
      hide Ready, Settled, Serves, Meaning, Image, AllSteady, Holds, RelocatedOn, BackedBy, Standing, Told, Doubled;
      RelocatedTail(d, file.disk.durable, root, content, next, b);
      NothingStands(d, file.disk);
      r := Err(Io);
      ghost var tail := file.disk.durable[next.logStart..];
      var ok := PublishTwice(next, b, tail, course, from);
      if !ok {
        return;
      }
      state := Unavailable;
      mapping := [];
      ghost var published := file.disk.durable;
      ok := Shrink(next, b, tail, course, from);
      if ok {
        DoubledCut(d, published, next, next.logStart);
        ok := Adopt(next, b);
      }
      if ok {
        state := Healthy;
        r := Ok;
      }
    }

    /** `install_superblock`: maps the Base of a published root and reads from it. */
    method Adopt(next: Superblock, ghost b: Base) returns (ok: bool)
      requires Ready(d, file.disk, next, Content(b, [])) && overlay.index == NOTHING && overlay.memory == 0
      modifies this`root, this`mapping, this`content, file`clock
      ensures old(file.clock) < file.clock
      ensures !ok ==>
                Fault(file.plan, old(file.clock), file.clock) && content == old(content) && root == old(root) &&
                mapping == old(mapping)
      ensures ok ==> root == next && content == Content(b, []) && Serving()
    {
      hide Ready, Serves, Image, Segment.Valid, BaseBytes, RootOf;
      MappedBase(d, file.disk, next, Content(b, []));
      var mapped := file.Map(next.baseOffset, next.baseSize);
      ok := mapped.Some?;
      if ok {
        root, mapping, content := next, mapped.value, Content(b, []);
        ServesFresh(d, next, mapping, b);
      }
    }

    /** Second half of a compaction: from the published staging Base to the relocated one. */
    method FinishCompaction(ghost course: Course, ghost from: nat) returns (r: Result)
      requires Valid() && state == Healthy && content.batches == [] && overlay.index == NOTHING && overlay.memory == 0
      requires views == [] && pasts == []
      requires root.generation + 1 < U64_LIMIT && DATA_START + root.baseSize + Log.HEADER_SIZE <= root.baseOffset
      requires Meaning(content) == course.m && maxBytes == course.limit
      requires AllSteady(d, file.trail, from, course)
      modifies this`state, this`root, this`mapping, this`content, file
      ensures Valid()
      ensures Meaning(content) == course.m
      ensures old(file.trail) <= file.trail && (old(file.Logged()) ==> file.Logged()) && old(file.clock) <= file.clock
      ensures AllSteady(d, file.trail, from, course)
      ensures r.Ok? ==> state == Healthy && root.baseOffset == DATA_START && file.Length() == root.logStart
      ensures r.Ok? ==> root.generation == old(root).generation + 1 && Doubled(d, file.disk.durable, root)
      ensures r.Ok? || (r == Err(Io) && Fault(file.plan, old(file.clock), file.clock))
    {
      hide Ready, Settled, Serves, Meaning, Image, AllSteady, Segment.Valid, Head, RecordsBytes, Metadata, Data,
           Size, CompactMarker, RootOf, Distinct, Buildable, EntriesSize, RelocatedOn;
      var detached := file.Allocate();
      if !detached {
        return Err(Io);
      }
      var entries := BaseEntries();
      Rebuildable(d, content.base, DATA_START);
      var w, next, b := PrepareBase(DATA_START, entries, root.generation + 1);
      var ok := Relocate(w, next, b, course, from);
      if !ok {
        return Err(Io);
      }
      DurableImage(file.disk);
      SameMeaning(d, content, b);
      r := PublishRelocated(next, b, course, from);
    }

    /** The live entries, in the order iteration yields them. */
    method LiveEntries() returns (entries: seq<Entry>)
      requires Serving()
      ensures Distinct(entries) && AsMap(entries) == Meaning(content)
      ensures forall i :: 0 <= i < |entries| ==> Storable(entries[i])
    {
      hide Segment.Valid, BaseBytes, DataSize, Size, Represents, AsMap, Overlaid, Serves, LogBytes, ApplyBatches,
           StorableLog, Distinct, Storable;
      ServingParts(d, root, mapping, content, overlay.index, overlay.memory);
      var collected := CollectEntries(d, mapping, root.baseSlots, root.baseLen, DataLength(d, mapping).value, true,
                                      overlay.index, content.base, LogBytes(d, content.batches),
                                      ApplyBatches(content.batches));
      entries := collected.value;
      LiveStorable(d, content, entries);
    }

    /** Hands the file over to the staged Base. The handle still reads from the old one. */
    method PublishStaged(next: Superblock, ghost before: Bytes, ghost b: Base, ghost course: Course, ghost from: nat)
      returns (ok: bool)
      requires state == Healthy && Serving() && Settled(file.roots, root)
      requires file.disk.pending == [] && views == [] && pasts == []
      requires StagedOn(d, before, file.disk.durable, root, content, next, b)
      requires BackedBy(Image(file.disk), root, mapping, overlay.index)
      requires root.baseOffset <= root.logStart && DATA_START <= root.baseOffset
      requires next.logStart <= maxBytes == course.limit
      requires next.generation == root.generation + 1 && MappedEnd() <= |before|
      requires Meaning(content) == Meaning(Content(b, [])) == course.m && AllSteady(d, file.trail, from, course)
      modifies this`state, file
      ensures old(file.trail) < file.trail && file.Logged() && old(file.clock) < file.clock
      ensures AllSteady(d, file.trail, from, course)
      ensures BackedBy(Image(file.disk), root, mapping, overlay.index)
      ensures state == if ok then Healthy else WritePoisoned
      ensures !ok ==> Fault(file.plan, old(file.clock), file.clock)
      ensures ok ==> Ready(d, file.disk, next, Content(b, [])) && Settled(file.roots, next) && file.Length() <= maxBytes
    {
      hide Ready, Settled, Serves, Meaning, Image, AllSteady, Holds, Stored, StagedOn, PageOf, EncodePage, Do,
           PageWrite, BackedBy;
      StagedBounds(d, before, file.disk.durable, root, content, next, b);
      DurableImage(file.disk);
      ghost var staged := Image(file.disk);
      ok := PublishRoot(next, Content(b, []), file.disk.durable[|before|..], [], course, from);
      BackedIntact(staged, Image(file.disk), root, mapping, overlay.index, MappedEnd());
      if ok {
        ReadyWhenHeld(d, file.disk, next, Content(b, []));
      }
    }

    /** First half of a compaction: stages a Base behind a marker, publishes it and moves over to it. */
    method MoveToStaging(source: nat, entries: seq<Entry>, ghost course: Course) returns (ok: bool)
      requires Valid() && state == Healthy && views == [] && pasts == []
      requires Distinct(entries) && Buildable(source, entries) && AsMap(entries) == Meaning(content)
      requires root.generation + 1 < U64_LIMIT && DATA_START <= source
      requires file.Length() + Log.HEADER_SIZE <= source && source + EntriesSize(entries) <= maxBytes
      requires course == Course(file.roots, maxBytes, Meaning(content))
      modifies this`state, this`root, this`mapping, this`content, file, overlay
      ensures Valid()
      ensures Meaning(content) == course.m
      ensures old(file.trail) <= file.trail && (old(file.Logged()) ==> file.Logged()) && old(file.clock) <= file.clock
      ensures AllSteady(d, file.trail, |old(file.trail)|, course)
      ensures !ok ==> state == WritePoisoned && Fault(file.plan, old(file.clock), file.clock)
      ensures ok ==>
                && state == Healthy && content.batches == [] && overlay.index == NOTHING && overlay.memory == 0
                && root.generation == old(root).generation + 1
                && root.baseOffset == source && root.baseSize == EntriesSize(entries)
    {
      hide Ready, Settled, Serves, Meaning, Image, AllSteady, Throughout, Holds, StagedOn, Pieces, Segment.Valid,
           BaseBytes, RootOf, Distinct, Buildable, EntriesSize, AsMap, BackedBy, Standing, Told, ViewsBelow;
      NothingStands(d, file.disk);
      ghost var from, before := |file.trail|, Image(file.disk);
      ghost var claim := Claim(Image(file.disk), maxBytes, file.roots, Meaning(content), Meaning(content));
      MappedWithin(d, file.disk, root, mapping, content, overlay.index, overlay.memory);
      StandingWithin(Image(file.disk), views);
      ReadyBacked(d, file.disk, root, mapping, content, overlay.index, overlay.memory);
      var w, next, b := PrepareBase(source, entries, root.generation + 1);
      ok := StageBase(w, next, b, claim);
      SteadyFromThroughout(d, file.trail, from, claim);
      KeptPrefix(d, file.trail, from, claim);
      BackedPrefix(before, Image(file.disk), root, mapping, overlay.index);
      if !ok {
        return;
      }
      ContentOfBase(d, content, b);
      ok := PublishStaged(next, before, b, course, from);
      if !ok {
        return;
      }
      ok := MoveOver(next, b);
    }

    /** Reads from the staged Base from now on, unless it cannot be mapped. */
    method MoveOver(next: Superblock, ghost b: Base) returns (ok: bool)
      requires state == Healthy && Serving() && views == [] && pasts == []
      requires BackedBy(Image(file.disk), root, mapping, overlay.index)
      requires Ready(d, file.disk, next, Content(b, [])) && Settled(file.roots, next) && file.Length() <= maxBytes
      requires Meaning(content) == Meaning(Content(b, []))
      modifies this`state, this`root, this`mapping, this`content, file`clock, overlay
      ensures Valid() && Meaning(content) == old(Meaning(content)) && old(file.clock) < file.clock
      ensures !ok ==> state == WritePoisoned && Fault(file.plan, old(file.clock), file.clock)
      ensures ok ==>
                state == Healthy && content == Content(b, []) && root == next && overlay.index == NOTHING &&
                overlay.memory == 0
    {
      hide Ready, Settled, Serves, Meaning, Image, Segment.Valid, BaseBytes, RootOf, BackedBy, Standing, Told;
      NothingStands(d, file.disk);
      MappedBase(d, file.disk, next, Content(b, []));
      var mapped := file.Map(next.baseOffset, next.baseSize);
      ok := mapped.Some?;
      if ok {
        root, mapping, content := next, mapped.value, Content(b, []);
        overlay.Clear();
        ServesFresh(d, next, mapping, b);
      } else {
        state := WritePoisoned;
      }
    }

    /**
     * Rebuilds all live entries and shrinks the file. A compaction never changes the map: not when
     * it succeeds, not when it fails at any step, and not when a crash interrupts it anywhere.
     */
    method Compact() returns (r: Result)
      requires Valid() && root.generation + 2 < U64_LIMIT
      modifies this`state, this`root, this`mapping, this`content, file, overlay
      ensures Valid()
      ensures Contents() == old(Contents())
      ensures old(state) != Healthy ==> r == Err(Poisoned)
      ensures old(state) == Healthy && views != [] ==> r == Err(SnapshotsLive)
      ensures old(state) == Healthy && views == [] ==>
                var length := old(file.Length());
                || r == Err(Io)
                || r == CompactVerdict(old(Contents()), AlreadyCompact(old(root), length), length, maxBytes)
      ensures old(state) == Healthy && views == [] && r != Err(Io) ==>
                var length := old(file.Length());
                r.Ok? <==>
                  || (old(root).baseOffset == DATA_START && length == old(root).logStart)
                  || (MapSize(Contents()).Some? && RoomFor(MapSize(Contents()).value, length, maxBytes))
      ensures r.Err? && r.error != Io ==>
                && file.disk == old(file.disk) && file.trail == old(file.trail)
                && state == old(state) && content == old(content)
      ensures r == Err(Io) ==> Fault(file.plan, old(file.clock), file.clock)
      ensures r.Err? && r.error != Io ==> root == old(root)
      ensures r.Ok? ==> state == Healthy && root.baseOffset == DATA_START && file.Length() == root.logStart
      ensures r.Ok? ==> MapSize(Contents()).Some? && file.Length() == DATA_START + MapSize(Contents()).value
      ensures r.Ok? ==>
                root.generation ==
                old(root).generation + if AlreadyCompact(old(root), old(file.Length())) then 0 else 2
      ensures r.Ok? && !AlreadyCompact(old(root), old(file.Length())) ==> Doubled(d, file.disk.durable, root)
      ensures old(file.trail) <= file.trail && (old(file.Logged()) ==> file.Logged()) && old(file.clock) <= file.clock
      ensures AllSteady(d, file.trail, |old(file.trail)|, Course(old(file.roots), maxBytes, old(Contents())))
      ensures forall i :: |old(file.trail)| <= i < |file.trail| ==> Standing(Image(file.trail[i].disk), views)
    {
      hide Ready, Settled, Serves, Meaning, Image, AllSteady, Distinct, AsMap, EntriesSize, Buildable, SlotCount,
           SegmentSize, RecordsBytes, RecordsStart, Storable, MapSize, BackedBy;
      ghost var course := Course(file.roots, maxBytes, Meaning(content));
      ghost var from := |file.trail|;
      SteadyStart(d, file.trail, course);
      if state != Healthy {
        return Err(Poisoned);
      }
      if views != [] {
        return Err(SnapshotsLive);
      }
      var len := file.Length();
      EmptyWhenShort(d, file.disk, root, mapping, content, overlay.index, overlay.memory);
      var empty := overlay.index.table == map[] && overlay.index.tail == map[];
      if root.baseOffset == DATA_START && empty && len == root.logStart {
        CompactLength(d, file.disk, root, mapping, content, overlay.index, overlay.memory);
        return Ok;
      }
      var entries := LiveEntries();
      MapSizeOf(entries);
      var measured := MeasureBase(entries);
      MeasuredAs(entries, measured);
      if measured.None? {
        return Err(TooLarge);
      }
      var size := measured.value.1;
      var source := SourceOffset(len, size);
      SourceIsLeast(len, size);
      if source + size >= U64_LIMIT {
        return Err(TooLarge);
      }
      if source + size > maxBytes {
        return Err(DatabaseFull);
      }
      MeasuredFits(entries, size, source);
      var ok := MoveToStaging(source, entries, course);
      if !ok {
        return Err(Io);
      }
      r := FinishCompaction(course, from);
      if r.Ok? {
        CompactLength(d, file.disk, root, mapping, content, overlay.index, overlay.memory);
      }
    }
  }

  lemma LengthOf(d: Digests, disk: Disk, sb: Superblock, c: Content)
    requires Ready(d, disk, sb, c)
    ensures |Image(disk)| == sb.logStart + |LogBytes(d, c.batches)|
  {
    hide *;
    ReadyParts(d, disk, sb, c);
  }

  lemma SlotsKnown(d: Digests, b: Base)
    requires Segment.Valid(d, b)
    ensures SlotCount(|b.entries|).Some? && 0 + Size(b) < U64_LIMIT
  {
    hide Indexed, Size, SlotCount;
  }

  /** A file that ends where its log starts holds a Base of exactly its map. */
  lemma CompactLength(d: Digests, disk: Disk, sb: Superblock, mapping: Bytes, c: Content, index: OverlayMap,
                      memory: nat)
    requires Serves(d, sb, mapping, c, index, memory) && Ready(d, disk, sb, c)
    requires |Image(disk)| == sb.logStart && sb.baseOffset == DATA_START
    ensures AsMap(c.base.entries) == Meaning(c) && Distinct(c.base.entries) && SlotCount(|c.base.entries|).Some?
    ensures |Image(disk)| == DATA_START + EntriesSize(c.base.entries)
    ensures MapSize(Meaning(c)) == Some(EntriesSize(c.base.entries))
  {
    hide *;
    ServingParts(d, sb, mapping, c, index, memory);
    LengthOf(d, disk, sb, c);
    EmptyLogMeansNone(d, c.batches);
    EmptyContent(d, c);
    BaseFacts(d, c.base);
    SlotsKnown(d, c.base);
    Rebuildable(d, c.base, 0);
    MapSizeOf(c.base.entries);
  }

  lemma EmptyLogMeansNone(d: Digests, batches: seq<seq<Op>>)
    requires LogBytes(d, batches) == []
    ensures batches == []
  {
  }

  /** A file that ends where its log starts has nothing in its Overlay. */
  lemma EmptyWhenShort(d: Digests, disk: Disk, sb: Superblock, mapping: Bytes, c: Content, index: OverlayMap,
                       memory: nat)
    requires Serves(d, sb, mapping, c, index, memory) && Ready(d, disk, sb, c)
    ensures |Image(disk)| == sb.logStart ==> index.table == map[] && index.tail == map[]
  {
    hide *;
    if |Image(disk)| == sb.logStart {
      ServingParts(d, sb, mapping, c, index, memory);
      LengthOf(d, disk, sb, c);
      EmptyLogMeansNone(d, c.batches);
      EmptyContent(d, c);
      EmptyIndex(index, LogBytes(d, c.batches), ApplyBatches(c.batches));
    }
  }

  lemma EmptyIndex(o: OverlayMap, log: Bytes, m: Changes)
    requires Represents(o, log, m) && m == map[]
    ensures o.table == map[] && o.tail == map[]
  {
    hide TableFits, TailFits;
    assert o.table.Keys == {} && o.tail.Keys == {};
  }

  lemma ChargeIsExact(d: Digests, sb: Superblock, mapping: Bytes, c: Content, index: OverlayMap, memory: nat)
    requires Serves(d, sb, mapping, c, index, memory)
    ensures memory == Charge(ApplyBatches(c.batches))
  {
    hide Segment.Valid, RootOf, BaseBytes, StorableLog, Represents, Charge, ApplyBatches;
  }

  lemma ThroughoutStart(d: Digests, trail: seq<Moment>, claim: Claim)
    ensures Throughout(d, trail, |trail|, claim)
  {
  }

  lemma ResizeKeeps(image: Bytes, len: nat, keep: Bytes)
    requires keep <= image && |keep| <= len <= |image|
    ensures keep <= Resize(image, len) && |Resize(image, len)| == len
  {
  }

  lemma RecordLength(d: Digests, ops: seq<Op>)
    requires Staged(ops) && |ops| <= MAX_BATCH_OPERATIONS && |Payload(ops)| < U32_LIMIT
    ensures StorableBatch(ops) && |BatchRecord(d, ops)| == Log.HEADER_SIZE + |Payload(ops)|
  {
  }

  lemma AllPredicted(d: Digests, log: Bytes, ops: seq<Op>, offsets: seq<nat>)
    requires StorableBatch(ops) && offsets == OpOffsets(|log| + Log.HEADER_SIZE + 4, ops)
    ensures Predicted(log + BatchRecord(d, ops), ops, offsets)
  {
    hide StorableBatch, BatchRecord, OpOffsets, SlicesAt;
    forall i | 0 <= i < |ops|
      ensures SlicesAt(log + BatchRecord(d, ops), offsets[i]) == Some(ops[i])
    {
      PredictedOffsetsDecode(d, log, ops, i);
    }
  }

  /** A batch that stays in the tail carries only values below the mapping threshold. */
  lemma TailValuesSmall(d: Digests, o: OverlayMap, log: Bytes, m: Changes, ops: seq<Op>)
    requires Represents(o, log, m)
    requires |log| + |BatchRecord(d, ops)| < |Mapping(o)| + OVERLAY_MAPPING_THRESHOLD
    ensures forall i :: 0 <= i < |ops| ==> |Carried(ops[i])| < MAPPED_VALUE_THRESHOLD
  {
    hide BatchRecord, SlicesAt;
    forall i | 0 <= i < |ops|
      ensures |Carried(ops[i])| < MAPPED_VALUE_THRESHOLD
    {
      CarriedBound(d, ops, i);
    }
  }

  lemma CarriedBound(d: Digests, ops: seq<Op>, i: nat)
    requires i < |ops|
    ensures |Carried(ops[i])| <= |BatchRecord(d, ops)|
  {
    OpsBytesAt(ops, i);
    BatchRecordBound(d, ops);
    hide OpsBytes, BatchRecord;
  }

  lemma ReadyParts(d: Digests, disk: Disk, sb: Superblock, c: Content)
    requires Ready(d, disk, sb, c)
    ensures Holds(d, Image(disk), sb, c, [])
    ensures sb.logStart <= |Image(disk)| && Image(disk)[sb.logStart..] == LogBytes(d, c.batches)
    ensures |Image(disk)| == sb.logStart + |LogBytes(d, c.batches)|
  {
    hide *;
    ReadyImage(d, disk, sb, c);
    HeldParts(d, Image(disk), sb, c, []);
    assert LogBytes(d, c.batches) + [] == LogBytes(d, c.batches);
  }

  lemma MarkerInPlace(d: Digests, before: Bytes)
    ensures BehindMarker(d, before, before + CompactMarker(d))
  {
  }

  lemma MarkerPrefix(d: Digests, before: Bytes, image: Bytes)
    requires BehindMarker(d, before, image)
    ensures before <= image
  {
  }

  /** `disk` is a ready `base` plus staging: ordered crashes keep the content, and nothing is too long. */
  ghost predicate StagingOn(d: Digests, base: Disk, disk: Disk, sb: Superblock, c: Content, limit: nat) {
    && Ready(d, base, sb, c) && Staging(d, base, disk) && Idle(disk)
    && Safe(d, disk, sb, {c}) && Image(base) <= Image(disk) && Reach(disk) <= limit
  }

  lemma StagingStep(d: Digests, base: Disk, disk: Disk, io: Io, sb: Superblock, c: Content, limit: nat)
    requires StagingOn(d, base, disk, sb, c, limit) && BehindMarker(d, Image(base), Image(disk))
    requires io.Write? && |Image(base)| + Log.HEADER_SIZE <= io.offset && io.offset + |io.data| <= limit
    ensures StagingOn(d, base, disk.(pending := disk.pending + [io]), sb, c, limit)
    ensures BehindMarker(d, Image(base), Image(disk.(pending := disk.pending + [io])))
  {
    hide Ready, Staging, Safe, Image, BehindMarker, Holds, CompactMarker, Idle;
    ReadyImage(d, base, sb, c);
    ReadyIdle(d, base, sb, c);
    IdleStep(disk, io);
    StagingMore(d, base, disk, io);
    StagingIsSafe(d, disk, io, Image(base), sb, c);
    ImageStep(disk, io);
    ReachStep(disk, io);
    MarkerPrefix(d, Image(base), Image(disk.(pending := disk.pending + [io])));
  }

  lemma MarkerStaged(d: Digests, disk: Disk, sb: Superblock, c: Content, data: Bytes, limit: nat)
    requires Ready(d, disk, sb, c) && data <= CompactMarker(d) && |Image(disk)| + |data| <= limit
    ensures StagingOn(d, disk, disk.(pending := disk.pending + [Write(|Image(disk)|, data)]), sb, c, limit)
  {
    hide Ready, Safe, Image, CompactMarker, Patch, Reach, Idle;
    var io := Write(|Image(disk)|, data);
    ReadyIdle(d, disk, sb, c);
    IdleStep(disk, io);
    MarkerIsSafe(d, disk, sb, c, data);
    ImageStep(disk, io);
    PatchAtEnd(Image(disk), data);
    ReadyReach(d, disk, sb, c);
    ReachStep(disk, io);
  }

  lemma StagingUpholds(d: Digests, base: Disk, t: Moment, sb: Superblock, c: Content, claim: Claim)
    requires StagingOn(d, base, t.disk, sb, c, claim.limit)
    requires claim == Claim(Image(base), claim.limit, t.roots, Meaning(c), Meaning(c))
    ensures Upholds(d, t, claim)
  {
    hide Ready, Staging, Safe, Frank, Image, Meaning, Reach, Upholds, Idle, Tidy;
    TidyStaging(d, base, t.disk, sb, c);
    StagingIsFrank(d, base, t.disk, sb, c);
    GuardedUpholds(d, t, sb, {c}, claim);
  }

  lemma UnstagingReady(d: Digests, base: Disk, disk: Disk, now: Disk, sb: Superblock, c: Content, limit: nat)
    requires StagingOn(d, base, disk, sb, c, limit) && (now == disk || now == Disk(Image(disk), []))
    ensures Guarded(d, now, sb, {c}) && Guarded(d, now.(pending := now.pending + [SetLen(|Image(base)|)]), sb, {c})
    ensures Image(base) <= Image(now) && Reach(now) <= limit && Tidy(d, now) && DATA_START <= |Image(base)|
  {
    hide Ready, Staging, Safe, Frank, Image, Reach, Idle, Tidy;
    TidyReady(d, base, sb, c);
    TidyStaging(d, base, disk, sb, c);
    TidySynced(d, disk, now);
    StagingIsFrank(d, base, disk, sb, c);
    GuardedAfterSync(d, disk, now, sb, {c});
    UnstagingIsGuarded(d, base, disk, now, sb, c);
    ReachSynced(disk, now);
  }

  /** `w` is the written form of `b`, and `next` is a root for it. */
  ghost predicate Pieces(d: Digests, b: Base, w: Written, next: Superblock) {
    && Segment.Valid(d, b)
    && w.head == Head(d, b) && w.records == RecordsBytes(b.entries) && w.metadata == Metadata(d, Data(d, b))
    && next == RootOf(d, next.generation, b)
  }

  lemma PiecesFacts(d: Digests, b: Base, w: Written, next: Superblock)
    requires Pieces(d, b, w, next)
    ensures next.baseOffset == b.start && next.logStart == next.baseOffset + next.baseSize
    ensures |w.head| + |w.records| + |w.metadata| == next.baseSize
  {
    hide Segment.Valid, Size, Data, Metadata, Head, RecordsBytes;
    BaseSplits(d, b);
  }

  /** The old content is still in charge, and the staging Base stands complete behind the marker. */
  ghost predicate StagedOn(d: Digests, before: Bytes, image: Bytes, sb: Superblock, c: Content, next: Superblock,
                           b: Base) {
    && |image| == next.logStart
    && before <= image
    && Holds(d, image, sb, c, image[|before|..])
    && Stored(d, image, next, Content(b, []), [])
  }

  lemma StagedResult(d: Digests, before: Bytes, sb: Superblock, c: Content, b: Base, w: Written, next: Superblock,
                     image: Bytes)
    requires Holds(d, before, sb, c, []) && BehindMarker(d, before, image)
    requires Pieces(d, b, w, next) && |before| + Log.HEADER_SIZE <= next.baseOffset
    requires image == SegmentWritten(before + CompactMarker(d), next.baseOffset, w.head, w.records, w.metadata)
    ensures StagedOn(d, before, image, sb, c, next, b)
  {
    PiecesFacts(d, b, w, next);
    hide Holds, Stored, BehindMarker, Segment.Valid, CompactMarker, Head, RecordsBytes, Metadata, Data, Size,
         SegmentWritten;
    HeldParts(d, before, sb, c, []);
    MarkerPrefix(d, before, image);
    BehindMarkerHolds(d, before, image, sb, c);
    StagedIsStored(d, before + CompactMarker(d), next.generation, b);
  }

  // ------------------------------------------------------- instants of a compaction

  /** A compaction that started with these roots, under this size limit, from this map. */
  datatype Course = Course(roots: set<Superblock>, limit: nat, m: map<Bytes, Bytes>)

  /**
   * An ordered crash recovers the map, and any other loss recovers it or is noticed. From the first
   * sync on (nothing is pending, or a new root is on its way) every loss recovers it. All that is pending
   * is known, so only a torn page or record could deceive recovery.
   */
  ghost predicate Steady(d: Digests, t: Moment, course: Course) {
    && Known(d, t)
    && Survives(d, t, course.m, course.m)
    && NeverLies(d, t, course.m, course.m)
    && Reach(t.disk) <= course.limit
    && (t.roots != course.roots || t.disk.pending == [] ==> SurvivesLoss(d, t, course.m))
  }

  ghost predicate AllSteady(d: Digests, trail: seq<Moment>, from: nat, course: Course) {
    from <= |trail| && forall i :: from <= i < |trail| ==> Steady(d, trail[i], course)
  }

  lemma AllSteadyMore(d: Digests, trail: seq<Moment>, from: nat, t: Moment, course: Course)
    requires AllSteady(d, trail, from, course) && Steady(d, t, course)
    ensures AllSteady(d, trail + [t], from, course)
  {
    hide Steady;
  }

  lemma SteadyFromLoss(d: Digests, t: Moment, course: Course)
    requires SurvivesLoss(d, t, course.m) && Reach(t.disk) <= course.limit && Known(d, t)
    ensures Steady(d, t, course)
  {
    hide SurvivesLoss, Survives, NeverLies, Image, Known;
    LossImpliesOrdered(d, t, course.m);
    LossNeverLiesEither(d, t, course.m);
  }

  lemma SyncedLoss(d: Digests, t: Moment, m: map<Bytes, Bytes>)
    requires Survives(d, t, m, m) && t.disk.pending == []
    ensures SurvivesLoss(d, t, m)
  {
    hide RecoversTo, GenuinePages;
    forall image | LosesTo(t.disk, image) && GenuinePages(d, t.disk.durable, image, t.roots)
      ensures RecoversTo(d, image, m)
    {
      NothingPending(t.disk, image);
    }
  }

  lemma SteadyFromThroughout(d: Digests, trail: seq<Moment>, from: nat, claim: Claim)
    requires Throughout(d, trail, from, claim) && claim.a == claim.b
    ensures AllSteady(d, trail, from, Course(claim.roots, claim.limit, claim.a))
  {
    hide Survives, SurvivesLoss, Image, Tidy, Known;
    forall i | from <= i < |trail|
      ensures Steady(d, trail[i], Course(claim.roots, claim.limit, claim.a))
    {
      assert Upholds(d, trail[i], claim);
      TidyIsKnown(d, trail[i]);
      if trail[i].disk.pending == [] {
        SyncedLoss(d, trail[i], claim.a);
      }
    }
  }

  /** A sync, reported or not, keeps what a lossy crash could recover. */
  lemma SyncSteady(d: Digests, before: Disk, after: Disk, roots: set<Superblock>, course: Course)
    requires Steady(d, Moment(before, roots), course) && SurvivesLoss(d, Moment(before, roots), course.m)
    requires after == Disk(Image(before), []) || after == before
    requires GenuinePages(d, before.durable, Image(before), roots)
    ensures Steady(d, Moment(after, roots), course)
  {
    hide RecoversTo, GenuinePages, Survives, Known;
    SyncedImage(before, after);
    ReachSynced(before, after);
    if after != before {
      KnownSynced(d, Moment(after, roots));
      forall image | LosesTo(after, image) && GenuinePages(d, after.durable, image, roots)
        ensures RecoversTo(d, image, course.m)
      {
        NothingPending(after, image);
        OrderedIsLoss(before, Image(before));
      }
      SteadyFromLoss(d, Moment(after, roots), course);
    }
  }

  function PageOffset(slot: nat): nat {
    slot * PAGE_SIZE
  }

  lemma PageImage(durable: Bytes, slot: nat, data: Bytes)
    requires slot < 2 && |data| <= PAGE_SIZE && DATA_START <= |durable|
    ensures |Image(Disk(durable, [PageWrite(slot, data)]))| == |durable|
    ensures Image(Disk(durable, [PageWrite(slot, data)])) == Do(durable, PageWrite(slot, data))
    ensures Reach(Disk(durable, [PageWrite(slot, data)])) == |durable|
  {
    ReachStep(Disk(durable, []), PageWrite(slot, data));
    ImageStep(Disk(durable, []), PageWrite(slot, data));
    assert [] + [PageWrite(slot, data)] == [PageWrite(slot, data)];
  }

  lemma PublishSteady(d: Digests, durable: Bytes, roots: set<Superblock>, data: Bytes,
                      sb: Superblock, c: Content, tail: Bytes, next: Superblock, c': Content, tail': Bytes,
                      course: Course)
    requires Holds(d, durable, sb, c, tail) && Stored(d, durable, next, c', tail')
    requires next.generation == sb.generation + 1 && Settled(roots, sb) && data <= EncodePage(d, next)
    requires Meaning(c) == Meaning(c') == course.m && DATA_START <= |durable| <= course.limit
    ensures var t := Moment(Disk(durable, [Write(PageOffset(PageOf(next.generation)), data)]), roots + {next});
            Steady(d, t, course) && SurvivesLoss(d, t, course.m)
  {
    hide Holds, Stored, Settled, Meaning, Image, SurvivesLoss, Steady, PageOf, EncodePage, Known;
    PublishSurvivesLoss(d, durable, roots, data, sb, c, tail, next, c', tail');
    KnownPage(d, durable, PageOf(next.generation), data, roots + {next}, next);
    PageImage(durable, PageOf(next.generation), data);
    SteadyFromLoss(d, Moment(Disk(durable, [PageWrite(PageOf(next.generation), data)]), roots + {next}), course);
  }

  lemma PublishedParts(d: Digests, durable: Bytes, roots: set<Superblock>, sb: Superblock, c: Content, tail: Bytes,
                       next: Superblock, c': Content, tail': Bytes)
    requires Holds(d, durable, sb, c, tail) && Stored(d, durable, next, c', tail')
    requires next.generation == sb.generation + 1 && Settled(roots, sb) && DATA_START <= |durable|
    ensures var image := Image(Disk(durable, [Write(PageOffset(PageOf(next.generation)), EncodePage(d, next))]));
            && |image| == |durable|
            && image == Do(durable, PageWrite(PageOf(next.generation), EncodePage(d, next)))
            && Holds(d, image, next, c', tail')
            && GenuinePages(d, durable, image, roots + {next})
    ensures Settled(roots + {next}, next)
  {
    hide Holds, Stored, Image, PageOf, EncodePage, Do, GenuinePages;
    PageGenuine(d, durable, PageOf(next.generation), next, roots + {next});
    PublishedHolds(d, durable, sb, c, tail, next, c', tail');
    PageImage(durable, PageOf(next.generation), EncodePage(d, next));
  }

  lemma PageGenuine(d: Digests, durable: Bytes, slot: nat, sb: Superblock, roots: set<Superblock>)
    requires slot < 2 && DATA_START <= |durable| && sb in roots
    ensures GenuinePages(d, durable, Do(durable, PageWrite(slot, EncodePage(d, sb))), roots)
  {
    hide EncodePage, RootAt, Patch, OnlyPage;
    RootPatched(d, durable, slot, sb);
    PagePatched(durable, slot, EncodePage(d, sb));
    OtherPageSame(d, durable, Do(durable, PageWrite(slot, EncodePage(d, sb))), slot);
  }

  lemma CopySteady(d: Digests, durable: Bytes, roots: set<Superblock>, data: Bytes, sb: Superblock, c: Content,
                   tail: Bytes, course: Course)
    requires Holds(d, durable, sb, c, tail) && Settled(roots, sb) && sb in roots && data <= EncodePage(d, sb)
    requires Meaning(c) == course.m && DATA_START <= |durable| <= course.limit
    ensures var t := Moment(Disk(durable, [Write(PageOffset(1 - PageOf(sb.generation)), data)]), roots);
            Steady(d, t, course) && SurvivesLoss(d, t, course.m)
  {
    hide Holds, Settled, Meaning, Image, SurvivesLoss, Steady, PageOf, EncodePage, Known;
    CopySurvivesLoss(d, durable, roots, data, sb, c, tail);
    KnownPage(d, durable, 1 - PageOf(sb.generation), data, roots, sb);
    PageImage(durable, 1 - PageOf(sb.generation), data);
    SteadyFromLoss(d, Moment(Disk(durable, [PageWrite(1 - PageOf(sb.generation), data)]), roots), course);
  }

  lemma CopyDoubles(d: Digests, durable: Bytes, sb: Superblock, c: Content, tail: Bytes)
    requires Holds(d, durable, sb, c, tail) && DATA_START <= |durable|
    ensures Doubled(d, Do(durable, PageWrite(1 - PageOf(sb.generation), EncodePage(d, sb))), sb)
  {
    hide Stored, RootAt, OnlyPage, EncodePage, Patch;
    var slot := 1 - PageOf(sb.generation);
    PagePatched(durable, slot, EncodePage(d, sb));
    OtherPageSame(d, durable, Patch(durable, slot * PAGE_SIZE, EncodePage(d, sb)), slot);
    RootPatched(d, durable, slot, sb);
  }

  lemma CopiedParts(d: Digests, durable: Bytes, roots: set<Superblock>, sb: Superblock, c: Content, tail: Bytes)
    requires Holds(d, durable, sb, c, tail) && DATA_START <= |durable| && sb in roots
    ensures var image := Image(Disk(durable, [Write(PageOffset(1 - PageOf(sb.generation)), EncodePage(d, sb))]));
            && |image| == |durable| && Holds(d, image, sb, c, tail) && GenuinePages(d, durable, image, roots)
            && Doubled(d, image, sb)
  {
    hide Holds, Image, PageOf, EncodePage, Do, GenuinePages, Doubled;
    CopyDoubles(d, durable, sb, c, tail);
    PageGenuine(d, durable, 1 - PageOf(sb.generation), sb, roots);
    CopiedHolds(d, durable, sb, c, tail);
    PageImage(durable, 1 - PageOf(sb.generation), EncodePage(d, sb));
  }

  lemma ReadyWithInert(d: Digests, disk: Disk, io: Io, sb: Superblock, c: Content)
    requires Ready(d, disk, sb, c) && Inert(io, sb)
    ensures Ready(d, disk.(pending := disk.pending + [io]), sb, c)
    ensures |Image(disk.(pending := disk.pending + [io]))| == |Image(disk)|
  {
    hide Holds, Image, Inert;
    ReadyImage(d, disk, sb, c);
    ReadyImage(d, disk.(pending := disk.pending + [io]), sb, c);
  }

  lemma ReadySteady(d: Digests, t: Moment, sb: Superblock, c: Content, course: Course)
    requires Ready(d, t.disk, sb, c) && Meaning(c) == course.m && |Image(t.disk)| <= course.limit
    ensures Steady(d, t, course)
  {
    hide Ready, Meaning, Image, SurvivesLoss, Steady, Tidy, Known;
    ReadyReach(d, t.disk, sb, c);
    TidyReady(d, t.disk, sb, c);
    TidyIsKnown(d, t);
    ReadySurvivesLoss(d, t, sb, c);
    SteadyFromLoss(d, t, course);
  }

  lemma ReadyReach(d: Digests, disk: Disk, sb: Superblock, c: Content)
    requires Ready(d, disk, sb, c)
    ensures Reach(disk) == |Image(disk)|
  {
    hide Holds, Inert, Image;
    ReadyImage(d, disk, sb, c);
    HeldParts(d, disk.durable, sb, c, []);
    InertLengths(|disk.durable|, disk.pending, sb);
  }

  lemma ReadyIdle(d: Digests, disk: Disk, sb: Superblock, c: Content)
    requires Ready(d, disk, sb, c)
    ensures Idle(disk) && DATA_START <= |Image(disk)|
  {
    hide Holds, Image;
    ReadyImage(d, disk, sb, c);
    HeldParts(d, disk.durable, sb, c, []);
  }

  lemma ReadyAfterSync(d: Digests, before: Disk, after: Disk, sb: Superblock, c: Content)
    requires Ready(d, before, sb, c) && (after == Disk(Image(before), []) || after == before)
    ensures Ready(d, after, sb, c) && Image(after) == Image(before)
  {
    SyncedImage(before, after);
    hide Holds, Image;
    ReadyImage(d, before, sb, c);
  }

  lemma RootBelowEnd(d: Digests, disk: Disk, sb: Superblock, c: Content)
    requires Ready(d, disk, sb, c)
    ensures DATA_START <= sb.baseOffset <= sb.logStart <= |Image(disk)|
  {
    hide *;
    ReadyImage(d, disk, sb, c);
    HeldParts(d, Image(disk), sb, c, []);
  }

  /** The staging Base is in charge, and the relocated one stands complete, closed by a marker. */
  ghost predicate RelocatedOn(d: Digests, image: Bytes, sb: Superblock, c: Content, next: Superblock, b: Base) {
    && Holds(d, image, sb, c, [])
    && next.logStart <= |image|
    && Stored(d, image, next, Content(b, []), image[next.logStart..])
  }

  lemma RelocatedResult(d: Digests, before: Bytes, disk: Disk, sb: Superblock, c: Content, b: Base, w: Written,
                        next: Superblock)
    requires Ready(d, disk, sb, c) && Pieces(d, b, w, next)
    requires DATA_START <= next.baseOffset && next.logStart + Log.HEADER_SIZE <= |before|
    requires Image(disk) == Patch(SegmentWritten(before, next.baseOffset, w.head, w.records, w.metadata),
                                  next.logStart, CompactMarker(d))
    ensures RelocatedOn(d, Image(disk), sb, c, next, b)
  {
    hide Ready, Holds, Stored, Pieces, Segment.Valid, CompactMarker, Head, RecordsBytes, Metadata, Data, Size,
         RootOf, SegmentWritten, Patch, Image;
    PiecesParts(d, b, w, next);
    ReadyImage(d, disk, sb, c);
    RelocatedIsStored(d, before, next.generation, b);
  }

  lemma PiecesParts(d: Digests, b: Base, w: Written, next: Superblock)
    requires Pieces(d, b, w, next)
    ensures Segment.Valid(d, b) && next == RootOf(d, next.generation, b)
    ensures w.head == Head(d, b) && w.records == RecordsBytes(b.entries) && w.metadata == Metadata(d, Data(d, b))
    ensures next.baseOffset == b.start && next.logStart == b.start + Size(b)
  {
    hide Segment.Valid, Head, RecordsBytes, Metadata, Data, Size;
  }

  lemma HeldBounds(d: Digests, image: Bytes, sb: Superblock, c: Content, tail: Bytes)
    requires Holds(d, image, sb, c, tail)
    ensures DATA_START <= sb.logStart <= |image|
  {
    hide *;
    HeldParts(d, image, sb, c, tail);
  }

  lemma CutIdle(d: Digests, durable: Bytes, roots: set<Superblock>, sb: Superblock, c: Content, tail: Bytes, len: nat)
    requires Holds(d, durable, sb, c, tail) && sb.logStart <= len
    ensures Idle(Disk(durable, [SetLen(len)])) && Known(d, Moment(Disk(durable, [SetLen(len)]), roots))
    ensures LosesTo(Disk(durable, [SetLen(len)]), Image(Disk(durable, [SetLen(len)])))
  {
    hide Holds, LosesTo, Image, Placed, Newest, StorableLog, Quiet, LogBytes, EncodePage, BatchRecord, StorableBatch,
         CompactMarker;
    HeldParts(d, durable, sb, c, tail);
    OrderedIsLoss(Disk(durable, [SetLen(len)]), Image(Disk(durable, [SetLen(len)])));
    assert StagingTail(d, Disk(durable, [SetLen(len)]));
  }

  lemma ShrinkSteady(d: Digests, durable: Bytes, roots: set<Superblock>, sb: Superblock, c: Content, tail: Bytes,
                     len: nat, course: Course)
    requires Holds(d, durable, sb, c, tail) && |durable| <= course.limit && Meaning(c) == course.m
    requires len == sb.logStart + |LogBytes(d, c.batches)|
    ensures var disk := Disk(durable, [SetLen(len)]);
            && Steady(d, Moment(disk, roots), course) && SurvivesLoss(d, Moment(disk, roots), course.m)
            && Ready(d, Disk(Image(disk), []), sb, c) && |Image(disk)| == len <= |durable|
            && Image(disk) == durable[..len] && Image(Disk(Image(disk), [])) == Image(disk)
            && Idle(disk) && LosesTo(disk, Image(disk))
    ensures Steady(d, Moment(Disk(durable, []), roots), course)
  {
    hide Holds, Meaning, SurvivesLoss, Steady, Resize, LogBytes, LosesTo, Idle, Known;
    var disk := Disk(durable, [SetLen(len)]);
    LogEnds(d, durable, sb, c, tail);
    ImageStep(Disk(durable, []), SetLen(len));
    ReachStep(Disk(durable, []), SetLen(len));
    assert [] + [SetLen(len)] == [SetLen(len)];
    assert Image(disk) == Resize(durable, len);
    ShrinkSurvivesLoss(d, durable, roots, sb, c, tail);
    ResizeIsPrefix(durable, len);
    CutIdle(d, durable, roots, sb, c, tail, len);
    SteadyFromLoss(d, Moment(disk, roots), course);
    ShrunkHolds(d, durable, sb, c, tail, Image(disk));
    assert tail[..0] == [];
    HeldSteady(d, durable, roots, sb, c, tail, course);
  }

  lemma HeldSteady(d: Digests, durable: Bytes, roots: set<Superblock>, sb: Superblock, c: Content, tail: Bytes,
                   course: Course)
    requires Holds(d, durable, sb, c, tail) && Meaning(c) == course.m && |durable| <= course.limit
    ensures Steady(d, Moment(Disk(durable, []), roots), course)
  {
    hide Holds, Meaning, RecoversTo, GenuinePages, LosesTo, Known;
    KnownSynced(d, Moment(Disk(durable, []), roots));
    var t := Moment(Disk(durable, []), roots);
    forall image | LosesTo(t.disk, image) && GenuinePages(d, durable, image, roots)
      ensures RecoversTo(d, image, course.m)
    {
      NothingPending(t.disk, image);
      HeldOpens(d, durable, sb, c, tail);
    }
    SteadyFromLoss(d, t, course);
  }

  /** The pieces of a serving handle that other operations use. */
  lemma ServingParts(d: Digests, sb: Superblock, mapping: Bytes, c: Content, index: OverlayMap, memory: nat)
    requires Serves(d, sb, mapping, c, index, memory)
    ensures Segment.Valid(d, c.base) && mapping == BaseBytes(d, c.base) && StorableLog(c.batches)
    ensures Represents(index, LogBytes(d, c.batches), ApplyBatches(c.batches))
    ensures sb.baseOffset == c.base.start && sb.baseSlots == |c.base.owner| && sb.baseLen == |c.base.entries|
    ensures sb.logStart == c.base.start + Size(c.base) && sb.baseSize == Size(c.base)
    ensures DataLength(d, mapping) == Some(DataSize(c.base))
  {
    hide Segment.Valid, BaseBytes, StorableLog, Represents, LogBytes, ApplyBatches, DataLength, Size, DataSize,
         Metadata, Data;
    BaseIsAccepted(d, sb.generation, c.base);
  }

  lemma EmptyContent(d: Digests, c: Content)
    requires c.batches == []
    ensures LogBytes(d, c.batches) == [] && ApplyBatches(c.batches) == map[]
    ensures Meaning(c) == AsMap(c.base.entries)
  {
    hide AsMap;
  }

  lemma SameMeaning(d: Digests, c: Content, b: Base)
    requires c.batches == [] && b.entries == c.base.entries
    ensures Meaning(Content(b, [])) == Meaning(c)
  {
    hide Meaning;
    EmptyContent(d, c);
    EmptyContent(d, Content(b, []));
  }

  predicate Buildable(start: nat, entries: seq<Entry>) {
    && SlotCount(|entries|).Some?
    && (forall i :: 0 <= i < |entries| ==> Storable(entries[i]))
    && start + EntriesSize(entries) < U64_LIMIT
  }

  lemma Rebuildable(d: Digests, b: Base, start: nat)
    requires Segment.Valid(d, b) && start + Size(b) < U64_LIMIT
    ensures Buildable(start, b.entries) && EntriesSize(b.entries) == Size(b)
  {
    hide Indexed, Distinct, Storable, SlotCount, RecordsBytes, SegmentSize;
  }

  lemma BuiltRoot(d: Digests, generation: U64, b: Base, w: Written)
    requires Segment.Valid(d, b)
    requires w.head == Head(d, b) && w.records == RecordsBytes(b.entries) && w.metadata == Metadata(d, Data(d, b))
    requires w.slots == |b.owner| && w.checksum == d.crc(w.metadata)
    ensures |b.entries| < U64_LIMIT && Size(b) == EntriesSize(b.entries)
    ensures |w.head| + |w.records| + |w.metadata| == Size(b) && b.start + Size(b) < U64_LIMIT
    ensures RootOf(d, generation, b) ==
            Superblock(generation, b.start, Size(b), w.slots, |b.entries|, b.start + Size(b), w.checksum)
  {
    hide Indexed, Distinct, Storable, BaseBytes;
    BaseSplits(d, b);
    Rebuildable(d, b, 0);
  }

  lemma RelocatedTail(d: Digests, image: Bytes, sb: Superblock, c: Content, next: Superblock, b: Base)
    requires RelocatedOn(d, image, sb, c, next, b)
    ensures next.logStart <= |image|
  {
    hide Holds, Stored;
  }

  lemma RelocatedBounds(d: Digests, image: Bytes, sb: Superblock, c: Content, next: Superblock, b: Base)
    requires RelocatedOn(d, image, sb, c, next, b)
    ensures DATA_START <= |image| && DATA_START <= sb.baseOffset
  {
    hide Holds, Stored;
    HeldParts(d, image, sb, c, []);
  }

  lemma RelocatedBacked(d: Digests, disk: Disk, sb: Superblock, mapping: Bytes, c: Content, index: OverlayMap,
                        memory: nat, next: Superblock, b: Base)
    requires disk.pending == [] && RelocatedOn(d, disk.durable, sb, c, next, b)
    requires Serves(d, sb, mapping, c, index, memory)
    ensures BackedBy(Image(disk), sb, mapping, index) && sb.baseOffset <= sb.logStart
    ensures sb.baseOffset + sb.baseSize <= |Image(disk)| && sb.logStart + |Mapping(index)| <= |Image(disk)|
  {
    hide Holds, Stored, Serves, Image, BackedBy;
    ReadyWhenHeld(d, disk, sb, c);
    ReadyBacked(d, disk, sb, mapping, c, index, memory);
    MappedWithin(d, disk, sb, mapping, c, index, memory);
  }

  lemma MappedBase(d: Digests, disk: Disk, sb: Superblock, c: Content)
    requires Ready(d, disk, sb, c)
    ensures Segment.Valid(d, c.base) && sb == RootOf(d, sb.generation, c.base)
    ensures sb.baseOffset + sb.baseSize <= |Image(disk)|
    ensures Image(disk)[sb.baseOffset..sb.baseOffset + sb.baseSize] == BaseBytes(d, c.base)
  {
    hide Ready, Image, BaseBytes, Segment.Valid, RootOf, Newest, LogBytes, Quiet, StorableLog, Size;
    ReadyImage(d, disk, sb, c);
    PlacedFits(d, Image(disk), sb, c.base);
  }

  lemma ServesFresh(d: Digests, sb: Superblock, mapping: Bytes, b: Base)
    requires Segment.Valid(d, b) && sb == RootOf(d, sb.generation, b) && mapping == BaseBytes(d, b)
    ensures Serves(d, sb, mapping, Content(b, []), NOTHING, 0)
  {
    hide Segment.Valid, RootOf, BaseBytes;
  }

  lemma DurableImage(disk: Disk)
    requires disk.pending == []
    ensures Image(disk) == disk.durable
  {
  }

  lemma SteadyStart(d: Digests, trail: seq<Moment>, course: Course)
    ensures AllSteady(d, trail, |trail|, course)
  {
  }

  lemma MeasuredAs(entries: seq<Entry>, measured: Option<(nat, U64)>)
    requires measured.Some? <==>
               && SlotCount(|entries|).Some?
               && SegmentSize(RecordsStart(SlotCount(|entries|).value) + |RecordsBytes(entries)|) < U64_LIMIT
    requires measured.Some? ==>
               measured.value.1 == SegmentSize(RecordsStart(SlotCount(|entries|).value) + |RecordsBytes(entries)|)
    ensures measured.Some? <==> SlotCount(|entries|).Some? && EntriesSize(entries) < U64_LIMIT
    ensures measured.Some? ==> measured.value.1 == EntriesSize(entries)
  {
    hide SegmentSize, RecordsStart, RecordsBytes, SlotCount;
  }

  lemma MeasuredFits(entries: seq<Entry>, size: nat, start: nat)
    requires SlotCount(|entries|).Some? && EntriesSize(entries) == size && start + size < U64_LIMIT
    requires forall i :: 0 <= i < |entries| ==> Storable(entries[i])
    ensures Buildable(start, entries)
  {
  }

  lemma StagedBounds(d: Digests, before: Bytes, image: Bytes, sb: Superblock, c: Content, next: Superblock, b: Base)
    requires StagedOn(d, before, image, sb, c, next, b)
    ensures |before| <= |image| == next.logStart && DATA_START <= |image|
    ensures Holds(d, image, sb, c, image[|before|..]) && Stored(d, image, next, Content(b, []), [])
  {
    hide Holds, Stored;
    HeldParts(d, image, sb, c, image[|before|..]);
  }

  lemma ContentOfBase(d: Digests, c: Content, b: Base)
    requires AsMap(b.entries) == Meaning(c)
    ensures Meaning(Content(b, [])) == Meaning(c)
  {
    hide Meaning, AsMap;
    EmptyContent(d, Content(b, []));
  }

  lemma ReadyWhenHeld(d: Digests, disk: Disk, sb: Superblock, c: Content)
    requires disk.pending == [] && Holds(d, disk.durable, sb, c, [])
    ensures Ready(d, disk, sb, c) && Image(disk) == disk.durable
  {
  }

  // ------------------------------------------------- what was committed can be rebuilt

  ghost predicate StorableChanges(m: Changes) {
    forall k :: k in m ==> Loggable(OpOf(k, m[k]))
  }

  lemma {:induction false} StorableOps(m: Changes, ops: seq<Op>)
    requires StorableChanges(m) && forall i :: 0 <= i < |ops| ==> Loggable(ops[i])
    ensures StorableChanges(ApplyOps(m, ops))
  {
    hide Loggable;
    if ops != [] {
      StorableOps(m, ops[..|ops| - 1]);
      assert OpOf(ops[|ops| - 1].key, ChangeOf(ops[|ops| - 1])) == ops[|ops| - 1];
    }
  }

  lemma {:induction false} StorableBatches(batches: seq<seq<Op>>)
    requires StorableLog(batches)
    ensures StorableChanges(ApplyBatches(batches))
  {
    hide Loggable, ApplyOps;
    if batches != [] {
      var n := |batches| - 1;
      StorableBatches(batches[..n]);
      StorableOps(ApplyBatches(batches[..n]), batches[n]);
    }
  }

  lemma LiveStorable(d: Digests, c: Content, entries: seq<Entry>)
    requires Segment.Valid(d, c.base) && StorableLog(c.batches)
    requires Distinct(entries) && AsMap(entries) == Overlaid(AsMap(c.base.entries), ApplyBatches(c.batches))
    ensures forall i :: 0 <= i < |entries| ==> Storable(entries[i])
  {
    hide *;
    BaseFacts(d, c.base);
    StorableBatches(c.batches);
    forall i | 0 <= i < |entries|
      ensures Storable(entries[i])
    {
      AsMapHas(entries, entries[i].key);
      AnswerIsOverlaid(AsMap(c.base.entries), ApplyBatches(c.batches), entries[i].key);
      StorableAnswer(c.base.entries, ApplyBatches(c.batches), entries[i]);
    }
  }

  lemma StorableAnswer(entries: seq<Entry>, changes: Changes, e: Entry)
    requires Distinct(entries) && StorableChanges(changes) && forall i :: 0 <= i < |entries| ==> Storable(entries[i])
    requires Answer(changes, MapGet(AsMap(entries), e.key), e.key) == Some(e.value)
    ensures Storable(e)
  {
    hide AsMap;
    if e.key in changes {
      assert Loggable(OpOf(e.key, changes[e.key]));
    } else {
      AsMapHas(entries, e.key);
    }
  }
}
