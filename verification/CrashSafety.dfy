/** Which device states survive a crash: the steps of commit and compaction, one at a time. */
module CrashSafety {
  import opened Bytes
  import opened Log
  import opened Overlay
  import opened Roots
  import opened Segment
  import opened Device
  import opened Images

  /** The device at one instant, with every root written so far or being written. */
  datatype Moment = Moment(disk: Disk, roots: set<Superblock>)

  /**
   * The checksum hypothesis on a crash image: a torn page fails its checksum. Each page reads as it
   * does on the medium, or not at all, or as a root whose write was under way.
   */
  predicate GenuinePages(d: Digests, durable: Bytes, image: Bytes, roots: set<Superblock>) {
    forall slot :: 0 <= slot < 2 ==>
      || RootAt(d, image, slot) == RootAt(d, durable, slot)
      || RootAt(d, image, slot).Invalid?
      || (RootAt(d, image, slot).Fields? && RootAt(d, image, slot).sb in roots)
  }

  /** The operation leaves the root pages alone. */
  predicate Behind(io: Io) {
    DATA_START <= if io.Write? then io.offset else io.len
  }

  /** The operation writes a root page, or the front of one. */
  predicate WritesRoot(d: Digests, io: Io, slot: nat, sb: Superblock) {
    io.Write? && io.offset == slot * PAGE_SIZE && io.data <= EncodePage(d, sb)
  }

  ghost predicate KnownWrite(d: Digests, io: Io, roots: set<Superblock>) {
    Behind(io) || exists slot, sb :: 0 <= slot < 2 && sb in roots && WritesRoot(d, io, slot, sb)
  }

  /** Whatever is pending in the root pages is a page of one of the roots: only a torn page can be forged. */
  ghost predicate KnownPages(d: Digests, t: Moment) {
    forall i :: 0 <= i < |t.disk.pending| ==> KnownWrite(d, t.disk.pending[i], t.roots)
  }

  /** No root page is being written. */
  predicate Idle(disk: Disk) {
    DATA_START <= |disk.durable| && forall i :: 0 <= i < |disk.pending| ==> Behind(disk.pending[i])
  }

  lemma IdleIsKnown(d: Digests, t: Moment)
    requires Idle(t.disk)
    ensures KnownPages(d, t)
  {
  }

  lemma IdleStep(disk: Disk, io: Io)
    requires Idle(disk) && Behind(io)
    ensures Idle(disk.(pending := disk.pending + [io]))
  {
  }

  lemma {:induction false} IdleShortest(len: nat, ios: seq<Io>)
    requires DATA_START <= len && forall i :: 0 <= i < |ios| ==> Behind(ios[i])
    ensures DATA_START <= Shortest(len, ios)
  {
    if ios != [] {
      IdleShortest(len, ios[..|ios| - 1]);
    }
  }

  lemma IdleImage(disk: Disk)
    requires Idle(disk)
    ensures DATA_START <= |Image(disk)|
  {
    hide Image, MayHold, Shortest, Longest;
    OrderedIsLoss(disk, Image(disk));
    IdleShortest(|disk.durable|, disk.pending);
  }

  lemma IdleSynced(disk: Disk, now: Disk)
    requires Idle(disk) && (now == disk || now == Disk(Image(disk), []))
    ensures Idle(now)
  {
    hide Image;
    IdleImage(disk);
  }

  lemma IdleByte(disk: Disk, i: nat, b: Byte)
    requires Idle(disk) && i < DATA_START && MayHold(disk, i, b)
    ensures b == disk.durable[i]
  {
    if j :| 0 <= j < |disk.pending| && (Covers(disk.pending[j], i, b) || Drops(disk.pending[j], i)) {
      assert !Behind(disk.pending[j]);
    }
  }

  /** While no root page is being written, the checksum hypothesis holds of every crash image. */
  lemma IdleIsGenuine(d: Digests, disk: Disk, image: Bytes, roots: set<Superblock>)
    requires Idle(disk) && LosesTo(disk, image)
    ensures GenuinePages(d, disk.durable, image, roots)
  {
    hide Idle, MayHold, Shortest, Longest, RootAt;
    IdleLoss(disk, image);
    forall slot | 0 <= slot < 2
      ensures RootAt(d, image, slot) == RootAt(d, disk.durable, slot)
    {
      var at := slot * PAGE_SIZE;
      assert image[at..at + PAGE_SIZE] == disk.durable[at..at + PAGE_SIZE];
      SamePagesSameRoots(d, disk.durable, image, slot);
    }
  }

  lemma IdleLoss(disk: Disk, image: Bytes)
    requires Idle(disk) && LosesTo(disk, image)
    ensures DATA_START <= |image| && DATA_START <= |disk.durable|
    ensures forall i :: 0 <= i < DATA_START ==> image[i] == disk.durable[i]
  {
    hide MayHold, Shortest, Longest;
    IdleShortest(|disk.durable|, disk.pending);
    forall i | 0 <= i < DATA_START
      ensures image[i] == disk.durable[i]
    {
      IdleByte(disk, i, image[i]);
    }
  }

  /** What is on the medium is always genuine, so a claim about crashes binds the map that is held. */
  lemma HeldIsRecovered(d: Digests, image: Bytes, roots: set<Superblock>, sb: Superblock, c: Content, tail: Bytes,
                        a: map<Bytes, Bytes>, b: map<Bytes, Bytes>)
    requires Holds(d, image, sb, c, tail) && Survives(d, Moment(Disk(image, []), roots), a, b)
    ensures Meaning(c) == a || Meaning(c) == b
  {
    hide Holds, RecoversTo, RootAt, Meaning;
    HeldOpens(d, image, sb, c, tail);
    assert Image(Disk(image, [])) == image;
    if RecoversTo(d, image, a) {
      RecoveryIsUnique(d, image, a, Meaning(c));
    } else {
      RecoveryIsUnique(d, image, b, Meaning(c));
    }
  }

  /** After an ordered crash at this instant, reopening yields one of the two maps. */
  ghost predicate Survives(d: Digests, t: Moment, a: map<Bytes, Bytes>, b: map<Bytes, Bytes>) {
    forall image :: CrashesTo(t.disk, image) && GenuinePages(d, t.disk.durable, image, t.roots) ==>
      RecoversTo(d, image, a) || RecoversTo(d, image, b)
  }

  /** After a crash that loses any of the unsynced bytes, reopening yields this map. */
  ghost predicate SurvivesLoss(d: Digests, t: Moment, a: map<Bytes, Bytes>) {
    forall image :: LosesTo(t.disk, image) && GenuinePages(d, t.disk.durable, image, t.roots) ==>
      RecoversTo(d, image, a)
  }

  lemma LossImpliesOrdered(d: Digests, t: Moment, a: map<Bytes, Bytes>)
    requires SurvivesLoss(d, t, a)
    ensures Survives(d, t, a, a)
  {
    hide RecoversTo, CrashesTo, LosesTo, GenuinePages;
    forall image | CrashesTo(t.disk, image) && GenuinePages(d, t.disk.durable, image, t.roots)
      ensures RecoversTo(d, image, a)
    {
      OrderedIsLoss(t.disk, image);
    }
  }

  // ------------------------------------------------ writes below the active Base

  /** A write into the space between the root pages and the active Base. */
  predicate Inert(io: Io, sb: Superblock) {
    io.Write? && DATA_START <= io.offset && io.offset + |io.data| <= sb.baseOffset
  }

  /** The durable image holds `c` under `sb`, and nothing pending touches it. */
  ghost predicate Ready(d: Digests, disk: Disk, sb: Superblock, c: Content) {
    && Holds(d, disk.durable, sb, c, [])
    && forall i :: 0 <= i < |disk.pending| ==> Inert(disk.pending[i], sb)
  }

  lemma {:induction false} InertLengths(len: nat, ios: seq<Io>, sb: Superblock)
    requires sb.baseOffset <= len && forall i :: 0 <= i < |ios| ==> Inert(ios[i], sb)
    ensures Shortest(len, ios) == Longest(len, ios) == len
  {
    if ios != [] {
      InertLengths(len, ios[..|ios| - 1], sb);
    }
  }

  lemma InertBytes(disk: Disk, sb: Superblock, i: nat, b: Byte)
    requires forall j :: 0 <= j < |disk.pending| ==> Inert(disk.pending[j], sb)
    requires i < DATA_START || sb.baseOffset <= i
    requires MayHold(disk, i, b)
    ensures b == ByteAt(disk.durable, i)
  {
    if j :| 0 <= j < |disk.pending| && (Covers(disk.pending[j], i, b) || Drops(disk.pending[j], i)) {
      assert !Inert(disk.pending[j], sb);
    }
  }

  /** Changing bytes only between the root pages and the Base leaves everything held. */
  lemma HeldOutside(d: Digests, image: Bytes, other: Bytes, sb: Superblock, c: Content, tail: Bytes)
    requires Holds(d, image, sb, c, tail) && |other| == |image|
    requires forall i :: 0 <= i < |image| && (i < DATA_START || sb.baseOffset <= i) ==> other[i] == image[i]
    ensures Holds(d, other, sb, c, tail)
  {
    hide *;
    HeldParts(d, image, sb, c, tail);
    assert image[sb.baseOffset..sb.logStart] == other[sb.baseOffset..sb.logStart];
    PlacedFrame(d, image, other, sb, c.base);
    assert image[sb.logStart..] == other[sb.logStart..];
    SameFrom(image, other, DATA_START);
    NewestFrame(d, image, other, sb);
    HeldFromParts(d, other, sb, c, tail);
  }

  lemma SameFrom(a: Bytes, b: Bytes, n: nat)
    requires n <= |a| && n <= |b| && forall i :: 0 <= i < n ==> a[i] == b[i]
    ensures SameUpTo(a, b, n)
  {
  }

  lemma ReadyAfterLoss(d: Digests, disk: Disk, sb: Superblock, c: Content, image: Bytes)
    requires Ready(d, disk, sb, c) && LosesTo(disk, image)
    ensures Holds(d, image, sb, c, [])
    ensures |image| == |disk.durable|
  {
    hide Holds, MayHold, Inert, Shortest, Longest;
    HeldParts(d, disk.durable, sb, c, []);
    InertLengths(|disk.durable|, disk.pending, sb);
    forall i | 0 <= i < |image| && (i < DATA_START || sb.baseOffset <= i)
      ensures image[i] == disk.durable[i]
    {
      InertBytes(disk, sb, i, image[i]);
    }
    HeldOutside(d, disk.durable, image, sb, c, []);
  }

  /** An idle or relocating handle survives the loss of any unsynced bytes. */
  lemma ReadySurvivesLoss(d: Digests, t: Moment, sb: Superblock, c: Content)
    requires Ready(d, t.disk, sb, c)
    ensures SurvivesLoss(d, t, Meaning(c))
  {
    hide Ready, Holds, LosesTo, GenuinePages, RecoversTo;
    forall image | LosesTo(t.disk, image) && GenuinePages(d, t.disk.durable, image, t.roots)
      ensures RecoversTo(d, image, Meaning(c))
    {
      ReadyAfterLoss(d, t.disk, sb, c, image);
      HeldOpens(d, image, sb, c, []);
    }
  }

  lemma ReadyImage(d: Digests, disk: Disk, sb: Superblock, c: Content)
    requires Ready(d, disk, sb, c)
    ensures Holds(d, Image(disk), sb, c, []) && |Image(disk)| == |disk.durable|
  {
    hide Ready, Holds;
    OrderedIsLoss(disk, Image(disk));
    ReadyAfterLoss(d, disk, sb, c, Image(disk));
  }

  // -------------------------------------------------------- one more operation

  /** What is left of an operation the crash interrupts. */
  predicate PartOf(part: Io, io: Io) {
    part == io || (part.Write? && io.Write? && part.offset == io.offset && part.data <= io.data)
  }

  lemma CrashAfterOneMore(disk: Disk, io: Io, image: Bytes)
    requires CrashesTo(disk.(pending := disk.pending + [io]), image)
    ensures CrashesTo(disk, image) || exists part :: PartOf(part, io) && image == Do(Image(disk), part)
  {
    hide Do;
    var disk', n := disk.(pending := disk.pending + [io]), |disk.pending|;
    assert disk'.pending[..n] == disk.pending;
    if image == Image(disk') {
      assert PartOf(io, io);
    } else {
      var m, k :| 0 <= m < |disk'.pending| && 0 <= k && image == Cut(disk', m, k);
      if m < n {
        assert disk'.pending[..m] == disk.pending[..m];
        assert image == Cut(disk, m, k);
      } else {
        CutLast(disk, io, k);
        if io.Write? && k <= |io.data| {
          assert PartOf(Write(io.offset, io.data[..k]), io);
        }
      }
    }
  }

  lemma CutLast(disk: Disk, io: Io, k: nat)
    ensures Cut(disk.(pending := disk.pending + [io]), |disk.pending|, k)
            == if io.Write? && k <= |io.data| then Do(Image(disk), Write(io.offset, io.data[..k])) else Image(disk)
  {
    hide Do;
    var n := |disk.pending|;
    assert (disk.pending + [io])[..n] == disk.pending;
    if io.Write? && k <= |io.data| {
      assert (disk.pending + [Write(io.offset, io.data[..k])])[..n] == disk.pending;
    } else {
      assert disk.pending + [] == disk.pending;
    }
  }

  ghost predicate HoldsSome(d: Digests, image: Bytes, sb: Superblock, cs: set<Content>) {
    exists c, tail :: c in cs && Holds(d, image, sb, c, tail)
  }

  /** Every ordered crash leaves one of the contents `cs` under the root `sb`. */
  ghost predicate Safe(d: Digests, disk: Disk, sb: Superblock, cs: set<Content>) {
    forall image :: CrashesTo(disk, image) ==> HoldsSome(d, image, sb, cs)
  }

  lemma ReadyIsSafe(d: Digests, disk: Disk, sb: Superblock, c: Content, cs: set<Content>)
    requires Ready(d, disk, sb, c) && c in cs
    ensures Safe(d, disk, sb, cs)
  {
    hide Ready, Holds, CrashesTo;
    forall image | CrashesTo(disk, image)
      ensures HoldsSome(d, image, sb, cs)
    {
      OrderedIsLoss(disk, image);
      ReadyAfterLoss(d, disk, sb, c, image);
    }
  }

  lemma SafeWithOneMore(d: Digests, disk: Disk, io: Io, sb: Superblock, cs: set<Content>)
    requires Safe(d, disk, sb, cs)
    requires forall part :: PartOf(part, io) ==> HoldsSome(d, Do(Image(disk), part), sb, cs)
    ensures Safe(d, disk.(pending := disk.pending + [io]), sb, cs)
  {
    hide HoldsSome, CrashesTo, Do, PartOf;
    var disk' := disk.(pending := disk.pending + [io]);
    forall image | CrashesTo(disk', image)
      ensures HoldsSome(d, image, sb, cs)
    {
      CrashAfterOneMore(disk, io, image);
    }
  }

  lemma SafeSurvives(d: Digests, t: Moment, sb: Superblock, cs: set<Content>, a: map<Bytes, Bytes>,
                     b: map<Bytes, Bytes>)
    requires Safe(d, t.disk, sb, cs)
    requires forall c :: c in cs ==> Meaning(c) == a || Meaning(c) == b
    ensures Survives(d, t, a, b)
  {
    hide Holds, CrashesTo, GenuinePages, RecoversTo, Meaning;
    forall image | CrashesTo(t.disk, image) && GenuinePages(d, t.disk.durable, image, t.roots)
      ensures RecoversTo(d, image, a) || RecoversTo(d, image, b)
    {
      assert HoldsSome(d, image, sb, cs);
      var c, tail :| c in cs && Holds(d, image, sb, c, tail);
      HeldOpens(d, image, sb, c, tail);
    }
  }

  // ------------------------------------------------------------------ appends

  lemma PatchAtEnd(image: Bytes, data: Bytes)
    ensures Patch(image, |image|, data) == image + data
  {
  }

  /** Bytes at which the scan stops may follow the log. */
  lemma QuietAppended(d: Digests, image: Bytes, sb: Superblock, c: Content, tail: Bytes)
    requires Holds(d, image, sb, c, []) && Quiet(d, tail)
    ensures Holds(d, image + tail, sb, c, tail)
  {
    hide *;
    HeldParts(d, image, sb, c, []);
    var n := |image|;
    assert (image + tail)[n..] == tail;
    SamePrefix(image, tail);
    TailReplaced(d, image, sb, c, [], image + tail, tail);
  }

  lemma SamePrefix(image: Bytes, tail: Bytes)
    ensures SameUpTo(image, image + tail, |image|)
  {
    assert (image + tail)[..|image|] == image[..|image|];
  }

  function WithBatch(c: Content, ops: seq<Op>): Content {
    Content(c.base, c.batches + [ops])
  }

  lemma BatchAppended(d: Digests, image: Bytes, sb: Superblock, c: Content, ops: seq<Op>)
    requires Holds(d, image, sb, c, []) && StorableBatch(ops)
    ensures Holds(d, image + BatchRecord(d, ops), sb, WithBatch(c, ops), [])
  {
    hide *;
    var record := BatchRecord(d, ops);
    var image' := image + record;
    HeldParts(d, image, sb, c, []);
    SamePrefix(image, record);
    SameSlices(image, image', |image|, sb.baseOffset, sb.logStart);
    PlacedFrame(d, image, image', sb, c.base);
    SameLess(image, image', |image|, DATA_START);
    NewestFrame(d, image, image', sb);
    LogGrows(d, c.batches, ops);
    BatchParts(d, c, ops);
    LogSlice(image, record, sb.logStart, LogBytes(d, c.batches));
    assert LogBytes(d, c.batches) + record + [] == LogBytes(d, c.batches) + record;
    HeldFromParts(d, image', sb, WithBatch(c, ops), []);
  }

  lemma BatchParts(d: Digests, c: Content, ops: seq<Op>)
    requires StorableLog(c.batches) && StorableBatch(ops)
    ensures WithBatch(c, ops).base == c.base && WithBatch(c, ops).batches == c.batches + [ops]
    ensures StorableLog(c.batches + [ops])
    ensures Quiet(d, [])
  {
    hide StorableBatch;
  }

  lemma LogSlice(image: Bytes, record: Bytes, at: nat, log: Bytes)
    requires at <= |image| && image[at..] == log + []
    ensures (image + record)[at..] == log + record
  {
    assert log + [] == log;
  }

  lemma LogGrows(d: Digests, batches: seq<seq<Op>>, ops: seq<Op>)
    ensures LogBytes(d, batches + [ops]) == LogBytes(d, batches) + BatchRecord(d, ops)
  {
    hide BatchRecord, LogBytes;
    LogBytesAppend(d, batches, [ops]);
    LogBytesCons(d, ops, []);
    assert [ops] + [] == [ops];
  }

  /** An append cut anywhere leaves the log without the batch; a whole append leaves it with it. */
  lemma RecordPartHolds(d: Digests, image: Bytes, sb: Superblock, c: Content, ops: seq<Op>, data: Bytes)
    requires Holds(d, image, sb, c, []) && StorableBatch(ops) && data <= BatchRecord(d, ops)
    ensures HoldsSome(d, Patch(image, |image|, data), sb, {c, WithBatch(c, ops)})
  {
    hide Holds, StorableBatch, BatchRecord, WithBatch, Patch;
    var record := BatchRecord(d, ops);
    PatchAtEnd(image, data);
    if |data| < |record| {
      TornRecordIsQuiet(d, ops, |data|);
      assert record[..|data|] == data;
      QuietAppended(d, image, sb, c, data);
    } else {
      assert data == record;
      BatchAppended(d, image, sb, c, ops);
    }
  }

  lemma CommitIsSafe(d: Digests, disk: Disk, sb: Superblock, c: Content, ops: seq<Op>, data: Bytes)
    requires Ready(d, disk, sb, c) && StorableBatch(ops) && data <= BatchRecord(d, ops)
    ensures Safe(d, disk.(pending := disk.pending + [Write(|Image(disk)|, data)]), sb, {c, WithBatch(c, ops)})
  {
    hide Ready, Holds, HoldsSome, StorableBatch, BatchRecord, Patch, Safe, WithBatch, Image;
    var cs, io := {c, WithBatch(c, ops)}, Write(|Image(disk)|, data);
    ReadyIsSafe(d, disk, sb, c, cs);
    ReadyImage(d, disk, sb, c);
    forall part | PartOf(part, io)
      ensures HoldsSome(d, Do(Image(disk), part), sb, cs)
    {
      RecordPartHolds(d, Image(disk), sb, c, ops, part.data);
    }
    SafeWithOneMore(d, disk, io, sb, cs);
  }

  /** Cutting the file back to an image that holds one of the contents. */
  lemma TruncationIsSafe(d: Digests, disk: Disk, sb: Superblock, cs: set<Content>, len: nat)
    requires Safe(d, disk, sb, cs) && HoldsSome(d, Resize(Image(disk), len), sb, cs)
    ensures Safe(d, disk.(pending := disk.pending + [SetLen(len)]), sb, cs)
  {
    hide HoldsSome, Safe, Resize, Image;
    SafeWithOneMore(d, disk, SetLen(len), sb, cs);
  }

  // --------------------------------------------------- staging behind a marker

  /** `image` is `before`, a compact marker, and anything behind it. */
  predicate BehindMarker(d: Digests, before: Bytes, image: Bytes) {
    before + CompactMarker(d) <= image
  }

  lemma BehindMarkerHolds(d: Digests, before: Bytes, image: Bytes, sb: Superblock, c: Content)
    requires Holds(d, before, sb, c, []) && BehindMarker(d, before, image)
    ensures HoldsSome(d, image, sb, {c})
    ensures Holds(d, image, sb, c, image[|before|..])
  {
    hide Holds, CompactMarker;
    var junk := image[|before| + Log.HEADER_SIZE..];
    assert image[|before|..] == CompactMarker(d) + junk;
    MarkerIsQuiet(d, junk);
    QuietAppended(d, before, sb, c, image[|before|..]);
    assert image == before + image[|before|..];
  }

  lemma MarkerIsSafe(d: Digests, disk: Disk, sb: Superblock, c: Content, data: Bytes)
    requires Ready(d, disk, sb, c) && data <= CompactMarker(d)
    ensures Safe(d, disk.(pending := disk.pending + [Write(|Image(disk)|, data)]), sb, {c})
  {
    hide Ready, Holds, HoldsSome, CompactMarker, Patch, Safe, Image;
    var io := Write(|Image(disk)|, data);
    ReadyIsSafe(d, disk, sb, c, {c});
    ReadyImage(d, disk, sb, c);
    forall part | PartOf(part, io)
      ensures HoldsSome(d, Do(Image(disk), part), sb, {c})
    {
      PatchAtEnd(Image(disk), part.data);
      MarkerPartHolds(d, Image(disk), sb, c, part.data);
    }
    SafeWithOneMore(d, disk, io, sb, {c});
  }

  lemma MarkerPartHolds(d: Digests, image: Bytes, sb: Superblock, c: Content, data: Bytes)
    requires Holds(d, image, sb, c, []) && data <= CompactMarker(d)
    ensures HoldsSome(d, image + data, sb, {c})
  {
    hide Holds, CompactMarker;
    if |data| < Log.HEADER_SIZE {
      QuietAppended(d, image, sb, c, data);
    } else {
      assert data == CompactMarker(d);
      BehindMarkerHolds(d, image, image + data, sb, c);
    }
  }

  /** Writes behind the marker are invisible to recovery, whole or torn. */
  lemma StagingIsSafe(d: Digests, disk: Disk, io: Io, before: Bytes, sb: Superblock, c: Content)
    requires Safe(d, disk, sb, {c}) && Holds(d, before, sb, c, []) && BehindMarker(d, before, Image(disk))
    requires io.Write? && |before| + Log.HEADER_SIZE <= io.offset
    ensures Safe(d, disk.(pending := disk.pending + [io]), sb, {c})
    ensures BehindMarker(d, before, Do(Image(disk), io))
  {
    hide Holds, HoldsSome, CompactMarker, Safe, Image;
    forall part | PartOf(part, io)
      ensures HoldsSome(d, Do(Image(disk), part), sb, {c})
      ensures BehindMarker(d, before, Do(Image(disk), part))
    {
      BehindMarkerHolds(d, before, Do(Image(disk), part), sb, c);
    }
    assert PartOf(io, io);
    SafeWithOneMore(d, disk, io, sb, {c});
  }

  // ---------------------------------------------------------- publishing a root

  /** Only the bytes of one root page may differ. */
  ghost predicate OnlyPage(image: Bytes, other: Bytes, slot: nat) {
    && |other| == |image| && DATA_START <= |image|
    && forall i :: 0 <= i < |image| && !(slot * PAGE_SIZE <= i < (slot + 1) * PAGE_SIZE) ==> other[i] == image[i]
  }

  function PageWrite(slot: nat, data: Bytes): Io {
    Write(slot * PAGE_SIZE, data)
  }

  lemma PageLoss(durable: Bytes, slot: nat, data: Bytes, image: Bytes)
    requires slot < 2 && |data| <= PAGE_SIZE && DATA_START <= |durable|
    requires LosesTo(Disk(durable, [PageWrite(slot, data)]), image)
    ensures OnlyPage(durable, image, slot)
  {
    var disk := Disk(durable, [PageWrite(slot, data)]);
    assert disk.pending[..0] == [];
    assert Shortest(|durable|, []) == |durable| == Longest(|durable|, []);
    forall i | 0 <= i < |image| && !(slot * PAGE_SIZE <= i < (slot + 1) * PAGE_SIZE)
      ensures image[i] == durable[i]
    {
      assert MayHold(disk, i, image[i]);
    }
  }

  /** A page write leaves Base and log where they are. */
  lemma StoredAcrossPages(d: Digests, image: Bytes, other: Bytes, slot: nat, sb: Superblock, c: Content, tail: Bytes)
    requires Stored(d, image, sb, c, tail) && slot < 2 && OnlyPage(image, other, slot)
    ensures Stored(d, other, sb, c, tail)
  {
    hide Placed, Quiet, LogBytes, StorableLog, Size, BaseRange, BaseBytes;
    PlacedFits(d, image, sb, c.base);
    assert image[sb.baseOffset..sb.logStart] == other[sb.baseOffset..sb.logStart];
    PlacedFrame(d, image, other, sb, c.base);
    assert image[sb.logStart..] == other[sb.logStart..];
  }

  lemma OtherPageSame(d: Digests, image: Bytes, other: Bytes, slot: nat)
    requires slot < 2 && OnlyPage(image, other, slot)
    ensures RootAt(d, other, 1 - slot) == RootAt(d, image, 1 - slot)
  {
    hide RootAt;
    var keep := 1 - slot;
    assert image[keep * PAGE_SIZE..(keep + 1) * PAGE_SIZE] == other[keep * PAGE_SIZE..(keep + 1) * PAGE_SIZE];
    SamePagesSameRoots(d, image, other, keep);
  }

  /** No root written so far competes with `sb`. */
  ghost predicate Settled(roots: set<Superblock>, sb: Superblock) {
    forall r :: r in roots ==> r == sb || r.generation < sb.generation
  }

  /** A torn write of the next root leaves the current one in charge or puts the next one in charge. */
  lemma TornRootHolds(d: Digests, image: Bytes, other: Bytes, roots: set<Superblock>,
                      sb: Superblock, c: Content, tail: Bytes, sb': Superblock, c': Content, tail': Bytes)
    requires Holds(d, image, sb, c, tail) && Stored(d, image, sb', c', tail')
    requires sb'.generation == sb.generation + 1 && Settled(roots, sb)
    requires OnlyPage(image, other, PageOf(sb'.generation)) && GenuinePages(d, image, other, roots + {sb'})
    ensures Holds(d, other, sb, c, tail) || Holds(d, other, sb', c', tail')
  {
    hide Stored, RootAt, OnlyPage;
    var slot := PageOf(sb'.generation);
    assert 1 - slot == PageOf(sb.generation);
    StoredAcrossPages(d, image, other, slot, sb, c, tail);
    StoredAcrossPages(d, image, other, slot, sb', c', tail');
    OtherPageSame(d, image, other, slot);
  }

  /** Publishing the next root: before, during and after the page write the map is the same. */
  lemma PublishSurvivesLoss(d: Digests, durable: Bytes, roots: set<Superblock>, data: Bytes,
                            sb: Superblock, c: Content, tail: Bytes, sb': Superblock, c': Content, tail': Bytes)
    requires Holds(d, durable, sb, c, tail) && Stored(d, durable, sb', c', tail')
    requires sb'.generation == sb.generation + 1 && Settled(roots, sb)
    requires Meaning(c) == Meaning(c') && |data| <= PAGE_SIZE && DATA_START <= |durable|
    ensures SurvivesLoss(d, Moment(Disk(durable, [PageWrite(PageOf(sb'.generation), data)]), roots + {sb'}), Meaning(c))
  {
    hide Holds, Stored, LosesTo, GenuinePages, RecoversTo, Meaning, OnlyPage, Settled, PageOf, PageWrite;
    var slot := PageOf(sb'.generation);
    forall image |
      LosesTo(Disk(durable, [PageWrite(slot, data)]), image) && GenuinePages(d, durable, image, roots + {sb'})
      ensures RecoversTo(d, image, Meaning(c))
    {
      PageLoss(durable, slot, data, image);
      TornRootHolds(d, durable, image, roots, sb, c, tail, sb', c', tail');
      if Holds(d, image, sb, c, tail) {
        HeldOpens(d, image, sb, c, tail);
      } else {
        HeldOpens(d, image, sb', c', tail');
      }
    }
  }

  lemma PagePatched(image: Bytes, slot: nat, page: Bytes)
    requires slot < 2 && |page| == PAGE_SIZE && DATA_START <= |image|
    ensures OnlyPage(image, Patch(image, slot * PAGE_SIZE, page), slot)
    ensures Patch(image, slot * PAGE_SIZE, page)[slot * PAGE_SIZE..(slot + 1) * PAGE_SIZE] == page
  {
  }

  lemma RootPatched(d: Digests, image: Bytes, slot: nat, sb: Superblock)
    requires slot < 2 && DATA_START <= |image|
    ensures RootAt(d, Patch(image, slot * PAGE_SIZE, EncodePage(d, sb)), slot) == Fields(sb)
  {
    hide EncodePage, ReadRoot, Patch;
    PagePatched(image, slot, EncodePage(d, sb));
    PageReadsBack(d, sb);
  }

  /** Once written whole, the next root is the one opening selects. */
  lemma PublishedHolds(d: Digests, image: Bytes, sb: Superblock, c: Content, tail: Bytes, sb': Superblock,
                       c': Content, tail': Bytes)
    requires Holds(d, image, sb, c, tail) && Stored(d, image, sb', c', tail')
    requires sb'.generation == sb.generation + 1 && DATA_START <= |image|
    ensures Holds(d, Do(image, PageWrite(PageOf(sb'.generation), EncodePage(d, sb'))), sb', c', tail')
  {
    hide Stored, RootAt, OnlyPage, EncodePage, Patch;
    var slot := PageOf(sb'.generation);
    assert 1 - slot == PageOf(sb.generation);
    var image' := Patch(image, slot * PAGE_SIZE, EncodePage(d, sb'));
    PagePatched(image, slot, EncodePage(d, sb'));
    StoredAcrossPages(d, image, image', slot, sb', c', tail');
    OtherPageSame(d, image, image', slot);
    RootPatched(d, image, slot, sb');
  }

  /** Writing a second copy of the active root never endangers the first. */
  lemma CopySurvivesLoss(d: Digests, durable: Bytes, roots: set<Superblock>, data: Bytes, sb: Superblock, c: Content,
                         tail: Bytes)
    requires Holds(d, durable, sb, c, tail) && Settled(roots, sb)
    requires |data| <= PAGE_SIZE && DATA_START <= |durable|
    ensures SurvivesLoss(d, Moment(Disk(durable, [PageWrite(1 - PageOf(sb.generation), data)]), roots), Meaning(c))
  {
    hide Stored, LosesTo, RecoversTo, Meaning, OnlyPage, PageWrite, RootAt;
    var slot := 1 - PageOf(sb.generation);
    forall image | LosesTo(Disk(durable, [PageWrite(slot, data)]), image) && GenuinePages(d, durable, image, roots)
      ensures RecoversTo(d, image, Meaning(c))
    {
      PageLoss(durable, slot, data, image);
      StoredAcrossPages(d, durable, image, slot, sb, c, tail);
      OtherPageSame(d, durable, image, slot);
      HeldOpens(d, image, sb, c, tail);
    }
  }

  lemma CopiedHolds(d: Digests, image: Bytes, sb: Superblock, c: Content, tail: Bytes)
    requires Holds(d, image, sb, c, tail) && DATA_START <= |image|
    ensures Holds(d, Do(image, PageWrite(1 - PageOf(sb.generation), EncodePage(d, sb))), sb, c, tail)
  {
    hide Stored, RootAt, OnlyPage, EncodePage, Patch;
    var slot := 1 - PageOf(sb.generation);
    var image' := Patch(image, slot * PAGE_SIZE, EncodePage(d, sb));
    PagePatched(image, slot, EncodePage(d, sb));
    StoredAcrossPages(d, image, image', slot, sb, c, tail);
    OtherPageSame(d, image, image', slot);
    RootPatched(d, image, slot, sb);
  }

  // -------------------------------------------------------------- writing a Base

  lemma AtPatched(image: Bytes, offset: nat, data: Bytes, i: nat)
    ensures ByteAt(Patch(image, offset, data), i) ==
            if offset <= i < offset + |data| then data[i - offset] else ByteAt(image, i)
  {
  }

  lemma PatchKeeps(image: Bytes, offset: nat, data: Bytes, lo: nat, hi: nat)
    requires lo <= hi <= |image| && (hi <= offset || offset + |data| <= lo)
    ensures Patch(image, offset, data)[lo..hi] == image[lo..hi]
  {
  }

  /** Three writes lay down records, head and checksums of one contiguous segment. */
  function SegmentWritten(image: Bytes, start: nat, head: Bytes, records: Bytes, metadata: Bytes): Bytes {
    Patch(Patch(Patch(image, start + |head|, records), start, head), start + |head| + |records|, metadata)
  }

  lemma SegmentWrittenBytes(image: Bytes, start: nat, head: Bytes, records: Bytes, metadata: Bytes)
    requires head != [] && metadata != []
    ensures var m, r := head + records + metadata, SegmentWritten(image, start, head, records, metadata);
            && |r| == (if |image| <= start + |m| then start + |m| else |image|)
            && r[start..start + |m|] == m
            && forall i :: 0 <= i < |r| && !(start <= i < start + |m|) ==> r[i] == ByteAt(image, i)
  {
    hide Patch, ByteAt;
    var m, r := head + records + metadata, SegmentWritten(image, start, head, records, metadata);
    var one := Patch(image, start + |head|, records);
    var two := Patch(one, start, head);
    forall i | 0 <= i < |r|
      ensures r[i] == if start <= i < start + |m| then m[i - start] else ByteAt(image, i)
    {
      InBounds(r, i);
      AtPatched(image, start + |head|, records, i);
      AtPatched(one, start, head, i);
      AtPatched(two, start + |head| + |records|, metadata, i);
    }
  }

  lemma InBounds(image: Bytes, i: nat)
    requires i < |image|
    ensures ByteAt(image, i) == image[i]
  {
  }

  lemma BaseSplits(d: Digests, b: Base)
    requires Valid(d, b)
    ensures BaseBytes(d, b) == Head(d, b) + RecordsBytes(b.entries) + Metadata(d, Data(d, b))
    ensures Head(d, b) != [] && Metadata(d, Data(d, b)) != [] && |BaseBytes(d, b)| == Size(b)
  {
  }

  lemma PlacedWhenWritten(d: Digests, image: Bytes, generation: U64, b: Base)
    requires Valid(d, b) && DATA_START <= b.start
    requires b.start + Size(b) <= |image| && image[b.start..b.start + Size(b)] == BaseBytes(d, b)
    ensures Placed(d, image, RootOf(d, generation, b), b)
    ensures var sb := RootOf(d, generation, b);
            sb.generation == generation && sb.baseOffset == b.start && sb.logStart == b.start + Size(b)
  {
    hide BaseBytes, Size, Metadata, Data;
  }

  /** A staging Base written past the end of the file can be published with an empty log. */
  lemma StagedIsStored(d: Digests, image: Bytes, generation: U64, b: Base)
    requires Valid(d, b) && DATA_START <= b.start && |image| <= b.start
    ensures var r := SegmentWritten(image, b.start, Head(d, b), RecordsBytes(b.entries), Metadata(d, Data(d, b)));
            |r| == b.start + Size(b) && Stored(d, r, RootOf(d, generation, b), Content(b, []), [])
  {
    hide *;
    var head, records, metadata := Head(d, b), RecordsBytes(b.entries), Metadata(d, Data(d, b));
    var r := SegmentWritten(image, b.start, head, records, metadata);
    BaseSplits(d, b);
    SegmentWrittenBytes(image, b.start, head, records, metadata);
    PlacedWhenWritten(d, r, generation, b);
    EmptyLogStored(d, r, RootOf(d, generation, b), b, []);
  }

  lemma EmptyLogStored(d: Digests, image: Bytes, sb: Superblock, b: Base, tail: Bytes)
    requires Placed(d, image, sb, b) && sb.logStart <= |image| && image[sb.logStart..] == tail
    requires tail == [] || Quiet(d, tail)
    ensures Stored(d, image, sb, Content(b, []), tail)
  {
    assert LogBytes(d, []) + tail == tail;
  }

  /** A Base relocated to the front, closed by a marker, can be published with an empty log. */
  lemma RelocatedIsStored(d: Digests, image: Bytes, generation: U64, b: Base)
    requires Valid(d, b) && DATA_START <= b.start && b.start + Size(b) + Log.HEADER_SIZE <= |image|
    ensures var r := Patch(SegmentWritten(image, b.start, Head(d, b), RecordsBytes(b.entries), Metadata(d, Data(d, b))),
                           b.start + Size(b), CompactMarker(d));
            && |r| == |image|
            && CompactMarker(d) <= r[b.start + Size(b)..]
            && Stored(d, r, RootOf(d, generation, b), Content(b, []), r[b.start + Size(b)..])
  {
    hide *;
    var head, records, metadata := Head(d, b), RecordsBytes(b.entries), Metadata(d, Data(d, b));
    var q := SegmentWritten(image, b.start, head, records, metadata);
    var end, marker := b.start + Size(b), CompactMarker(d);
    BaseSplits(d, b);
    SegmentWrittenBytes(image, b.start, head, records, metadata);
    var r := Patch(q, end, marker);
    PatchKeeps(q, end, marker, b.start, end);
    PlacedWhenWritten(d, r, generation, b);
    var junk := r[end + Log.HEADER_SIZE..];
    assert r[end..] == marker + junk;
    MarkerIsQuiet(d, junk);
    EmptyLogStored(d, r, RootOf(d, generation, b), b, r[end..]);
  }

  // ------------------------------------------------------------ final truncation

  /** Cutting bytes off the end, up to the end of the log, leaves everything held. */
  lemma ShrunkHolds(d: Digests, image: Bytes, sb: Superblock, c: Content, tail: Bytes, other: Bytes)
    requires Holds(d, image, sb, c, tail)
    requires sb.logStart + |LogBytes(d, c.batches)| <= |other| <= |image| && other == image[..|other|]
    ensures sb.logStart + |LogBytes(d, c.batches)| + |tail| == |image|
    ensures Holds(d, other, sb, c, tail[..|other| - sb.logStart - |LogBytes(d, c.batches)|])
  {
    hide *;
    var end := sb.logStart + |LogBytes(d, c.batches)|;
    var n := |other| - end;
    HeldParts(d, image, sb, c, tail);
    assert image[end..] == tail by {
      SubSlice(image, sb.logStart, |image|, |LogBytes(d, c.batches)|, |image| - sb.logStart);
    }
    QuietPrefix(d, tail, n);
    assert other[end..] == tail[..n] by {
      SubSlice(image, end, |image|, 0, n);
      SubSlice(image, 0, |other|, end, |other|);
    }
    SameFrom(image, other, end);
    TailReplaced(d, image, sb, c, tail, other, tail[..n]);
  }

  lemma NoLog(d: Digests)
    ensures LogBytes(d, []) == []
  {
  }

  /** Cutting off what follows the log is safe whether or not the cut persists. */
  lemma ShrinkSurvivesLoss(d: Digests, durable: Bytes, roots: set<Superblock>, sb: Superblock, c: Content, tail: Bytes)
    requires Holds(d, durable, sb, c, tail)
    ensures SurvivesLoss(d, Moment(Disk(durable, [SetLen(sb.logStart + |LogBytes(d, c.batches)|)]), roots), Meaning(c))
  {
    hide Holds, RecoversTo, Meaning, GenuinePages, LogBytes;
    var len := sb.logStart + |LogBytes(d, c.batches)|;
    var disk := Disk(durable, [SetLen(len)]);
    LogEnds(d, durable, sb, c, tail);
    ShrunkHolds(d, durable, sb, c, tail, durable);
    forall image | LosesTo(disk, image) && GenuinePages(d, durable, image, roots)
      ensures RecoversTo(d, image, Meaning(c))
    {
      ShrinkLoss(durable, len, image);
      ShrunkHolds(d, durable, sb, c, tail, image);
      HeldOpens(d, image, sb, c, tail[..|image| - len]);
    }
  }

  lemma LogEnds(d: Digests, image: Bytes, sb: Superblock, c: Content, tail: Bytes)
    requires Holds(d, image, sb, c, tail)
    ensures sb.logStart + |LogBytes(d, c.batches)| <= |image| && image[..|image|] == image
  {
    hide *;
    HeldParts(d, image, sb, c, tail);
  }

  lemma ShrinkLoss(durable: Bytes, len: nat, image: Bytes)
    requires len <= |durable| && LosesTo(Disk(durable, [SetLen(len)]), image)
    ensures len <= |image| <= |durable| && image == durable[..|image|]
  {
    var disk := Disk(durable, [SetLen(len)]);
    assert disk.pending[..0] == [];
    assert Shortest(|durable|, []) == |durable| == Longest(|durable|, []);
    forall i | 0 <= i < |image|
      ensures image[i] == durable[i]
    {
      assert MayHold(disk, i, image[i]);
    }
  }
}
