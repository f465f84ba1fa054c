/** Lossy crashes before a sync: opening may fail, but it never shows anything else. */
module Loss {
  import opened Bytes
  import opened Log
  import opened Roots
  import opened Device
  import opened Images
  import opened CrashSafety

  /** An operation that leaves the first `n` bytes alone, except between the root pages and the active Base. */
  predicate Appending(io: Io, sb: Superblock, n: nat) {
    Inert(io, sb) || n <= (if io.Write? then io.offset else io.len)
  }

  /** The state of an append or of staging before its sync: everything pending comes after what is held. */
  ghost predicate Unsynced(d: Digests, disk: Disk, sb: Superblock, c: Content) {
    && Holds(d, disk.durable, sb, c, [])
    && forall i :: 0 <= i < |disk.pending| ==> Appending(disk.pending[i], sb, |disk.durable|)
  }

  /** An idle or relocating handle that appends, stages or cuts back to its length is in such a state. */
  lemma AppendIsUnsynced(d: Digests, disk: Disk, sb: Superblock, c: Content, ios: seq<Io>)
    requires Ready(d, disk, sb, c)
    requires forall i :: 0 <= i < |ios| ==> |Image(disk)| <= if ios[i].Write? then ios[i].offset else ios[i].len
    ensures Unsynced(d, disk.(pending := disk.pending + ios), sb, c)
  {
    hide Holds, Image;
    ReadyImage(d, disk, sb, c);
  }

  lemma {:induction false} NeverShorter(len: nat, ios: seq<Io>, sb: Superblock)
    requires forall i :: 0 <= i < |ios| ==> Appending(ios[i], sb, len)
    ensures Shortest(len, ios) == len
  {
    if ios != [] {
      NeverShorter(len, ios[..|ios| - 1], sb);
    }
  }

  lemma HeldByte(disk: Disk, sb: Superblock, i: nat, b: Byte)
    requires forall j :: 0 <= j < |disk.pending| ==> Appending(disk.pending[j], sb, |disk.durable|)
    requires i < |disk.durable| && (i < DATA_START || sb.baseOffset <= i) && MayHold(disk, i, b)
    ensures b == disk.durable[i]
  {
  }

  /** Whatever is lost, what was held is still there, followed by some bytes. */
  lemma HeldUnderLoss(d: Digests, disk: Disk, sb: Superblock, c: Content, image: Bytes)
    requires Unsynced(d, disk, sb, c) && LosesTo(disk, image)
    ensures |disk.durable| <= |image| && Holds(d, image[..|disk.durable|], sb, c, [])
  {
    hide Holds, MayHold, Shortest, Longest, Appending;
    var n := |disk.durable|;
    NeverShorter(n, disk.pending, sb);
    forall i | 0 <= i < n && (i < DATA_START || sb.baseOffset <= i)
      ensures image[..n][i] == disk.durable[i]
    {
      HeldByte(disk, sb, i, image[i]);
    }
    HeldOutside(d, disk.durable, image[..n], sb, c, []);
  }

  lemma SplitAt(image: Bytes, n: nat)
    requires n <= |image|
    ensures image == image[..n] + image[n..]
  {
  }

  /** The scan of the whole log is the batches held, then whatever the bytes behind them say. */
  lemma ScanBehind(d: Digests, image: Bytes, n: nat, sb: Superblock, c: Content)
    requires n <= |image| && Holds(d, image[..n], sb, c, [])
    ensures sb.logStart <= |image| && image[sb.logStart..] == LogBytes(d, c.batches) + image[n..]
    ensures Scan(d, image[n..]).Rejected? ==> Scan(d, image[sb.logStart..]) == Scan(d, image[n..])
  {
    hide *;
    HeldParts(d, image[..n], sb, c, []);
    LogContinues(image, n, sb.logStart, LogBytes(d, c.batches));
    EveryStorable(c.batches);
    ScanOfLog(d, c.batches, image[n..]);
  }

  lemma LogContinues(image: Bytes, n: nat, at: nat, log: Bytes)
    requires at <= n <= |image| && image[..n][at..] == log + []
    ensures image[at..] == log + image[n..]
  {
    var all := image[at..];
    forall i | 0 <= i < |all|
      ensures all[i] == (log + image[n..])[i]
    {
      if i < |log| {
        assert all[i] == image[..n][at..][i];
      }
    }
  }

  lemma EveryStorable(batches: seq<seq<Op>>)
    requires StorableLog(batches)
    ensures forall i :: 0 <= i < |batches| ==> StorableBatch(batches[i])
  {
  }

  /**
   * Any loss during an append or during staging, under the checksum hypothesis that no bytes behind
   * the log pass as a whole batch record unless that record was written: if the log scans at all,
   * the image holds what it held before, or the appended batch as well.
   */
  lemma LossNeverLies(d: Digests, disk: Disk, sb: Superblock, c: Content, ops: seq<Op>, image: Bytes)
    requires Unsynced(d, disk, sb, c) && LosesTo(disk, image) && StorableBatch(ops)
    requires |disk.durable| <= |image|
    requires var behind := image[|disk.durable|..]; ReadRecord(d, behind).Record? ==> behind == BatchRecord(d, ops)
    ensures sb.logStart <= |image|
    ensures || Scan(d, image[sb.logStart..]).Rejected?
            || Holds(d, image, sb, c, image[|disk.durable|..])
            || (ReadRecord(d, image[|disk.durable|..]).Record? && Holds(d, image, sb, WithBatch(c, ops), []))
  {
    hide Holds, Unsynced, LosesTo, Scan, ReadRecord, BatchRecord, StorableBatch, WithBatch, LogBytes;
    var n := |disk.durable|;
    var behind := image[n..];
    HeldUnderLoss(d, disk, sb, c, image);
    ScanBehind(d, image, n, sb, c);
    SplitAt(image, n);
    if ReadRecord(d, behind).Record? {
      BatchAppended(d, image[..n], sb, c, ops);
    } else {
      NoRecord(d, behind);
      if Scan(d, behind).Scanned? {
        QuietAppended(d, image[..n], sb, c, behind);
      }
    }
  }

  lemma NoRecord(d: Digests, tail: Bytes)
    requires !ReadRecord(d, tail).Record?
    ensures Scan(d, tail).Rejected? || Quiet(d, tail)
  {
    hide ReadRecord;
  }

  /** Bytes behind what is held do not change which root is selected. */
  lemma RootStays(d: Digests, image: Bytes, n: nat, sb: Superblock, c: Content)
    requires n <= |image| && Holds(d, image[..n], sb, c, [])
    ensures Latest(d, image) == Found(sb)
  {
    hide *;
    HeldParts(d, image[..n], sb, c, []);
    PlacedFits(d, image[..n], sb, c.base);
    PrefixSame(image, n);
    NewestFrame(d, image[..n], image, sb);
    FitsMore(sb, n, |image|);
    NewestIsLatest(d, image, sb);
  }

  lemma PrefixSame(image: Bytes, n: nat)
    requires n <= |image|
    ensures DATA_START <= n ==> SameUpTo(image[..n], image, DATA_START)
  {
  }

  lemma FitsMore(sb: Superblock, n: nat, len: nat)
    requires Fits(sb, n) && n <= len
    ensures Fits(sb, len)
  {
  }

  // ------------------------------------------------------------ device states that never lie

  /**
   * The checksum hypothesis on the log: a batch record that passes its checksums right behind the
   * durable bytes was written there as a whole.
   */
  predicate GenuineTail(d: Digests, disk: Disk, image: Bytes) {
    |disk.durable| <= |image| && ReadRecord(d, image[|disk.durable|..]).Record? ==>
      exists i :: 0 <= i < |disk.pending| && WroteRecord(d, disk, image, disk.pending[i])
  }

  predicate WroteRecord(d: Digests, disk: Disk, image: Bytes, io: Io)
    requires |disk.durable| <= |image| && ReadRecord(d, image[|disk.durable|..]).Record?
  {
    var behind := image[|disk.durable|..];
    io.Write? && io.offset == |disk.durable| && behind[..ReadRecord(d, behind).end] <= io.data
  }

  /** An image that a loss at this instant may leave and that respects the checksum hypotheses. */
  ghost predicate Genuine(d: Digests, t: Moment, image: Bytes) {
    LosesTo(t.disk, image) && GenuinePages(d, t.disk.durable, image, t.roots) && GenuineTail(d, t.disk, image)
  }

  /** After any loss of unsynced bytes, an opening that succeeds shows one of the two maps. */
  ghost predicate NeverLies(d: Digests, t: Moment, a: map<Bytes, Bytes>, b: map<Bytes, Bytes>) {
    forall image :: Genuine(d, t, image) && Opens(d, image) ==>
      RecoversTo(d, image, a) || RecoversTo(d, image, b)
  }

  /** The log behind `sb` is refused as corrupt. */
  ghost predicate Refused(d: Digests, image: Bytes, sb: Superblock) {
    Latest(d, image) == Found(sb) && sb.logStart <= |image| && Scan(d, image[sb.logStart..]).Rejected?
  }

  /** Any loss leaves an image that is refused or that holds one of the contents. */
  ghost predicate Frank(d: Digests, disk: Disk, sb: Superblock, cs: set<Content>) {
    forall image :: LosesTo(disk, image) && GenuineTail(d, disk, image) ==>
      Refused(d, image, sb) || HoldsSome(d, image, sb, cs)
  }

  /** Ordered crashes leave one of the contents; arbitrary losses leave one of them or are noticed. */
  ghost predicate Guarded(d: Digests, disk: Disk, sb: Superblock, cs: set<Content>) {
    Safe(d, disk, sb, cs) && Frank(d, disk, sb, cs)
  }

  lemma FrankNeverLies(d: Digests, t: Moment, sb: Superblock, cs: set<Content>, a: map<Bytes, Bytes>,
                       b: map<Bytes, Bytes>)
    requires Frank(d, t.disk, sb, cs) && forall c :: c in cs ==> Meaning(c) == a || Meaning(c) == b
    ensures NeverLies(d, t, a, b)
  {
    hide LosesTo, GenuineTail, GenuinePages, RecoversTo, Opens, Refused, HoldsSome, Meaning;
    forall image | Genuine(d, t, image) && Opens(d, image)
      ensures RecoversTo(d, image, a) || RecoversTo(d, image, b)
    {
      RefusedIsClosed(d, image, sb);
      HeldRecovers(d, image, sb, cs, a, b);
    }
  }

  lemma RefusedIsClosed(d: Digests, image: Bytes, sb: Superblock)
    ensures Refused(d, image, sb) ==> !Opens(d, image)
  {
    hide Latest, Scan, AcceptsMetadata;
  }

  lemma HeldRecovers(d: Digests, image: Bytes, sb: Superblock, cs: set<Content>, a: map<Bytes, Bytes>,
                     b: map<Bytes, Bytes>)
    requires forall c :: c in cs ==> Meaning(c) == a || Meaning(c) == b
    ensures HoldsSome(d, image, sb, cs) ==> RecoversTo(d, image, a) || RecoversTo(d, image, b)
  {
    hide Holds, RecoversTo, Meaning;
    if HoldsSome(d, image, sb, cs) {
      var c, tail :| c in cs && Holds(d, image, sb, c, tail);
      HeldOpens(d, image, sb, c, tail);
    }
  }

  lemma LossNeverLiesEither(d: Digests, t: Moment, m: map<Bytes, Bytes>)
    requires SurvivesLoss(d, t, m)
    ensures NeverLies(d, t, m, m)
  {
    hide LosesTo, GenuineTail, GenuinePages, RecoversTo, Opens;
  }

  // ------------------------------------------------------------- appends and staging

  /** What a commit leaves pending: parts of one record at the end of the file, and cut-backs to it. */
  predicate RecordIo(d: Digests, io: Io, n: nat, ops: seq<Op>) {
    match io
    case Write(offset, data) => offset == n && data <= BatchRecord(d, ops)
    case SetLen(len) => len == n
  }

  /** What staging leaves pending: a marker at the end of the file, anything behind it, and cut-backs. */
  predicate StagingIo(d: Digests, io: Io, n: nat) {
    match io
    case Write(offset, data) => n <= offset && (offset == n ==> data <= CompactMarker(d))
    case SetLen(len) => len == n
  }

  /** The operation writes nothing at or behind position `n`. */
  predicate Below(io: Io, n: nat) {
    io.SetLen? || io.offset + |io.data| <= n
  }

  /** Behind the durable bytes nothing is pending but parts of one batch record. */
  ghost predicate RecordTail(d: Digests, disk: Disk, ops: seq<Op>) {
    && StorableBatch(ops)
    && forall i :: 0 <= i < |disk.pending| ==>
         Below(disk.pending[i], |disk.durable|) || RecordIo(d, disk.pending[i], |disk.durable|, ops)
  }

  /** Behind the durable bytes nothing is pending but parts of staging. */
  ghost predicate StagingTail(d: Digests, disk: Disk) {
    forall i :: 0 <= i < |disk.pending| ==>
      Below(disk.pending[i], |disk.durable|) || StagingIo(d, disk.pending[i], |disk.durable|)
  }

  ghost predicate KnownTail(d: Digests, disk: Disk) {
    StagingTail(d, disk) || exists ops :: RecordTail(d, disk, ops)
  }

  /** All that is pending is part of a page, of one record or of staging: only what is torn can be forged. */
  ghost predicate Known(d: Digests, t: Moment) {
    KnownPages(d, t) && KnownTail(d, t.disk)
  }

  /** The same, and no root page is being written. */
  ghost predicate Tidy(d: Digests, disk: Disk) {
    Idle(disk) && KnownTail(d, disk)
  }

  lemma TidyIsKnown(d: Digests, t: Moment)
    requires Tidy(d, t.disk)
    ensures Known(d, t)
  {
    hide KnownTail;
    IdleIsKnown(d, t);
  }

  lemma TidyCut(d: Digests, disk: Disk, len: nat)
    requires Tidy(d, disk) && DATA_START <= len
    ensures Tidy(d, disk.(pending := disk.pending + [SetLen(len)]))
  {
    hide BatchRecord, CompactMarker, StorableBatch;
    IdleStep(disk, SetLen(len));
    var disk' := disk.(pending := disk.pending + [SetLen(len)]);
    if StagingTail(d, disk) {
      assert StagingTail(d, disk');
    } else {
      var ops :| RecordTail(d, disk, ops);
      assert RecordTail(d, disk', ops);
    }
  }

  lemma TidySynced(d: Digests, disk: Disk, now: Disk)
    requires Tidy(d, disk) && (now == disk || now == Disk(Image(disk), []))
    ensures Tidy(d, now)
  {
    hide Image, Idle;
    IdleSynced(disk, now);
    assert now != disk ==> StagingTail(d, now);
  }

  lemma TidyReady(d: Digests, disk: Disk, sb: Superblock, c: Content)
    requires Ready(d, disk, sb, c)
    ensures Tidy(d, disk) && DATA_START <= |Image(disk)| && sb.baseOffset <= |disk.durable|
  {
    hide Holds, Image, Placed, Newest, StorableLog, Quiet, LogBytes, BatchRecord, StorableBatch, CompactMarker;
    ReadyImage(d, disk, sb, c);
    HeldParts(d, disk.durable, sb, c, []);
    assert StagingTail(d, disk);
  }

  lemma TidyRecord(d: Digests, disk: Disk, sb: Superblock, c: Content, ops: seq<Op>, data: Bytes)
    requires Ready(d, disk, sb, c) && StorableBatch(ops) && data <= BatchRecord(d, ops)
    ensures Tidy(d, disk.(pending := disk.pending + [Write(|Image(disk)|, data)]))
  {
    hide Holds, Image, BatchRecord, StorableBatch, Idle;
    TidyReady(d, disk, sb, c);
    ReadyImage(d, disk, sb, c);
    IdleStep(disk, Write(|Image(disk)|, data));
    assert RecordTail(d, disk.(pending := disk.pending + [Write(|Image(disk)|, data)]), ops);
  }

  lemma TidyStaging(d: Digests, base: Disk, disk: Disk, sb: Superblock, c: Content)
    requires Ready(d, base, sb, c) && Staging(d, base, disk) && Idle(disk)
    ensures Tidy(d, disk)
  {
    hide Holds, Image, CompactMarker, Idle;
    TidyReady(d, base, sb, c);
    ReadyImage(d, base, sb, c);
    assert StagingTail(d, disk);
  }

  lemma KnownPage(d: Digests, durable: Bytes, slot: nat, data: Bytes, roots: set<Superblock>, sb: Superblock)
    requires slot < 2 && data <= EncodePage(d, sb) && sb in roots && DATA_START <= |durable|
    ensures Known(d, Moment(Disk(durable, [PageWrite(slot, data)]), roots))
  {
    hide EncodePage;
    assert WritesRoot(d, PageWrite(slot, data), slot, sb);
    assert StagingTail(d, Disk(durable, [PageWrite(slot, data)]));
  }

  lemma KnownSynced(d: Digests, t: Moment)
    requires t.disk.pending == []
    ensures Known(d, t)
  {
    assert StagingTail(d, t.disk);
  }

  /** A whole record at the front of a record is that record. */
  lemma RecordInRecord(d: Digests, s: Bytes, ops: seq<Op>)
    requires StorableBatch(ops) && ReadRecord(d, s).Record? && s[..ReadRecord(d, s).end] <= BatchRecord(d, ops)
    ensures s[..ReadRecord(d, s).end] == BatchRecord(d, ops)
  {
    hide ReadRecord, BatchRecord, StorableBatch;
    var r := ReadRecord(d, s);
    ReadRecordIsCanonical(d, s);
    var x := BatchRecord(d, ops)[r.end..];
    assert BatchRecord(d, ops) == BatchRecord(d, r.ops) + x;
    assert BatchRecord(d, ops) + [] == BatchRecord(d, ops);
    ReadOfRecord(d, r.ops, x);
    ReadOfRecord(d, ops, []);
  }

  lemma NoRecordInMarker(d: Digests, s: Bytes, data: Bytes)
    requires ReadRecord(d, s).Record? && data <= CompactMarker(d)
    ensures !(s[..ReadRecord(d, s).end] <= data)
  {
    hide ReadRecord, CompactMarker, StorableBatch;
    ReadRecordIsCanonical(d, s);
    BatchLonger(d, ReadRecord(d, s).ops);
  }

  lemma BatchLonger(d: Digests, ops: seq<Op>)
    ensures |BatchRecord(d, ops)| > Log.HEADER_SIZE
  {
  }

  lemma {:induction false} LongestAppend(disk: Disk, sb: Superblock, ios: seq<Io>, n: nat, d: Digests, ops: seq<Op>)
    requires |disk.durable| == n && sb.baseOffset <= n
    requires (forall i :: 0 <= i < |disk.pending| ==> Inert(disk.pending[i], sb))
    requires forall i :: 0 <= i < |ios| ==> RecordIo(d, ios[i], n, ops)
    ensures Longest(n, disk.pending + ios) <= n + |BatchRecord(d, ops)|
  {
    hide BatchRecord;
    if ios == [] {
      InertLengths(n, disk.pending, sb);
      assert disk.pending + ios == disk.pending;
    } else {
      var k := |ios| - 1;
      LongestAppend(disk, sb, ios[..k], n, d, ops);
      assert (disk.pending + ios)[..|disk.pending| + k] == disk.pending + ios[..k];
      assert (disk.pending + ios)[|disk.pending| + k] == ios[k];
    }
  }

  /** A record found behind the durable bytes can only come from the operations of the append. */
  lemma WhoWrote(d: Digests, disk: Disk, sb: Superblock, c: Content, ios: seq<Io>, image: Bytes) returns (i: nat)
    requires Ready(d, disk, sb, c) && |disk.durable| <= |image| && ReadRecord(d, image[|disk.durable|..]).Record?
    requires GenuineTail(d, disk.(pending := disk.pending + ios), image)
    ensures i < |ios| && WroteRecord(d, disk, image, ios[i])
  {
    hide Holds, ReadRecord;
    var all := disk.pending + ios;
    var j :| 0 <= j < |all| && WroteRecord(d, disk.(pending := all), image, all[j]);
    if j < |disk.pending| {
      assert Inert(all[j], sb);
      BaseBelowEnd(d, disk.durable, sb, c);
      assert false;
    }
    i := j - |disk.pending|;
    assert all[j] == ios[i];
  }

  lemma BaseBelowEnd(d: Digests, image: Bytes, sb: Superblock, c: Content)
    requires Holds(d, image, sb, c, [])
    ensures sb.baseOffset < |image|
  {
    hide *;
    HeldParts(d, image, sb, c, []);
    PlacedFits(d, image, sb, c.base);
    NotEmpty(sb, |image|);
  }

  lemma NotEmpty(sb: Superblock, n: nat)
    requires Fits(sb, n)
    ensures sb.baseOffset < n
  {
  }

  lemma AppendedRecord(d: Digests, disk: Disk, sb: Superblock, c: Content, ops: seq<Op>, ios: seq<Io>, image: Bytes)
    requires Ready(d, disk, sb, c) && StorableBatch(ops) && forall i :: 0 <= i < |ios| ==>
               RecordIo(d, ios[i], |disk.durable|, ops)
    requires |disk.durable| <= |image| && LosesTo(disk.(pending := disk.pending + ios), image)
    requires GenuineTail(d, disk.(pending := disk.pending + ios), image)
    ensures ReadRecord(d, image[|disk.durable|..]).Record? ==> image[|disk.durable|..] == BatchRecord(d, ops)
  {
    hide Holds, ReadRecord, BatchRecord, StorableBatch, GenuineTail, MayHold;
    var n := |disk.durable|;
    if ReadRecord(d, image[n..]).Record? {
      var i := WhoWrote(d, disk, sb, c, ios, image);
      RecordInRecord(d, image[n..], ops);
      BaseBelowEnd(d, disk.durable, sb, c);
      LongestAppend(disk, sb, ios, n, d, ops);
    }
  }

  lemma FrankAppend(d: Digests, disk: Disk, sb: Superblock, c: Content, ops: seq<Op>, ios: seq<Io>)
    requires Ready(d, disk, sb, c) && StorableBatch(ops) && forall i :: 0 <= i < |ios| ==>
               RecordIo(d, ios[i], |Image(disk)|, ops)
    ensures Frank(d, disk.(pending := disk.pending + ios), sb, {c, WithBatch(c, ops)})
  {
    hide Holds, ReadRecord, BatchRecord, StorableBatch, GenuineTail, LosesTo, Image, WithBatch, Unsynced, Latest, Scan;
    var disk' := disk.(pending := disk.pending + ios);
    ReadyImage(d, disk, sb, c);
    AppendIsUnsynced(d, disk, sb, c, ios);
    forall image | LosesTo(disk', image) && GenuineTail(d, disk', image)
      ensures Refused(d, image, sb) || HoldsSome(d, image, sb, {c, WithBatch(c, ops)})
    {
      HeldUnderLoss(d, disk', sb, c, image);
      AppendedRecord(d, disk, sb, c, ops, ios, image);
      RootStays(d, image, |disk.durable|, sb, c);
      LossNeverLies(d, disk', sb, c, ops, image);
    }
  }

  lemma FrankStaging(d: Digests, disk: Disk, sb: Superblock, c: Content, ios: seq<Io>)
    requires Ready(d, disk, sb, c) && forall i :: 0 <= i < |ios| ==> StagingIo(d, ios[i], |Image(disk)|)
    ensures Frank(d, disk.(pending := disk.pending + ios), sb, {c})
  {
    hide Holds, ReadRecord, BatchRecord, StorableBatch, GenuineTail, LosesTo, Image, WithBatch, Unsynced, Latest,
         Scan, CompactMarker;
    var disk' := disk.(pending := disk.pending + ios);
    ReadyImage(d, disk, sb, c);
    AppendIsUnsynced(d, disk, sb, c, ios);
    EmptyBatchStorable();
    forall image | LosesTo(disk', image) && GenuineTail(d, disk', image)
      ensures Refused(d, image, sb) || HoldsSome(d, image, sb, {c})
    {
      HeldUnderLoss(d, disk', sb, c, image);
      var n := |disk.durable|;
      if ReadRecord(d, image[n..]).Record? {
        var i := WhoWrote(d, disk, sb, c, ios, image);
        NoRecordInMarker(d, image[n..], ios[i].data);
        assert false;
      }
      RootStays(d, image, n, sb, c);
      LossNeverLies(d, disk', sb, c, [], image);
    }
  }

  lemma EmptyBatchStorable()
    ensures StorableBatch([])
  {
  }

  /** Cutting a synced file back, where every shorter version still holds one of the contents. */
  lemma FrankCut(d: Digests, durable: Bytes, len: nat, sb: Superblock, cs: set<Content>)
    requires len <= |durable| && forall n :: len <= n <= |durable| ==> HoldsSome(d, durable[..n], sb, cs)
    ensures Frank(d, Disk(durable, [SetLen(len)]), sb, cs)
  {
    hide HoldsSome, GenuineTail, Refused;
    forall image | LosesTo(Disk(durable, [SetLen(len)]), image)
      ensures HoldsSome(d, image, sb, cs)
    {
      ShrinkLoss(durable, len, image);
    }
  }

  lemma FrankSynced(d: Digests, disk: Disk, sb: Superblock, cs: set<Content>)
    requires disk.pending == [] && Safe(d, disk, sb, cs)
    ensures Frank(d, disk, sb, cs)
  {
    hide HoldsSome, GenuineTail, Refused;
    forall image | LosesTo(disk, image)
      ensures HoldsSome(d, image, sb, cs)
    {
      NothingPending(disk, image);
      assert CrashesTo(disk, Image(disk));
    }
  }

  lemma NothingPending(disk: Disk, image: Bytes)
    requires disk.pending == [] && LosesTo(disk, image)
    ensures image == Image(disk)
  {
    forall i | 0 <= i < |image|
      ensures image[i] == disk.durable[i]
    {
      assert MayHold(disk, i, image[i]);
    }
  }

  // ------------------------------------------------------------------ one step further

  lemma ImageStep(disk: Disk, io: Io)
    ensures Image(disk.(pending := disk.pending + [io])) == Do(Image(disk), io)
  {
    assert (disk.pending + [io])[..|disk.pending|] == disk.pending;
  }

  lemma SyncedImage(before: Disk, after: Disk)
    requires after == Disk(Image(before), []) || after == before
    ensures Image(after) == Image(before)
  {
  }

  lemma SafeAfterSync(d: Digests, before: Disk, after: Disk, sb: Superblock, cs: set<Content>)
    requires Safe(d, before, sb, cs) && (after == Disk(Image(before), []) || after == before)
    ensures Safe(d, after, sb, cs) && Image(after) == Image(before)
  {
    SyncedImage(before, after);
    hide HoldsSome, Image;
    if after != before {
      forall image | CrashesTo(after, image)
        ensures HoldsSome(d, image, sb, cs)
      {
        SyncedCrash(before, image);
        assert CrashesTo(before, image);
      }
    }
  }

  lemma SyncedCrash(before: Disk, image: Bytes)
    requires CrashesTo(Disk(Image(before), []), image)
    ensures image == Image(before)
  {
  }

  /** Cutting an append off again leaves the content it started from. */
  lemma RolledBackHolds(d: Digests, disk: Disk, sb: Superblock, c: Content, cs: set<Content>, image: Bytes)
    requires Ready(d, disk, sb, c) && c in cs && Image(disk) <= image
    ensures HoldsSome(d, Resize(image, |Image(disk)|), sb, cs)
  {
    hide Ready, Holds, Image;
    ReadyImage(d, disk, sb, c);
    assert Resize(image, |Image(disk)|) == Image(disk);
  }

  lemma ResizeIsPrefix(image: Bytes, len: nat)
    requires len <= |image|
    ensures Resize(image, len) == image[..len]
  {
  }

  lemma GuardedAfterSync(d: Digests, before: Disk, after: Disk, sb: Superblock, cs: set<Content>)
    requires Guarded(d, before, sb, cs) && (after == Disk(Image(before), []) || after == before)
    ensures Guarded(d, after, sb, cs) && Image(after) == Image(before)
  {
    hide Safe, Frank, Image;
    SafeAfterSync(d, before, after, sb, cs);
    if after != before {
      FrankSynced(d, after, sb, cs);
    }
  }

  /** A record, whole or torn, at the end of the file. */
  lemma CommitIsGuarded(d: Digests, disk: Disk, sb: Superblock, c: Content, ops: seq<Op>, data: Bytes)
    requires Ready(d, disk, sb, c) && StorableBatch(ops) && data <= BatchRecord(d, ops)
    ensures Guarded(d, disk.(pending := disk.pending + [Write(|Image(disk)|, data)]), sb, {c, WithBatch(c, ops)})
  {
    hide Ready, Safe, Frank, StorableBatch, BatchRecord, WithBatch, Image;
    CommitIsSafe(d, disk, sb, c, ops, data);
    FrankAppend(d, disk, sb, c, ops, [Write(|Image(disk)|, data)]);
  }

  /** Cutting the append off again, before its sync or after. */
  lemma CutBackIsGuarded(d: Digests, disk: Disk, sb: Superblock, c: Content, ops: seq<Op>, data: Bytes, now: Disk)
    requires Ready(d, disk, sb, c) && StorableBatch(ops) && data <= BatchRecord(d, ops)
    requires var written := disk.(pending := disk.pending + [Write(|Image(disk)|, data)]);
             now == written || now == Disk(Image(written), [])
    ensures Guarded(d, now.(pending := now.pending + [SetLen(|Image(disk)|)]), sb, {c, WithBatch(c, ops)})
  {
    hide Ready, Safe, Frank, StorableBatch, BatchRecord, WithBatch, Image, Patch, HoldsSome, Resize;
    var len, cs := |Image(disk)|, {c, WithBatch(c, ops)};
    var written := disk.(pending := disk.pending + [Write(len, data)]);
    CommitIsSafe(d, disk, sb, c, ops, data);
    SafeAfterSync(d, written, now, sb, cs);
    ImageStep(disk, Write(len, data));
    PatchAtEnd(Image(disk), data);
    RolledBackHolds(d, disk, sb, c, cs, Image(now));
    TruncationIsSafe(d, now, sb, cs, len);
    if now == written {
      assert disk.pending + [Write(len, data)] + [SetLen(len)] == disk.pending + [Write(len, data), SetLen(len)];
      FrankAppend(d, disk, sb, c, ops, [Write(len, data), SetLen(len)]);
    } else {
      assert [] + [SetLen(len)] == [SetLen(len)];
      CutRecordIsFrank(d, disk, sb, c, ops, data);
    }
  }

  lemma CutRecordIsFrank(d: Digests, disk: Disk, sb: Superblock, c: Content, ops: seq<Op>, data: Bytes)
    requires Ready(d, disk, sb, c) && StorableBatch(ops) && data <= BatchRecord(d, ops)
    ensures Frank(d, Disk(Image(disk) + data, [SetLen(|Image(disk)|)]), sb, {c, WithBatch(c, ops)})
  {
    hide *;
    var image, cs := Image(disk), {c, WithBatch(c, ops)};
    ReadyImage(d, disk, sb, c);
    forall n | |image| <= n <= |image + data|
      ensures HoldsSome(d, (image + data)[..n], sb, cs)
    {
      CutRecordHolds(d, image, sb, c, ops, data, n);
    }
    FrankCut(d, image + data, |image|, sb, cs);
  }

  lemma CutRecordHolds(d: Digests, image: Bytes, sb: Superblock, c: Content, ops: seq<Op>, data: Bytes, n: nat)
    requires Holds(d, image, sb, c, []) && StorableBatch(ops) && data <= BatchRecord(d, ops)
    requires |image| <= n <= |image + data|
    ensures HoldsSome(d, (image + data)[..n], sb, {c, WithBatch(c, ops)})
  {
    hide Holds, HoldsSome, StorableBatch, BatchRecord, WithBatch, Patch;
    var part := data[..n - |image|];
    assert part <= BatchRecord(d, ops);
    assert (image + data)[..n] == image + part;
    RecordPartHolds(d, image, sb, c, ops, part);
    PatchAtEnd(image, part);
  }

  /** `disk` is `base` with staging operations added. */
  ghost predicate Staging(d: Digests, base: Disk, disk: Disk) {
    && disk.durable == base.durable && base.pending <= disk.pending
    && forall i :: |base.pending| <= i < |disk.pending| ==> StagingIo(d, disk.pending[i], |Image(base)|)
  }

  lemma StagingMore(d: Digests, base: Disk, disk: Disk, io: Io)
    requires Staging(d, base, disk) && StagingIo(d, io, |Image(base)|)
    ensures Staging(d, base, disk.(pending := disk.pending + [io]))
  {
    hide Image, CompactMarker;
  }

  lemma StagingIsFrank(d: Digests, base: Disk, disk: Disk, sb: Superblock, c: Content)
    requires Ready(d, base, sb, c) && Staging(d, base, disk)
    ensures Frank(d, disk, sb, {c})
  {
    hide Ready, Frank, Image, StagingIo;
    var n := |base.pending|;
    var ios := disk.pending[n..];
    assert disk.pending == base.pending + ios;
    forall i | 0 <= i < |ios|
      ensures StagingIo(d, ios[i], |Image(base)|)
    {
      assert ios[i] == disk.pending[n + i];
    }
    FrankStaging(d, base, sb, c, ios);
  }

  /** Cutting staging off again, before its sync or after. */
  lemma UnstagingIsGuarded(d: Digests, base: Disk, disk: Disk, now: Disk, sb: Superblock, c: Content)
    requires Ready(d, base, sb, c) && Staging(d, base, disk) && Safe(d, disk, sb, {c}) && Image(base) <= Image(disk)
    requires now == disk || now == Disk(Image(disk), [])
    ensures Guarded(d, now.(pending := now.pending + [SetLen(|Image(base)|)]), sb, {c})
  {
    hide Ready, Safe, Frank, Image, HoldsSome, Resize, Staging;
    var len := |Image(base)|;
    SafeAfterSync(d, disk, now, sb, {c});
    RolledBackHolds(d, base, sb, c, {c}, Image(now));
    TruncationIsSafe(d, now, sb, {c}, len);
    if now == disk {
      StagingMore(d, base, disk, SetLen(len));
      StagingIsFrank(d, base, disk.(pending := disk.pending + [SetLen(len)]), sb, c);
    } else {
      assert [] + [SetLen(len)] == [SetLen(len)];
      CutStagedIsFrank(d, base, disk, sb, c);
    }
  }

  lemma CutStagedIsFrank(d: Digests, base: Disk, disk: Disk, sb: Superblock, c: Content)
    requires Ready(d, base, sb, c) && Safe(d, disk, sb, {c}) && Image(base) <= Image(disk)
    ensures Frank(d, Disk(Image(disk), [SetLen(|Image(base)|)]), sb, {c})
  {
    hide Ready, Frank, Image, Holds, LogBytes;
    var image, len := Image(disk), |Image(base)|;
    ReadyImage(d, base, sb, c);
    HeldParts(d, Image(base), sb, c, []);
    assert LogBytes(d, c.batches) + [] == LogBytes(d, c.batches);
    assert CrashesTo(disk, image);
    var tail :| Holds(d, image, sb, c, tail);
    forall n | len <= n <= |image|
      ensures HoldsSome(d, image[..n], sb, {c})
    {
      ShrunkHolds(d, image, sb, c, tail, image[..n]);
    }
    FrankCut(d, image, len, sb, {c});
  }
}
