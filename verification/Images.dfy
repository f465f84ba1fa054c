/** File images: what opening one yields, and which images are known to open. */
module Images {
  import opened Bytes
  import opened Log
  import opened Overlay
  import opened Roots
  import opened Segment
  import opened Lookup
  import opened Layout
  import opened Records

  // -------------------------------------------------------------- opening

  /** What `ActiveBase::open` checks in every mode about the bytes a root points at. */
  predicate AcceptsMetadata(d: Digests, m: Bytes, sb: Superblock) {
    && DataLength(d, m).Some?
    && var dataSize := DataLength(d, m).value;
    && d.crc(m[dataSize..]) == sb.baseChecksum
    && ReadHeader(m[..dataSize]) == Some((sb.baseSlots, sb.baseLen))
  }

  /** What it checks in Full mode. */
  ghost predicate AcceptsBase(d: Digests, m: Bytes, sb: Superblock) {
    && AcceptsMetadata(d, m, sb)
    && var dataSize := DataLength(d, m).value;
    && BlocksMatch(d, m, dataSize)
    && Validated(d, m[..dataSize], sb.baseOffset, sb.baseSlots, sb.baseLen)
  }

  function BaseRange(image: Bytes, sb: Superblock): Bytes
    requires Fits(sb, |image|)
  {
    image[sb.baseOffset..sb.baseOffset + sb.baseSize]
  }

  /** What the Overlay and the Base together say about a key. */
  function Answer(changes: Changes, inBase: Option<Bytes>, key: Bytes): Option<Bytes> {
    if key in changes then changes[key] else inBase
  }

  /** `ReadView::get` on the image just opened at root `sb`. */
  function Reads(d: Digests, image: Bytes, sb: Superblock, key: Bytes): Option<Bytes>
    requires Fits(sb, |image|) && AcceptsMetadata(d, BaseRange(image, sb), sb)
    requires Scan(d, image[sb.logStart..]).Scanned?
  {
    var m := BaseRange(image, sb);
    Answer(ApplyBatches(Scan(d, image[sb.logStart..]).batches),
           LookupFrom(m, DataLength(d, m).value, sb.baseOffset, sb.baseSlots, key, d.hash(key), 0), key)
  }

  /** Opening succeeds in the mode that checks least. */
  predicate Opens(d: Digests, image: Bytes) {
    && Latest(d, image).Found?
    && var sb := Latest(d, image).sb;
    && Fits(sb, |image|) && AcceptsMetadata(d, BaseRange(image, sb), sb)
    && Scan(d, image[sb.logStart..]).Scanned?
  }

  /** Opening selects `sb`, succeeds, keeps the log up to `validLen`, and reads exactly `contents`. */
  ghost predicate OpensAs(d: Digests, image: Bytes, sb: Superblock, validLen: nat, contents: map<Bytes, Bytes>) {
    && Latest(d, image) == Found(sb)
    && Fits(sb, |image|)
    && AcceptsBase(d, BaseRange(image, sb), sb)
    && Scan(d, image[sb.logStart..]).Scanned?
    && validLen == sb.logStart + Scan(d, image[sb.logStart..]).validLen
    && forall key :: Reads(d, image, sb, key) == MapGet(contents, key)
  }

  /**
   * Reopening the image succeeds and yields exactly this map; and the image is one a handle can
   * go on working from.
   */
  ghost predicate RecoversTo(d: Digests, image: Bytes, contents: map<Bytes, Bytes>) {
    && (exists sb, validLen :: OpensAs(d, image, sb, validLen, contents))
    && Restores(d, image, contents)
  }

  ghost predicate Restores(d: Digests, image: Bytes, contents: map<Bytes, Bytes>) {
    exists sb, c, tail :: Holds(d, image, sb, c, tail) && Meaning(c) == contents
  }

  // -------------------------------------------------------- images in use

  /** The root under which a Base is published. */
  function RootOf(d: Digests, generation: U64, b: Base): Superblock
    requires Valid(d, b)
  {
    BaseFits(d, b);
    HeaderOfBase(d, b);
    Superblock(generation, b.start, Size(b), |b.owner|, |b.entries|, b.start + Size(b), d.crc(Metadata(d, Data(d, b))))
  }

  /** The other page never competes with `sb`: it is unreadable, older, or a copy. */
  predicate Harmless(root: Root, sb: Superblock) {
    match root
    case Invalid => true
    case Unsupported(_) => false
    case Fields(other) => other == sb || other.generation < sb.generation
  }

  /** The Base published under `sb` stands in the image. */
  ghost predicate Placed(d: Digests, image: Bytes, sb: Superblock, b: Base) {
    && Valid(d, b) && DATA_START <= b.start
    && sb == RootOf(d, sb.generation, b)
    && sb.logStart <= |image|
    && image[sb.baseOffset..sb.logStart] == BaseBytes(d, b)
  }

  /** `sb` is in its own page and the other page does not compete with it. */
  ghost predicate Newest(d: Digests, image: Bytes, sb: Superblock) {
    && RootAt(d, image, PageOf(sb.generation)) == Fields(sb)
    && Harmless(RootAt(d, image, 1 - PageOf(sb.generation)), sb)
  }

  datatype Content = Content(base: Base, batches: seq<seq<Op>>)

  /** The Base map with the Overlay changes applied. */
  function Overlaid(base: map<Bytes, Bytes>, changes: Changes): map<Bytes, Bytes> {
    map k | k in base.Keys + changes.Keys && (k in changes ==> changes[k].Some?) ::
      if k in changes then changes[k].value else base[k]
  }

  function Meaning(c: Content): map<Bytes, Bytes> {
    Overlaid(AsMap(c.base.entries), ApplyBatches(c.batches))
  }

  ghost predicate StorableLog(batches: seq<seq<Op>>) {
    forall i :: 0 <= i < |batches| ==> StorableBatch(batches[i])
  }

  /** Base and log of `c` stand in the image under `sb`, then bytes at which the log scan stops. */
  ghost predicate Stored(d: Digests, image: Bytes, sb: Superblock, c: Content, tail: Bytes) {
    && Placed(d, image, sb, c.base)
    && StorableLog(c.batches)
    && image[sb.logStart..] == LogBytes(d, c.batches) + tail
    && Quiet(d, tail)
  }

  /** The image holds `c`, and `sb` is the root that opening selects. */
  ghost predicate Holds(d: Digests, image: Bytes, sb: Superblock, c: Content, tail: Bytes) {
    Stored(d, image, sb, c, tail) && Newest(d, image, sb)
  }

  lemma PlacedFits(d: Digests, image: Bytes, sb: Superblock, b: Base)
    requires Placed(d, image, sb, b)
    ensures Fits(sb, |image|) && BaseRange(image, sb) == BaseBytes(d, b)
    ensures sb.baseOffset == b.start && sb.baseSlots == |b.owner| && sb.logStart == b.start + Size(b)
  {
    hide BaseBytes, Metadata, Data, BlockCount, SlotCount, Indexed, RecordsBytes;
  }

  lemma NewestIsLatest(d: Digests, image: Bytes, sb: Superblock)
    requires Newest(d, image, sb) && Fits(sb, |image|)
    ensures Latest(d, image) == Found(sb)
  {
    hide RootAt;
  }

  lemma BaseIsAccepted(d: Digests, generation: U64, b: Base)
    requires Valid(d, b)
    ensures AcceptsBase(d, BaseBytes(d, b), RootOf(d, generation, b))
    ensures DataLength(d, BaseBytes(d, b)) == Some(DataSize(b))
  {
    WrittenBaseAccepted(d, b);
    BuiltIsSound(d, b);
    assert Validated(d, Data(d, b), b.start, |b.owner|, |b.entries|);
    hide Validated, DataLength, BlocksMatch, ReadHeader, BaseBytes, Data, Metadata, Size, DataSize, Indexed, SlotCount;
  }

  lemma AnswerIsOverlaid(base: map<Bytes, Bytes>, changes: Changes, key: Bytes)
    ensures Answer(changes, MapGet(base, key), key) == MapGet(Overlaid(base, changes), key)
  {
  }

  lemma ScanOfHeld(d: Digests, batches: seq<seq<Op>>, tail: Bytes)
    requires StorableLog(batches) && Quiet(d, tail)
    ensures Scan(d, LogBytes(d, batches) + tail) == Scanned(batches, |LogBytes(d, batches)|)
  {
    ScanOfLog(d, batches, tail);
    assert batches + [] == batches;
  }

  /** An image that holds `c` opens, keeps exactly the log of `c`, and reads as the meaning of `c`. */
  lemma HeldOpens(d: Digests, image: Bytes, sb: Superblock, c: Content, tail: Bytes)
    requires Holds(d, image, sb, c, tail)
    ensures OpensAs(d, image, sb, sb.logStart + |LogBytes(d, c.batches)|, Meaning(c))
    ensures RecoversTo(d, image, Meaning(c))
  {
    hide AcceptsBase, Reads, Stored, Newest, Meaning, Fits, Latest, Scan, MapGet, LogBytes, BaseRange;
    StoredOpens(d, image, sb, c, tail);
    NewestIsLatest(d, image, sb);
    assert OpensAs(d, image, sb, sb.logStart + |LogBytes(d, c.batches)|, Meaning(c));
  }

  lemma StoredOpens(d: Digests, image: Bytes, sb: Superblock, c: Content, tail: Bytes)
    requires Stored(d, image, sb, c, tail)
    ensures Fits(sb, |image|)
    ensures AcceptsBase(d, BaseRange(image, sb), sb)
    ensures Scan(d, image[sb.logStart..]) == Scanned(c.batches, |LogBytes(d, c.batches)|)
    ensures forall key :: Reads(d, image, sb, key) == MapGet(Meaning(c), key)
  {
    hide AcceptsBase, AcceptsMetadata, DataLength, LookupFrom, ApplyBatches, LogBytes, Placed, StorableLog, Quiet,
         Scan, Overlaid, AsMap;
    PlacedFits(d, image, sb, c.base);
    PlacedAccepts(d, image, sb, c.base);
    ScanOfHeld(d, c.batches, tail);
    forall key: Bytes
      ensures Reads(d, image, sb, key) == MapGet(Meaning(c), key)
    {
      PlacedReads(d, image, sb, c.base, key);
      AnswerIsOverlaid(AsMap(c.base.entries), ApplyBatches(c.batches), key);
    }
  }

  lemma PlacedAccepts(d: Digests, image: Bytes, sb: Superblock, b: Base)
    requires Placed(d, image, sb, b)
    ensures Fits(sb, |image|) && AcceptsBase(d, BaseRange(image, sb), sb)
    ensures AcceptsMetadata(d, BaseRange(image, sb), sb)
    ensures DataLength(d, BaseRange(image, sb)) == Some(DataSize(b))
  {
    hide AcceptsMetadata, DataLength, BlocksMatch, Validated;
    PlacedFits(d, image, sb, b);
    BaseIsAccepted(d, sb.generation, b);
  }

  lemma PlacedReads(d: Digests, image: Bytes, sb: Superblock, b: Base, key: Bytes)
    requires Placed(d, image, sb, b)
    ensures Fits(sb, |image|) && AcceptsBase(d, BaseRange(image, sb), sb)
    ensures var m := BaseRange(image, sb);
            LookupFrom(m, DataLength(d, m).value, sb.baseOffset, sb.baseSlots, key, d.hash(key), 0)
            == MapGet(AsMap(b.entries), key)
  {
    assert Valid(d, b);
    hide *;
    PlacedFits(d, image, sb, b);
    PlacedAccepts(d, image, sb, b);
    LookupIsMap(d, b, key);
  }

  // --------------------------------------------------------------- framing

  predicate SameUpTo(a: Bytes, b: Bytes, n: nat) {
    n <= |a| && n <= |b| && a[..n] == b[..n]
  }

  lemma SamePagesSameRoots(d: Digests, image: Bytes, other: Bytes, slot: nat)
    requires slot < 2 && (slot + 1) * PAGE_SIZE <= |image| && (slot + 1) * PAGE_SIZE <= |other|
    requires image[slot * PAGE_SIZE..(slot + 1) * PAGE_SIZE] == other[slot * PAGE_SIZE..(slot + 1) * PAGE_SIZE]
    ensures RootAt(d, image, slot) == RootAt(d, other, slot)
  {
  }

  lemma NewestFrame(d: Digests, image: Bytes, other: Bytes, sb: Superblock)
    requires Newest(d, image, sb) && SameUpTo(image, other, DATA_START)
    ensures Newest(d, other, sb)
  {
    hide RootAt;
    SubSlice(image, 0, DATA_START, 0, PAGE_SIZE);
    SubSlice(other, 0, DATA_START, 0, PAGE_SIZE);
    SubSlice(image, 0, DATA_START, PAGE_SIZE, DATA_START);
    SubSlice(other, 0, DATA_START, PAGE_SIZE, DATA_START);
    SamePagesSameRoots(d, image, other, 0);
    SamePagesSameRoots(d, image, other, 1);
  }

  lemma PlacedFrame(d: Digests, image: Bytes, other: Bytes, sb: Superblock, b: Base)
    requires Placed(d, image, sb, b) && sb.logStart <= |other|
    requires image[sb.baseOffset..sb.logStart] == other[sb.baseOffset..sb.logStart]
    ensures Placed(d, other, sb, b)
  {
    hide Valid, RootOf, BaseBytes;
  }

  lemma SameSlices(a: Bytes, b: Bytes, n: nat, lo: nat, hi: nat)
    requires SameUpTo(a, b, n) && lo <= hi <= n
    ensures n <= |a| && n <= |b| && a[lo..hi] == b[lo..hi]
  {
    SubSlice(a, 0, n, lo, hi);
    SubSlice(b, 0, n, lo, hi);
  }

  /** Replacing everything after the log by other bytes at which the scan stops. */
  lemma TailReplaced(d: Digests, image: Bytes, sb: Superblock, c: Content, tail: Bytes, other: Bytes, tail': Bytes)
    requires Holds(d, image, sb, c, tail) && Quiet(d, tail')
    requires SameUpTo(image, other, sb.logStart + |LogBytes(d, c.batches)|)
    requires other[sb.logStart + |LogBytes(d, c.batches)|..] == tail'
    ensures Holds(d, other, sb, c, tail')
  {
    hide *;
    var n := sb.logStart + |LogBytes(d, c.batches)|;
    HeldParts(d, image, sb, c, tail);
    SameSlices(image, other, n, sb.baseOffset, sb.logStart);
    PlacedFrame(d, image, other, sb, c.base);
    LogReplaced(image, other, sb.logStart, LogBytes(d, c.batches), tail, tail');
    SameLess(image, other, n, DATA_START);
    NewestFrame(d, image, other, sb);
    HeldFromParts(d, other, sb, c, tail');
  }

  lemma HeldParts(d: Digests, image: Bytes, sb: Superblock, c: Content, tail: Bytes)
    requires Holds(d, image, sb, c, tail)
    ensures Placed(d, image, sb, c.base) && Newest(d, image, sb) && StorableLog(c.batches) && Quiet(d, tail)
    ensures DATA_START <= sb.baseOffset <= sb.logStart <= |image|
    ensures image[sb.logStart..] == LogBytes(d, c.batches) + tail
    ensures |image| == sb.logStart + |LogBytes(d, c.batches)| + |tail|
  {
    hide Placed, Newest, LogBytes, Quiet, StorableLog, Size, DataSize, BaseBytes, Valid;
    PlacedFits(d, image, sb, c.base);
  }

  lemma HeldFromParts(d: Digests, image: Bytes, sb: Superblock, c: Content, tail: Bytes)
    requires Placed(d, image, sb, c.base) && Newest(d, image, sb) && StorableLog(c.batches) && Quiet(d, tail)
    requires image[sb.logStart..] == LogBytes(d, c.batches) + tail
    ensures Holds(d, image, sb, c, tail)
  {
  }

  lemma SameLess(a: Bytes, b: Bytes, n: nat, k: nat)
    requires SameUpTo(a, b, n) && k <= n
    ensures SameUpTo(a, b, k)
  {
    SameSlices(a, b, n, 0, k);
  }

  lemma LogReplaced(image: Bytes, other: Bytes, at: nat, log: Bytes, tail: Bytes, tail': Bytes)
    requires SameUpTo(image, other, at + |log|)
    requires image[at..] == log + tail && other[at + |log|..] == tail'
    ensures other[at..] == log + tail'
  {
    SameSlices(image, other, at + |log|, at, at + |log|);
    assert image[at..at + |log|] == image[at..][..|log|] == log;
    assert other[at..] == other[at..at + |log|] + other[at + |log|..];
  }

  // ---------------------------------------------------------- batches on a plain map

  /** A batch applied to a plain map, operation by operation. */
  function Updated(m: map<Bytes, Bytes>, ops: seq<Op>): map<Bytes, Bytes> {
    if ops == [] then m
    else
      var before := Updated(m, ops[..|ops| - 1]);
      var last := ops[|ops| - 1];
      if last.Put? then before[last.key := last.value] else before - {last.key}
  }

  lemma OverlaidOne(base: map<Bytes, Bytes>, changes: Changes, op: Op)
    ensures Overlaid(base, changes[op.key := ChangeOf(op)])
            == if op.Put? then Overlaid(base, changes)[op.key := op.value] else Overlaid(base, changes) - {op.key}
  {
  }

  /** Logging a batch over a Base means updating the map the two stand for. */
  lemma {:induction false} OverlaidUpdates(base: map<Bytes, Bytes>, changes: Changes, ops: seq<Op>)
    ensures Overlaid(base, ApplyOps(changes, ops)) == Updated(Overlaid(base, changes), ops)
  {
    hide Overlaid;
    if ops != [] {
      var n := |ops| - 1;
      OverlaidUpdates(base, changes, ops[..n]);
      OverlaidOne(base, ApplyOps(changes, ops[..n]), ops[n]);
    }
  }

  /** What opening an image shows is determined by the image. */
  lemma OpensOnce(d: Digests, image: Bytes, sb: Superblock, n: nat, a: map<Bytes, Bytes>, sb': Superblock, n': nat,
                  b: map<Bytes, Bytes>)
    requires OpensAs(d, image, sb, n, a) && OpensAs(d, image, sb', n', b)
    ensures sb == sb' && n == n' && a == b
  {
    hide Latest, Reads, AcceptsMetadata, BlocksMatch, Validated, Fits, Scan;
    forall key: Bytes
      ensures MapGet(a, key) == MapGet(b, key)
    {
      assert Reads(d, image, sb, key) == MapGet(a, key);
      assert Reads(d, image, sb, key) == MapGet(b, key);
    }
    assert forall k :: k in a <==> MapGet(a, k).Some?;
    assert forall k :: k in b <==> MapGet(b, k).Some?;
  }

  /** What an image recovers to is determined by the image. */
  lemma RecoveryIsUnique(d: Digests, image: Bytes, a: map<Bytes, Bytes>, b: map<Bytes, Bytes>)
    requires RecoversTo(d, image, a) && RecoversTo(d, image, b)
    ensures a == b
  {
    hide OpensAs, Restores;
    var sb, n :| OpensAs(d, image, sb, n, a);
    var sb', n' :| OpensAs(d, image, sb', n', b);
    OpensOnce(d, image, sb, n, a, sb', n', b);
  }
}
