/** Opening a file: selecting the root, checking the Base, rebuilding the Overlay, trimming a torn tail. */
module Opening {
  import opened Bytes
  import opened Log
  import opened Overlay
  import opened Roots
  import opened Segment
  import opened Lookup
  import opened Layout
  import opened Records
  import opened Device
  import opened Images
  import opened CrashSafety
  import opened Loss
  import opened Storage
  import opened Recovery
  import opened Database

  datatype Mode = Full | OnRead

  /** What `ActiveBase::open` accepts. */
  ghost predicate Accepts(d: Digests, m: Bytes, sb: Superblock, mode: Mode) {
    if mode.Full? then AcceptsBase(d, m, sb) else AcceptsMetadata(d, m, sb)
  }

  /** The images that opening accepts, whoever wrote them. */
  ghost predicate Openable(d: Digests, image: Bytes, limit: nat, mode: Mode) {
    && |image| <= limit
    && Latest(d, image).Found?
    && var sb := Latest(d, image).sb;
    && Fits(sb, |image|)
    && Accepts(d, BaseRange(image, sb), sb, mode)
    && Scan(d, image[sb.logStart..]).Scanned?
  }

  method VerifyBlocks(d: Digests, m: Bytes, dataSize: nat) returns (ok: bool)
    requires SegmentSize(dataSize) == |m|
    ensures ok <==> BlocksMatch(d, m, dataSize)
  {
    hide Block, StoredChecksum, BlockCount, SegmentSize;
    var blocks := BlockCount(dataSize);
    assert |m[..dataSize]| == dataSize by { DataWithin(m, dataSize); }
    for i := 0 to blocks
      invariant forall j :: 0 <= j < i ==> d.crc(Block(m[..dataSize], j)) == StoredChecksum(m, dataSize, j)
    {
      if d.crc(Block(m[..dataSize], i)) != StoredChecksum(m, dataSize, i) {
        return false;
      }
    }
    ok := true;
  }

  lemma DataWithin(m: Bytes, dataSize: nat)
    requires SegmentSize(dataSize) == |m|
    ensures dataSize <= |m|
  {
  }

  /** The checks on the bytes a root points at; both modes check the metadata, Full checks everything. */
  method OpenBase(d: Digests, m: Bytes, sb: Superblock, mode: Mode) returns (ok: bool)
    ensures ok <==> Accepts(d, m, sb, mode)
  {
    hide DataLength, BlocksMatch, Validated, ReadHeader, SegmentSize;
    var layout := DataLength(d, m);
    if layout.None? {
      return false;
    }
    var dataSize := layout.value;
    DataWithin(m, dataSize);
    if d.crc(m[dataSize..]) != sb.baseChecksum {
      return false;
    }
    if mode.Full? {
      ok := VerifyBlocks(d, m, dataSize);
      if !ok {
        return;
      }
    }
    if ReadHeader(m[..dataSize]) != Some((sb.baseSlots, sb.baseLen)) {
      return false;
    }
    ok := true;
    if mode.Full? {
      ghost var entries;
      ok, entries := ValidateBase(d, m[..dataSize], sb.baseOffset, sb.baseSlots, sb.baseLen);
    }
  }

  /** Root, mapped Base, Overlay index and memory charge read from an image, and where its log ends. */
  datatype Loaded =
    | Loaded(root: Superblock, mapping: Bytes, index: OverlayMap, memory: nat, end: nat)
    | Failed(error: Error)

  ghost predicate LoadedFrom(d: Digests, image: Bytes, mode: Mode, r: Loaded) {
    && r.Loaded?
    && Latest(d, image) == RootResult.Found(r.root)
    && Fits(r.root, |image|)
    && r.mapping == BaseRange(image, r.root)
    && Accepts(d, r.mapping, r.root, mode)
    && IndexFrom(d, image, r.root, r.index, r.memory, r.end)
  }

  /** The index stands for exactly the whole batches of the log, which ends at `end`. */
  ghost predicate IndexFrom(d: Digests, image: Bytes, sb: Superblock, index: OverlayMap, memory: nat, end: nat) {
    && sb.logStart <= end <= |image|
    && var scan := Scan(d, image[sb.logStart..]);
    && scan.Scanned? && end == sb.logStart + scan.validLen
    && Represents(index, image[sb.logStart..end], ApplyBatches(scan.batches))
    && memory == Charge(ApplyBatches(scan.batches))
  }

  /** The scan of the log; the index still refers to the mapping of the whole log range. */
  method ScanLog(d: Digests, file: File, sb: Superblock) returns (r: Option<Recovered>)
    requires sb.logStart <= file.Length()
    modifies file`clock
    ensures old(file.clock) <= file.clock && (r.None? ==> Fault(file.plan, old(file.clock), file.clock))
    ensures r.Some? && r.value.Refused? ==> Scan(d, Image(file.disk)[sb.logStart..]).Rejected?
    ensures r.Some? && r.value.Rebuilt? ==> ScannedLog(d, Image(file.disk), sb, r.value)
  {
    hide Scan, Rebuilds;
    var size := file.Length() - sb.logStart;
    if size == 0 {
      NothingScanned(d, Image(file.disk), sb);
      return Some(Rebuilt(OverlayMap(None, map[], map[]), 0, 0));
    }
    var bytes := file.Map(sb.logStart, size);
    if bytes.None? {
      return None;
    }
    assert bytes.value == Image(file.disk)[sb.logStart..];
    var recovered := ScanOverlay(d, bytes.value);
    r := Some(recovered);
  }

  ghost predicate ScannedLog(d: Digests, image: Bytes, sb: Superblock, r: Recovered) {
    && r.Rebuilt? && sb.logStart <= |image|
    && var log := image[sb.logStart..];
    && var scan := Scan(d, log);
    && scan.Scanned? && scan.validLen == r.validLen
    && if log == [] then r.index == OverlayMap(None, map[], map[]) && r.memory == 0
       else Rebuilds(r.index, log, r.validLen, ApplyBatches(scan.batches), r.memory)
  }

  lemma NothingScanned(d: Digests, image: Bytes, sb: Superblock)
    requires sb.logStart == |image|
    ensures ScannedLog(d, image, sb, Rebuilt(OverlayMap(None, map[], map[]), 0, 0))
  {
  }

  /** The index over the trimmed log: unchanged when nothing was cut off, remapped otherwise. */
  lemma IndexAfterTrim(d: Digests, image: Bytes, sb: Superblock, r: Recovered)
    requires ScannedLog(d, image, sb, r)
    ensures r.Rebuilt? && sb.logStart + r.validLen <= |image|
    ensures sb.logStart + r.validLen == |image| ==> IndexFrom(d, image, sb, r.index, r.memory, |image|)
    ensures sb.logStart + r.validLen < |image| ==>
              var end := sb.logStart + r.validLen;
              var mapping := if r.validLen == 0 then None else Some(image[sb.logStart..end]);
              IndexFrom(d, image, sb, r.index.(bytes := mapping), r.memory, end)
  {
    hide Scan, Represents, ApplyBatches;
    var log := image[sb.logStart..];
    var end := sb.logStart + r.validLen;
    if log == [] {
      EmptyLog(d);
    } else {
      var m := ApplyBatches(Scan(d, log).batches);
      IndexSurvivesTruncation(d, log, r.index, r.validLen, m, r.memory);
      SubSlice(image, sb.logStart, |image|, 0, r.validLen);
      assert image[sb.logStart..end] == log[..r.validLen];
      if end == |image| {
        assert log[..r.validLen] == log;
        assert r.index.(bytes := Some(log)) == r.index;
      }
    }
  }

  lemma EmptyLog(d: Digests)
    ensures Scan(d, []) == Scanned([], 0) && ApplyBatches([]) == map[] && Charge(map[]) == 0
    ensures Represents(OverlayMap(None, map[], map[]), [], map[])
  {
  }

  /** How a file that cannot be opened is refused. */
  function Complaint(d: Digests, image: Bytes, limit: nat): Error {
    if |image| > limit then DatabaseFull
    else if RootAt(d, image, 0).Unsupported? || RootAt(d, image, 1).Unsupported? then UnsupportedVersion
    else Corrupt
  }

  /** Everything opening checks before it touches the file. */
  method Inspect(d: Digests, file: File, mode: Mode)
    returns (r: Result, sb: Superblock, mapping: Bytes, scan: Recovered)
    modifies file`clock
    ensures old(file.clock) <= file.clock && (r == Err(Io) ==> Fault(file.plan, old(file.clock), file.clock))
    ensures r.Ok? ==> Latest(d, Image(file.disk)) == RootResult.Found(sb) && Fits(sb, file.Length())
    ensures r.Ok? ==> mapping == BaseRange(Image(file.disk), sb) && Accepts(d, mapping, sb, mode)
    ensures r.Ok? ==> ScannedLog(d, Image(file.disk), sb, scan)
    ensures r.Err? && r.error != Io ==> !Openable(d, Image(file.disk), file.Length(), mode)
    ensures r.Err? ==> r.error == Io || r.error == Complaint(d, Image(file.disk), file.Length())
  {
    hide Latest, Accepts, Scan, ScannedLog, Image;
    sb, mapping, scan := Superblock(0, 0, 0, 0, 0, 0, 0), [], Refused(HeaderChecksum);
    var contents := file.Read();
    if contents.None? {
      return Err(Io), sb, mapping, scan;
    }
    var found := ReadLatest(d, contents.value);
    if !found.Found? {
      return Err(if found.NewerFormat? then UnsupportedVersion else Corrupt), sb, mapping, scan;
    }
    sb := found.sb;
    LatestFits(d, contents.value);
    var mapped := file.Map(sb.baseOffset, sb.baseSize);
    if mapped.None? {
      return Err(Io), sb, mapping, scan;
    }
    mapping := mapped.value;
    var ok := OpenBase(d, mapping, sb, mode);
    if !ok {
      return Err(Corrupt), sb, mapping, scan;
    }
    var scanned := ScanLog(d, file, sb);
    if scanned.None? {
      return Err(Io), sb, mapping, scan;
    }
    scan := scanned.value;
    r := if scan.Refused? then Err(Corrupt) else Ok;
  }

  lemma LatestFits(d: Digests, image: Bytes)
    requires Latest(d, image).Found?
    ensures Fits(Latest(d, image).sb, |image|)
  {
    hide RootAt;
  }

  /** The instants of a trim: before it, while the cut is pending, and after it. */
  ghost predicate Trimming(t: Moment, image: Bytes, end: nat, roots: set<Superblock>) {
    && t.roots == roots && end <= |image|
    && (t.disk == Disk(image, []) || t.disk == Disk(image, [SetLen(end)]) || t.disk == Disk(image[..end], []))
  }

  /** Cuts off what follows the log, waits, and maps everything again. */
  method Trim(d: Digests, file: File, mode: Mode, sb: Superblock, scan: Recovered) returns (r: Loaded)
    requires file.disk.pending == [] && ScannedLog(d, file.disk.durable, sb, scan)
    requires Latest(d, file.disk.durable) == RootResult.Found(sb) && Fits(sb, |file.disk.durable|)
    requires Accepts(d, BaseRange(file.disk.durable, sb), sb, mode)
    requires sb.logStart + scan.validLen < |file.disk.durable|
    modifies file
    ensures r.Failed? ==> r.error == Io && Fault(file.plan, old(file.clock), file.clock)
    ensures old(file.clock) <= file.clock
    ensures r.Loaded? ==> LoadedFrom(d, old(file.disk.durable), mode, r) && r.root == sb
    ensures r.Loaded? ==> file.disk == Disk(old(file.disk.durable)[..r.end], [])
    ensures file.roots == old(file.roots) && old(file.trail) <= file.trail && (old(file.Logged()) ==> file.Logged())
    ensures forall i :: |old(file.trail)| <= i < |file.trail| ==>
              Trimming(file.trail[i], old(file.disk.durable), sb.logStart + scan.validLen, file.roots)
  {
    hide Latest, Accepts, Scan, ScannedLog, IndexFrom, Image, Resize;
    ghost var image := file.disk.durable;
    IndexAfterTrim(d, image, sb, scan);
    var end := sb.logStart + scan.validLen;
    assert file.disk.pending + [SetLen(end)] == [SetLen(end)];
    var ok := file.SetLength(end);
    if !ok {
      return Failed(Io);
    }
    CutImage(image, end);
    ok := file.Sync();
    if !ok {
      return Failed(Io);
    }
    DurableImage(file.disk);
    CutRanges(image, end, sb);
    var mapped := file.Map(sb.baseOffset, sb.baseSize);
    if mapped.None? {
      return Failed(Io);
    }
    ok := OpenBase(d, mapped.value, sb, mode);
    var log: Option<Bytes> := None;
    if scan.validLen > 0 {
      log := file.Map(sb.logStart, scan.validLen);
      if log.None? {
        return Failed(Io);
      }
    }
    r := Loaded(sb, mapped.value, scan.index.(bytes := log), scan.memory, end);
  }

  lemma CutImage(image: Bytes, end: nat)
    requires end <= |image|
    ensures Image(Disk(image, [SetLen(end)])) == image[..end]
  {
    ImageStep(Disk(image, []), SetLen(end));
    assert [] + [SetLen(end)] == [SetLen(end)];
    ResizeIsPrefix(image, end);
  }

  lemma CutRanges(image: Bytes, end: nat, sb: Superblock)
    requires Fits(sb, |image|) && sb.logStart <= end <= |image|
    ensures image[..end][sb.baseOffset..sb.baseOffset + sb.baseSize] == BaseRange(image, sb)
    ensures image[..end][sb.logStart..end] == image[sb.logStart..end]
  {
    SubSlice(image, 0, end, sb.baseOffset, sb.baseOffset + sb.baseSize);
    SubSlice(image, 0, end, sb.logStart, end);
  }

  /** Loads an image; the file is touched only to cut off a torn tail. */
  method Load(d: Digests, file: File, mode: Mode) returns (r: Loaded)
    requires file.disk.pending == []
    modifies file
    ensures old(file.clock) <= file.clock && (r == Failed(Io) ==> Fault(file.plan, old(file.clock), file.clock))
    ensures r.Loaded? ==> LoadedFrom(d, old(file.disk.durable), mode, r)
    ensures r.Loaded? ==> file.disk == Disk(old(file.disk.durable)[..r.end], [])
    ensures r.Failed? && r.error != Io ==>
              !Openable(d, old(file.disk.durable), |old(file.disk.durable)|, mode) && file.disk == old(file.disk)
    ensures r.Failed? && r.error != Io ==>
              r.error == Complaint(d, old(file.disk.durable), |old(file.disk.durable)|)
    ensures !Openable(d, old(file.disk.durable), |old(file.disk.durable)|, mode) ==>
              r.Failed? && file.disk == old(file.disk)
    ensures file.roots == old(file.roots) && old(file.trail) <= file.trail && (old(file.Logged()) ==> file.Logged())
    ensures forall i :: |old(file.trail)| <= i < |file.trail| ==>
              Trimming(file.trail[i], old(file.disk.durable), LogEnd(d, old(file.disk.durable)), file.roots)
  {
    hide Latest, Accepts, Scan, ScannedLog, IndexFrom, Image, Trimming;
    ghost var image := file.disk.durable;
    DurableImage(file.disk);
    var checked, sb, mapping, scan := Inspect(d, file, mode);
    if checked.Err? {
      return Failed(checked.error);
    }
    IndexAfterTrim(d, image, sb, scan);
    LoadedIsOpenable(d, image, mode, sb, scan);
    var end := sb.logStart + scan.validLen;
    if end < file.Length() {
      r := Trim(d, file, mode, sb, scan);
    } else {
      assert image[..end] == image;
      r := Loaded(sb, mapping, scan.index, scan.memory, end);
    }
  }

  /** Where the log of an openable image ends. */
  function LogEnd(d: Digests, image: Bytes): nat {
    if !Latest(d, image).Found? || Latest(d, image).sb.logStart > |image| then |image|
    else
      var start := Latest(d, image).sb.logStart;
      var scan := Scan(d, image[start..]);
      if scan.Scanned? then start + scan.validLen else |image|
  }

  lemma LoadedIsOpenable(d: Digests, image: Bytes, mode: Mode, sb: Superblock, scan: Recovered)
    requires Latest(d, image) == RootResult.Found(sb) && Fits(sb, |image|) && Accepts(d, BaseRange(image, sb), sb, mode)
    requires ScannedLog(d, image, sb, scan)
    ensures Openable(d, image, |image|, mode) && LogEnd(d, image) == sb.logStart + scan.validLen
  {
    hide Latest, Accepts, Scan, Rebuilds;
  }

  // --------------------------------------------- images that hold known contents

  /** The roots that can be read from the two pages. */
  function PageRoots(d: Digests, image: Bytes): set<Superblock> {
    (if RootAt(d, image, 0).Fields? then {RootAt(d, image, 0).sb} else {})
    + (if RootAt(d, image, 1).Fields? then {RootAt(d, image, 1).sb} else {})
  }

  lemma NewestSettled(d: Digests, image: Bytes, sb: Superblock)
    requires Newest(d, image, sb)
    ensures Settled(PageRoots(d, image), sb)
  {
    hide RootAt;
  }

  /** An image that holds `c` is accepted in both modes, and its log ends where the log of `c` does. */
  lemma HeldIsOpenable(d: Digests, image: Bytes, sb: Superblock, c: Content, tail: Bytes, limit: nat, mode: Mode)
    requires Holds(d, image, sb, c, tail) && |image| <= limit
    ensures Openable(d, image, limit, mode) && Latest(d, image) == RootResult.Found(sb) && sb.logStart <= |image|
    ensures Scan(d, image[sb.logStart..]) == Scanned(c.batches, |LogBytes(d, c.batches)|)
    ensures LogEnd(d, image) == sb.logStart + |LogBytes(d, c.batches)| <= |image|
  {
    hide Stored, Newest, Latest, AcceptsMetadata, BlocksMatch, Validated, Scan, LogBytes, BaseRange, Reads, Meaning;
    StoredOpens(d, image, sb, c, tail);
    NewestIsLatest(d, image, sb);
    LogEnds(d, image, sb, c, tail);
  }

  /** What was loaded from such an image serves exactly `c`, and the trimmed file is ready for it. */
  lemma LoadedHeld(d: Digests, image: Bytes, mode: Mode, r: Loaded, sb: Superblock, c: Content, tail: Bytes)
    requires Holds(d, image, sb, c, tail) && LoadedFrom(d, image, mode, r)
    ensures r.root == sb && r.end == sb.logStart + |LogBytes(d, c.batches)| <= |image|
    ensures Serves(d, sb, r.mapping, c, r.index, r.memory)
    ensures Ready(d, Disk(image[..r.end], []), sb, c)
  {
    hide Holds, Latest, Accepts, Scan, LogBytes, Represents, Charge, ApplyBatches, BaseBytes, RootOf,
         Segment.Valid, StorableLog, Quiet, Newest;
    HeldIsOpenable(d, image, sb, c, tail, |image|, mode);
    HeldParts(d, image, sb, c, tail);
    PlacedFits(d, image, sb, c.base);
    ShrunkHolds(d, image, sb, c, tail, image[..r.end]);
    assert tail[..0] == [];
    SubSlice(image, sb.logStart, |image|, 0, |LogBytes(d, c.batches)|);
    assert (LogBytes(d, c.batches) + tail)[..|LogBytes(d, c.batches)|] == LogBytes(d, c.batches);
    assert image[sb.logStart..r.end] == LogBytes(d, c.batches);
  }

  lemma TrimmingSurvives(d: Digests, t: Moment, image: Bytes, roots: set<Superblock>, sb: Superblock, c: Content,
                         tail: Bytes)
    requires Holds(d, image, sb, c, tail) && Trimming(t, image, LogEnd(d, image), roots)
    ensures SurvivesLoss(d, t, Meaning(c)) && Reach(t.disk) <= |image|
  {
    hide Holds, LogBytes, Meaning, LogEnd, Image, SurvivesLoss, Steady;
    HeldIsOpenable(d, image, sb, c, tail, |image|, Full);
    var course := Course({}, |image|, Meaning(c));
    var end := LogEnd(d, image);
    ShrinkSteady(d, image, t.roots, sb, c, tail, end, course);
    ReachStep(Disk(image, []), SetLen(end));
    assert [] + [SetLen(end)] == [SetLen(end)];
    DurableImage(Disk(image, []));
    DurableImage(Disk(image[..end], []));
    SyncedSurvives(d, Moment(Disk(image, []), t.roots), course);
    ReadySurvivesLoss(d, Moment(Disk(image[..end], []), t.roots), sb, c);
  }

  lemma SyncedSurvives(d: Digests, t: Moment, course: Course)
    requires Steady(d, t, course) && t.disk.pending == []
    ensures SurvivesLoss(d, t, course.m)
  {
    hide Survives, SurvivesLoss, Image;
  }

  datatype OpenResult = Opened(handle: Handle) | OpenFailed(error: Error)

  /**
   * Opens a file that nobody is writing. The file is accepted exactly when its image is openable, up
   * to I/O failures, and refused without being touched otherwise. If the image holds `c`, the handle
   * serves `c`, and at every instant a crash that loses any unsynced bytes recovers the same map.
   */
  method Open(d: Digests, file: File, maxBytes: U64, mode: Mode, ghost sb: Superblock, ghost c: Content,
              ghost tail: Bytes)
    returns (r: OpenResult)
    requires file.disk.pending == [] && file.roots == PageRoots(d, file.disk.durable)
    modifies file
    ensures r.Opened? ==> Openable(d, old(file.disk.durable), maxBytes, mode)
    ensures !Openable(d, old(file.disk.durable), maxBytes, mode) ==>
              && r.OpenFailed? && file.disk == old(file.disk)
              && (r.error == Io || r.error == Complaint(d, old(file.disk.durable), maxBytes))
    ensures r == OpenFailed(Io) ==> Fault(file.plan, old(file.clock), file.clock)
    ensures Openable(d, old(file.disk.durable), maxBytes, mode) && r.OpenFailed? ==>
              r.error == Io && Fault(file.plan, old(file.clock), file.clock)
    ensures old(file.clock) <= file.clock
    ensures r.Opened? ==>
              fresh(r.handle) && fresh(r.handle.overlay) && r.handle.file == file && r.handle.d == d &&
              r.handle.maxBytes == maxBytes
    ensures r.Opened? && Holds(d, old(file.disk.durable), sb, c, tail) ==>
              && r.handle.Valid() && r.handle.state == Healthy
              && r.handle.content == c && r.handle.root == sb && r.handle.views == []
    ensures file.roots == old(file.roots) && old(file.trail) <= file.trail && (old(file.Logged()) ==> file.Logged())
    ensures Holds(d, old(file.disk.durable), sb, c, tail) && |old(file.disk.durable)| <= maxBytes ==>
              forall i :: |old(file.trail)| <= i < |file.trail| ==>
                SurvivesLoss(d, file.trail[i], Meaning(c)) && Reach(file.trail[i].disk) <= maxBytes
  {
    hide LoadedFrom, Openable, Holds, Trimming, Serves, Ready, Settled, LogEnd, PageRoots, Meaning, SurvivesLoss,
         Image, Reach, BackedBy, Placed, Newest, LogBytes, Quiet, StorableLog;
    ghost var image := file.disk.durable;
    DurableImage(file.disk);
    OpenableWithin(d, image, maxBytes, mode);
    if file.Length() > maxBytes {
      return OpenFailed(DatabaseFull);
    }
    var loaded := Load(d, file, mode);
    if Holds(d, image, sb, c, tail) {
      forall i | |old(file.trail)| <= i < |file.trail|
        ensures SurvivesLoss(d, file.trail[i], Meaning(c)) && Reach(file.trail[i].disk) <= maxBytes
      {
        TrimmingSurvives(d, file.trail[i], image, file.roots, sb, c, tail);
      }
    }
    if loaded.Failed? {
      return OpenFailed(loaded.error);
    }
    var overlay := new OverlayState.WithMemory(loaded.index, loaded.memory);
    var handle := new Handle(d, file, overlay, maxBytes, loaded.root, loaded.mapping, c);
    if Holds(d, image, sb, c, tail) {
      LoadedHeld(d, image, mode, loaded, sb, c, tail);
      DurableImage(file.disk);
      HeldParts(d, image, sb, c, tail);
      NewestSettled(d, image, sb);
    }
    r := Opened(handle);
  }

  lemma OpenableWithin(d: Digests, image: Bytes, limit: nat, mode: Mode)
    ensures Openable(d, image, limit, mode) <==> Openable(d, image, |image|, mode) && |image| <= limit
  {
    hide Latest, Accepts, Scan;
  }

  /** Reopening after any loss of unsynced bytes selects the very generation a healthy handle appends to. */
  lemma HealthyRootIsSelected(h: Handle, image: Bytes, mode: Mode)
    requires h.Valid() && h.state == Healthy && LosesTo(h.file.disk, image)
    ensures Latest(h.d, image) == RootResult.Found(h.root) && Openable(h.d, image, h.maxBytes, mode)
    ensures LogEnd(h.d, image) == h.file.Length() == |image|
  {
    hide Serves, Settled, BackedBy, Image, Meaning, Holds, LosesTo, Latest, Openable, LogEnd, LogBytes;
    ReadyAfterLoss(h.d, h.file.disk, h.root, h.content, image);
    ReadyParts(h.d, h.file.disk, h.root, h.content);
    ReadyImage(h.d, h.file.disk, h.root, h.content);
    HeldIsOpenable(h.d, image, h.root, h.content, [], h.maxBytes, mode);
  }

  /**
   * Whatever unsynced bytes are lost, loading the file of a healthy handle again rebuilds the charge
   * that the handle kept commit by commit, and an index that answers every key as its index does.
   */
  lemma ReloadedAlike(h: Handle, image: Bytes, mode: Mode, r: Loaded)
    requires h.Valid() && h.state == Healthy && LosesTo(h.file.disk, image) && LoadedFrom(h.d, image, mode, r)
    ensures r.memory == h.overlay.memory && r.root == h.root && r.mapping == h.mapping
    ensures forall key :: Get(r.index, key) == Get(h.overlay.index, key)
  {
    hide Serves, Settled, BackedBy, Standing, Told, Image, Meaning, Holds, LosesTo, IndexFrom, Accepts, Latest,
         Ready, Get, ApplyBatches, LogBytes, Represents;
    ReadyAfterLoss(h.d, h.file.disk, h.root, h.content, image);
    LoadedHeld(h.d, image, mode, r, h.root, h.content, []);
    ServeAlike(h.d, h.root, h.content, r.mapping, r.index, r.memory, h.mapping, h.overlay.index, h.overlay.memory);
  }

  lemma ServeAlike(d: Digests, sb: Superblock, c: Content, mapping: Bytes, index: OverlayMap, memory: nat,
                   mapping': Bytes, index': OverlayMap, memory': nat)
    requires Serves(d, sb, mapping, c, index, memory) && Serves(d, sb, mapping', c, index', memory')
    ensures mapping == mapping' && memory == memory'
    ensures forall key :: Get(index, key) == Get(index', key)
  {
    hide Segment.Valid, RootOf, BaseBytes, StorableLog, Represents, Charge, ApplyBatches, LogBytes, Get;
    var log, m := LogBytes(d, c.batches), ApplyBatches(c.batches);
    forall key: Bytes
      ensures Get(index, key) == Get(index', key)
    {
      GetIsMap(index, log, m, key);
      GetIsMap(index', log, m, key);
    }
  }

  // ----------------------------------------------------------- damaged files

  /** The image with one of its batch records replaced. */
  function WithDamage(d: Digests, image: Bytes, sb: Superblock, c: Content, k: nat, damaged: Bytes): Bytes
    requires k < |c.batches|
    requires sb.logStart + |LogBytes(d, c.batches[..k])| + |BatchRecord(d, c.batches[k])| <= |image|
  {
    var at := sb.logStart + |LogBytes(d, c.batches[..k])|;
    image[..at] + damaged + image[at + |BatchRecord(d, c.batches[k])|..]
  }

  lemma RecordInImage(d: Digests, image: Bytes, sb: Superblock, c: Content, tail: Bytes, k: nat)
    requires Holds(d, image, sb, c, tail) && k < |c.batches|
    ensures var n, record := |LogBytes(d, c.batches[..k])|, BatchRecord(d, c.batches[k]);
            && DATA_START <= sb.logStart <= sb.logStart + n + |record| <= |image|
            && image[sb.logStart..sb.logStart + n] == LogBytes(d, c.batches[..k])
  {
    hide *;
    var a, record, b := LogBytes(d, c.batches[..k]), BatchRecord(d, c.batches[k]), LogBytes(d, c.batches[k + 1..]);
    HeldParts(d, image, sb, c, tail);
    LogBytesAppend(d, c.batches[..k], c.batches[k..]);
    LogBytesCons(d, c.batches[k], c.batches[k + 1..]);
    assert c.batches == c.batches[..k] + c.batches[k..] && c.batches[k..] == [c.batches[k]] + c.batches[k + 1..];
    assert image[sb.logStart..] == a + (record + b) + tail;
    SubSlice(image, sb.logStart, |image|, 0, |a|);
    assert (a + (record + b) + tail)[..|a|] == a;
  }

  /**
   * Damage to an acknowledged batch is never taken for a torn tail: in either mode the file is not
   * openable, so opening refuses it and leaves it as it is.
   */
  lemma DamagedBatchIsRefused(d: Digests, image: Bytes, sb: Superblock, c: Content, tail: Bytes, k: nat,
                              damaged: Bytes, limit: nat, mode: Mode)
    requires Holds(d, image, sb, c, tail) && k < |c.batches|
    requires Noticeable(d, BatchRecord(d, c.batches[k]), damaged)
    ensures sb.logStart + |LogBytes(d, c.batches[..k])| + |BatchRecord(d, c.batches[k])| <= |image|
    ensures !Openable(d, WithDamage(d, image, sb, c, k, damaged), limit, mode)
  {
    hide *;
    RecordInImage(d, image, sb, c, tail, k);
    HeldParts(d, image, sb, c, tail);
    PlacedFits(d, image, sb, c.base);
    var n, len := |LogBytes(d, c.batches[..k])|, |BatchRecord(d, c.batches[k])|;
    var image' := WithDamage(d, image, sb, c, k, damaged);
    var rest := image[sb.logStart + n + len..];
    SameLength(d, BatchRecord(d, c.batches[k]), damaged);
    DamageInPlace(d, image, sb, c, k, damaged);
    SameFrom(image, image', DATA_START);
    NewestFrame(d, image, image', sb);
    NewestIsLatest(d, image', sb);
    StorableBatches(c.batches);
    DamageIsRejected(d, c.batches[..k], c.batches[k], damaged, rest);
    NotOpenable(d, image', limit, mode, sb);
  }

  lemma DamageInPlace(d: Digests, image: Bytes, sb: Superblock, c: Content, k: nat, damaged: Bytes)
    requires k < |c.batches| && |damaged| == |BatchRecord(d, c.batches[k])|
    requires var n, len := |LogBytes(d, c.batches[..k])|, |BatchRecord(d, c.batches[k])|;
             && DATA_START <= sb.logStart <= sb.logStart + n + len <= |image|
             && image[sb.logStart..sb.logStart + n] == LogBytes(d, c.batches[..k])
    ensures var image', n := WithDamage(d, image, sb, c, k, damaged), |LogBytes(d, c.batches[..k])|;
            && |image'| == |image| && (forall i :: 0 <= i < DATA_START ==> image'[i] == image[i])
            && image'[sb.logStart..] ==
               LogBytes(d, c.batches[..k]) + damaged + image[sb.logStart + n + |damaged|..]
  {
    hide LogBytes, BatchRecord;
    var at := sb.logStart + |LogBytes(d, c.batches[..k])|;
    SubSlice(image, 0, at, sb.logStart, at);
    assert image[..at][sb.logStart..] == image[sb.logStart..at];
  }

  lemma SameLength(d: Digests, record: Bytes, damaged: Bytes)
    requires Noticeable(d, record, damaged)
    ensures |damaged| == |record|
  {
  }

  lemma StorableBatches(batches: seq<seq<Op>>)
    requires StorableLog(batches)
    ensures forall i :: 0 <= i < |batches| ==> StorableBatch(batches[i])
  {
    hide StorableBatch;
  }

  lemma NotOpenable(d: Digests, image: Bytes, limit: nat, mode: Mode, sb: Superblock)
    requires Latest(d, image) == RootResult.Found(sb)
    requires sb.logStart <= |image| && Scan(d, image[sb.logStart..]).Rejected?
    ensures !Openable(d, image, limit, mode)
  {
    hide Latest, Accepts, Scan;
  }
}
