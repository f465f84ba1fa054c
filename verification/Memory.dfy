/** The in-memory backend, and its agreement with the file backend. */
module Memory {
  import opened Bytes
  import opened Log
  import opened Overlay
  import opened Roots
  import opened Segment
  import opened Lookup
  import opened Layout
  import opened Images
  import opened Iteration
  import opened Listing
  import opened Device
  import opened CrashSafety
  import opened Storage
  import opened Database
  import opened Visible
  import PowersOfTwo
  import Runs

  // ------------------------------------------------------------- the memory backend

  /** A database in memory: a Base in owned bytes, a table of changes, and a logical length. */
  class MemoryDatabase {
    const d: Digests
    const maxBytes: U64
    var base: Bytes
    var slots: nat
    var len: nat
    var changes: Changes
    var length: nat
    ghost var b: Base

    ghost predicate Valid()
      reads this
    {
      && Segment.Valid(d, b) && b.start == DATA_START && base == BaseBytes(d, b)
      && slots == |b.owner| && len == |b.entries|
      && StorableChanges(changes)
      && DATA_START + |base| <= length <= maxBytes
    }

    ghost function Contents(): map<Bytes, Bytes>
      reads this
    {
      Overlaid(AsMap(b.entries), changes)
    }

    /** `initialize_storage`: an empty Base and an empty log. */
    constructor (d: Digests, maxBytes: U64)
      requires DATA_START + EntriesSize([]) <= maxBytes
      ensures this.d == d && this.maxBytes == maxBytes && Valid()
      ensures Contents() == map[] && length == DATA_START + EntriesSize([])
    {
      Runs.EmptyBuildable();
      var w;
      ghost var built;
      w, built := BuildBase(d, DATA_START, 0, []);
      var bytes := w.value.head + w.value.records + w.value.metadata;
      this.d, this.maxBytes, base, slots, len := d, maxBytes, bytes, w.value.slots, 0;
      changes, length, b := map[], DATA_START + |bytes|, built;
      new;
      hide Segment.Valid, Head, RecordsBytes, Metadata, Data, SlotCount, SegmentSize, Size, DataSize, RecordsStart,
           BaseBytes, RootOf, AsMap, Overlaid;
      BaseSplits(d, built);
      BuiltRoot(d, 0, built, w.value);
      NothingStorable();
      EmptyOverlay(AsMap([]));
    }

    /** `commit_staged_memory`: the log is not materialised, only its length is kept. */
    method Commit(staged: seq<Op>) returns (r: Result)
      requires Valid() && Staged(staged)
      modifies this
      ensures Valid() && b == old(b)
      ensures r == Verdict(staged, old(length), maxBytes)
      ensures r.Ok? && staged != [] ==> length == old(length) + Log.HEADER_SIZE + |Payload(staged)|
      ensures r.Err? || staged == [] ==> length == old(length)
      ensures Contents() == if r.Ok? then Updated(old(Contents()), staged) else old(Contents())
    {
      hide Segment.Valid, BaseBytes, AsMap, Overlaid, Updated, Payload, Loggable, ApplyOps;
      NoBatch(Contents(), staged);
      if staged == [] {
        return Ok;
      }
      var payloadLen := BatchPayloadLen(staged);
      if payloadLen.None? {
        return Err(TooLarge);
      }
      if length + Log.HEADER_SIZE + payloadLen.value > maxBytes {
        return Err(DatabaseFull);
      }
      length := length + Log.HEADER_SIZE + payloadLen.value;
      OverlaidUpdates(AsMap(b.entries), changes, staged);
      StorableOps(changes, staged);
      changes := Installed(changes, staged);
      r := Ok;
    }

    method LiveEntries() returns (entries: seq<Entry>)
      requires Valid()
      ensures Distinct(entries) && AsMap(entries) == Contents()
      ensures forall i :: 0 <= i < |entries| ==> Storable(entries[i])
    {
      assert Segment.Valid(d, b) && base == BaseBytes(d, b) && StorableChanges(changes);
      assert slots == |b.owner| && len == |b.entries|;
      assert Contents() == Overlaid(AsMap(b.entries), changes);
      hide *;
      BaseIsAccepted(d, 0, b);
      var table := changes;
      var out, end := WalkBase(d, base, slots, len, DataLength(d, base).value, true, key => key in table, b, changes);
      var values := MemoryValues(changes);
      BaseFacts(d, b);
      CollectedIsLive(b.entries, changes, out, values);
      entries := out + values;
      ListedStorable(d, b, changes, entries);
    }

    /** `compact_memory`: builds the Base anew at the start and drops the logical log. */
    method Compact() returns (r: Result)
      requires Valid()
      modifies this
      ensures Valid() && Contents() == old(Contents())
      ensures r == MemoryVerdict(old(Contents()), maxBytes)
      ensures r.Ok? ==> changes == map[] && length == DATA_START + MapSize(Contents()).value
      ensures r.Err? ==> length == old(length)
    {
      hide Segment.Valid, BaseBytes, AsMap, Distinct, EntriesSize, Buildable, SlotCount, SegmentSize, RecordsBytes,
           RecordsStart, Size, Storable, StorableChanges, Overlaid, MapSize;
      if changes == map[] && length == DATA_START + |base| {
        EmptyOverlay(AsMap(b.entries));
        MemorySize(d, b);
        return Ok;
      }
      var entries := LiveEntries();
      MapSizeOf(entries);
      var measured := MeasureBase(entries);
      MeasuredAs(entries, measured);
      if measured.None? {
        return Err(TooLarge);
      }
      var size := measured.value.1;
      if DATA_START + size >= U64_LIMIT {
        return Err(TooLarge);
      }
      if DATA_START + size > maxBytes {
        return Err(DatabaseFull);
      }
      MeasuredFits(entries, size, DATA_START);
      ghost var built;
      base, slots, built := Rebuild(entries);
      b, len, changes, length := built, |entries|, map[], DATA_START + |base|;
      EmptyOverlay(AsMap(entries));
      NothingStorable();
      r := Ok;
    }

    method Rebuild(entries: seq<Entry>) returns (bytes: Bytes, slots: nat, ghost built: Base)
      requires Distinct(entries) && Buildable(DATA_START, entries)
      ensures Segment.Valid(d, built) && built.start == DATA_START && built.entries == entries
      ensures bytes == BaseBytes(d, built) && slots == |built.owner| && |bytes| == EntriesSize(entries)
    {
      hide Segment.Valid, Head, RecordsBytes, Metadata, Data, Storable, Distinct, SlotCount, SegmentSize, Size,
           DataSize, RecordsStart, BaseBytes, RootOf;
      var written;
      written, built := BuildBase(d, DATA_START, |entries|, entries);
      var w := written.value;
      BaseSplits(d, built);
      BuiltRoot(d, 0, built, w);
      bytes := w.head + w.records + w.metadata;
      slots := w.slots;
    }
  }

  /** `set_overlay_entry` for each staged change. */
  method Installed(changes: Changes, staged: seq<Op>) returns (r: Changes)
    ensures r == ApplyOps(changes, staged)
  {
    r := changes;
    for i := 0 to |staged|
      invariant r == ApplyOps(changes, staged[..i])
    {
      r := r[staged[i].key := ChangeOf(staged[i])];
      assert staged[..i + 1][..i] == staged[..i];
    }
    assert staged[..|staged|] == staged;
  }

  method MemoryValues(changes: Changes) returns (out: seq<Entry>)
    ensures Lists(out, changes, changes.Keys)
  {
    hide Lists;
    out := [];
    ghost var done: set<Bytes> := {};
    NothingListed(changes);
    var keys := changes.Keys;
    while keys != {}
      invariant keys <= changes.Keys && done !! keys && done + keys == changes.Keys
      invariant Lists(out, changes, done)
      decreases |keys|
    {
      var k :| k in keys;
      ListsMore(out, changes, done, k);
      out := if changes[k].Some? then out + [Entry(k, changes[k].value)] else out;
      done, keys := done + {k}, keys - {k};
    }
    assert done == changes.Keys;
  }

  lemma ListedStorable(d: Digests, b: Base, changes: Changes, entries: seq<Entry>)
    requires Segment.Valid(d, b) && StorableChanges(changes) && Distinct(entries)
    requires AsMap(entries) == Overlaid(AsMap(b.entries), changes)
    ensures forall i :: 0 <= i < |entries| ==> Storable(entries[i])
  {
    hide *;
    BaseFacts(d, b);
    forall i | 0 <= i < |entries|
      ensures Storable(entries[i])
    {
      AsMapHas(entries, entries[i].key);
      AnswerIsOverlaid(AsMap(b.entries), changes, entries[i].key);
      StorableAnswer(b.entries, changes, entries[i]);
    }
  }

  lemma EmptyOverlay(base: map<Bytes, Bytes>)
    ensures Overlaid(base, map[]) == base
  {
  }

  lemma NothingStorable()
    ensures StorableChanges(map[])
  {
  }

  /** How a compaction in memory ends: a Base of exactly the map must fit behind the root pages. */
  ghost function MemoryVerdict(m: map<Bytes, Bytes>, limit: nat): Result {
    match MapSize(m)
    case None => Err(TooLarge)
    case Some(size) =>
      if DATA_START + size >= U64_LIMIT then Err(TooLarge)
      else if DATA_START + size > limit then Err(DatabaseFull)
      else Ok
  }

  lemma MemorySize(d: Digests, b: Base)
    requires Segment.Valid(d, b)
    ensures MapSize(AsMap(b.entries)) == Some(|BaseBytes(d, b)|)
  {
    hide Segment.Valid, BaseBytes, EntriesSize, Size, SlotCount, Distinct, AsMap;
    BaseFacts(d, b);
    SlotsKnown(d, b);
    Rebuildable(d, b, 0);
    MapSizeOf(b.entries);
  }

  // ------------------------------------------------------------ the two backends agree

  /** Both backends hold the same map and report the same length. */
  ghost predicate Alike(h: Handle, mem: MemoryDatabase)
    reads h, h.file, h.overlay, mem
  {
    && h.Valid() && h.state == Healthy && mem.Valid() && mem.maxBytes == h.maxBytes
    && h.Contents() == mem.Contents() && h.file.Length() == mem.length
  }

  /** The same batch on both: unless the file system fails, the same verdict, map and length. */
  method CommitBoth(h: Handle, mem: MemoryDatabase, ops: seq<Op>) returns (r: Result, s: Result)
    requires Alike(h, mem) && Staged(ops)
    modifies h`state, h`content, h.file, h.overlay, mem
    ensures r != Err(Io) ==> r == s == Verdict(ops, old(mem.length), mem.maxBytes) && Alike(h, mem)
    ensures r != Err(Io) ==> StateOf(h) == Committed(old(StateOf(h)), ops, h.maxBytes)
    ensures old(h.file.clock) <= h.file.clock && (r == Err(Io) ==> Fault(h.file.plan, old(h.file.clock), h.file.clock))
  {
    hide Standing, Told, Serves, Ready, Settled, BackedBy, Image, Meaning, Overlaid, Updated, WithBatch, Payload,
         LogBytes, Throughout, Staged, StorableChanges, Segment.Valid, BaseBytes, AsMap;
    ghost var content, disk := h.content, h.file.disk;
    r := h.Commit(ops);
    s := mem.Commit(ops);
    if r.Ok? {
      CommitSeen(h.d, disk, h.file.disk, h.root, content, h.content, ops);
    }
  }

  /**
   * When the two backends agree on a compaction: there is nothing to do, the staging copy fits as
   * well, or not even the Base itself fits.
   */
  ghost predicate VerdictsMeet(s: State, limit: nat) {
    s.compact
    || match MapSize(s.m)
       case None => true
       case Some(size) => RoomFor(size, s.length, limit) || DATA_START + size > limit
  }

  /**
   * A compaction of both. Unless the file system fails, they agree exactly when their verdicts meet;
   * then the map and the length agree too. When they part, memory was compacted and the file was not.
   */
  method CompactBoth(h: Handle, mem: MemoryDatabase) returns (r: Result, s: Result)
    requires Alike(h, mem) && h.views == [] && h.root.generation + 2 < U64_LIMIT
    modifies h`state, h`root, h`mapping, h`content, h.file, h.overlay, mem
    ensures h.Valid() && mem.Valid() && h.Contents() == mem.Contents() == old(h.Contents())
    ensures old(h.file.clock) <= h.file.clock
    ensures r == Err(Io) ==> Fault(h.file.plan, old(h.file.clock), h.file.clock)
    ensures s == MemoryVerdict(old(h.Contents()), h.maxBytes)
    ensures r != Err(Io) ==>
              var was := old(StateOf(h));
              && r == CompactVerdict(was.m, was.compact, was.length, h.maxBytes)
              && ((r.Ok? <==> s.Ok?) <==> VerdictsMeet(was, h.maxBytes))
              && StateOf(h) == Compacted(was, h.maxBytes)
    ensures r != Err(Io) && (r.Ok? <==> s.Ok?) ==> Alike(h, mem)
    ensures r.Err? && r != Err(Io) ==> h.state == Healthy && h.root == old(h.root) && h.file.disk == old(h.file.disk)
    ensures r.Ok? ==> s.Ok?
  {
    hide Serves, Ready, Settled, BackedBy, Image, Meaning, Overlaid, AllSteady, StorableChanges, Segment.Valid,
         BaseBytes, AsMap, MapSize, Standing, Told, Doubled, Fault;
    ghost var length := h.file.Length();
    if AlreadyCompact(h.root, length) {
      CompactLength(h.d, h.file.disk, h.root, h.mapping, h.content, h.overlay.index, h.overlay.memory);
    }
    r := h.Compact();
    s := mem.Compact();
  }

  lemma ExpectedNothing(s: State, script: seq<Runs.Action>, limit: nat)
    ensures Runs.Expected(s, script[..0], limit) == s
  {
  }

  /** Why a joint run stopped short. */
  datatype Halt = Finished | FileFailed | GenerationLimit | Apart

  /** One action on both backends. Unless the file system fails, it is carried out or has a reason not to be. */
  method ActBoth(h: Handle, mem: MemoryDatabase, action: Runs.Action) returns (halt: Halt)
    requires Alike(h, mem) && h.views == [] && (action.Submit? ==> Staged(action.ops))
    modifies h`state, h`root, h`mapping, h`content, h.file, h.overlay, mem
    ensures old(h.file.clock) <= h.file.clock
    ensures halt.Finished? ==> Alike(h, mem) && StateOf(h) == Runs.Step(old(StateOf(h)), action, h.maxBytes)
    ensures halt.FileFailed? ==> Fault(h.file.plan, old(h.file.clock), h.file.clock)
    ensures halt.GenerationLimit? ==> Alike(h, mem) && StateOf(h) == old(StateOf(h))
    ensures halt.GenerationLimit? ==> action.Rebuild? && h.root.generation + 2 >= U64_LIMIT
    ensures halt.Apart? ==> action.Rebuild? && Parted(h, mem) && StateOf(h) == old(StateOf(h))
  {
    hide Alike, Staged, StateOf, Committed, CompactVerdict, Verdict, Serves, Ready, Settled, BackedBy, Standing, Told,
         Image, Meaning;
    halt := Finished;
    match action {
      case Submit(ops) =>
        var r, s := CommitBoth(h, mem, ops);
        if r == Err(Io) {
          halt := FileFailed;
        }
      case Rebuild =>
        if h.root.generation + 2 >= U64_LIMIT {
          return GenerationLimit;
        }
        StateParts(h);
        var r, s := CompactBoth(h, mem);
        if r == Err(Io) {
          halt := FileFailed;
        } else if r.Err? && s.Ok? {
          halt := Apart;
        }
      case Restart =>
    }
  }

  /** The same map in both, at a point where memory can be compacted and the file cannot. */
  ghost predicate Parted(h: Handle, mem: MemoryDatabase)
    reads h, h.file, h.overlay, mem
  {
    h.Valid() && h.state == Healthy && h.Contents() == mem.Contents() && !VerdictsMeet(StateOf(h), h.maxBytes)
  }

  /**
   * Any sequence of commits and compactions. It ends early only when the file system fails, when the
   * generation number is used up, or at a compaction whose verdicts do not meet. Unless the file system
   * fails, both backends have gone through the same plain states.
   */
  method RunBoth(h: Handle, mem: MemoryDatabase, script: seq<Runs.Action>) returns (done: nat, halt: Halt)
    requires Alike(h, mem) && h.views == []
    requires forall i :: 0 <= i < |script| && script[i].Submit? ==> Staged(script[i].ops)
    modifies h, h.file, h.overlay, mem
    ensures done <= |script| && (halt.Finished? <==> done == |script|)
    ensures halt.Finished? ==> Alike(h, mem)
    ensures halt.FileFailed? ==> Fault(h.file.plan, old(h.file.clock), h.file.clock)
    ensures halt.GenerationLimit? ==> script[done].Rebuild? && h.root.generation + 2 >= U64_LIMIT && Alike(h, mem)
    ensures halt.Apart? ==> script[done].Rebuild? && Parted(h, mem)
    ensures !halt.FileFailed? ==> StateOf(h) == Runs.Expected(old(StateOf(h)), script[..done], h.maxBytes)
  {
    hide Alike, Parted, Staged, StateOf, Runs.Expected, Runs.Step;
    done, halt := 0, Finished;
    ghost var first := StateOf(h);
    ExpectedNothing(first, script, h.maxBytes);
    while done < |script|
      invariant done <= |script| && Alike(h, mem) && h.views == [] && old(h.file.clock) <= h.file.clock
      invariant StateOf(h) == Runs.Expected(first, script[..done], h.maxBytes) && halt.Finished?
    {
      Runs.ExpectedMore(first, script, done, h.maxBytes);
      halt := ActBoth(h, mem, script[done]);
      if !halt.Finished? {
        return;
      }
      done := done + 1;
    }
  }

  // ------------------------------------------------------------ where the backends part

  /** An entry of 701 bytes makes a Base of 785 bytes: header, two slots, record, one checksum, footer. */
  lemma SmallBase(key: Bytes, value: Bytes)
    requires |key| == 1 && |value| == 700
    ensures MapSize(map[key := value]) == Some(785)
    ensures |Payload([Put(key, value)])| == 714
  {
    var e := Entry(key, value);
    assert [e][..0] == [];
    assert AsMap([e]) == map[key := value];
    assert RecordsBytes([e]) == RecordBytes(e);
    TwoSlots();
    MapSizeOf([e]);
    OpsBytesOne(Put(key, value));
  }

  lemma TwoSlots()
    ensures SlotCount(1) == Some(2)
  {
    hide PowersOfTwo.IsPowerOfTwo;
    assert PowersOfTwo.NextPowerOfTwo(1) == 1;
    assert PowersOfTwo.NextPowerOfTwo(2) == 2;
  }

  lemma EmptyBase()
    ensures EntriesSize([]) == 52 && Updated(map[], []) == map[]
  {
  }

  lemma OnePut(key: Bytes, value: Bytes)
    ensures Updated(map[], [Put(key, value)]) == map[key := value]
    ensures |key| == 1 && |value| == 700 ==> Staged([Put(key, value)])
  {
    assert [Put(key, value)][..0] == [];
  }

  lemma StartAlike(h: Handle, mem: MemoryDatabase)
    requires Runs.Live(h, map[], None) && h.state == Healthy && mem.Valid() && mem.maxBytes == h.maxBytes
    requires mem.Contents() == map[] && mem.length == h.file.Length()
    ensures Alike(h, mem) && h.views == []
  {
    hide Serves, Ready, Settled, BackedBy, Standing, Told, Image, Meaning, Overlaid, Segment.Valid, BaseBytes,
         Runs.Recoverable;
  }

  lemma AlikeParts(h: Handle, mem: MemoryDatabase)
    requires Alike(h, mem)
    ensures h.Contents() == mem.Contents() && h.file.Length() == mem.length
  {
    hide Serves, Ready, Settled, BackedBy, Standing, Told, Image, Meaning, Overlaid, Segment.Valid, BaseBytes;
  }

  /**
   * The two backends part with no failure at all: with one entry of 701 bytes, 8977 bytes hold the file
   * and a Base of the same map, but only from 9779 bytes on is there room for the second copy that the
   * file needs. Between the two, memory compacts and the file refuses.
   */
  method BackendsPart(d: Digests, limit: U64, key: Bytes, value: Bytes) returns (r: Result, s: Result)
    requires |key| == 1 && |value| == 700 && 8977 <= limit
    ensures r == if limit < 9779 then Err(DatabaseFull) else Ok
    ensures s == Ok
  {
    hide Alike, Runs.Live, Runs.Fresh, StateOf, Committed, Verdict, CompactVerdict, MemoryVerdict, Updated, MapSize,
         EntriesSize, Staged, Payload, Meaning, Overlaid, Serves, Ready, Settled, BackedBy, Standing, Told, Image,
         Segment.Valid, BaseBytes, AsMap, Compacted, VerdictsMeet;
    PartingStates(limit, key, value);
    OnePut(key, value);
    var plan := (n: nat) => false;
    var created := Runs.Create(d, limit, plan);
    var h := created.value;
    var mem := new MemoryDatabase(d, limit);
    StateParts(h);
    StartAlike(h, mem);
    var a, b := CommitBoth(h, mem, [Put(key, value)]);
    StateParts(h);
    r, s := CompactBoth(h, mem);
  }

  /** The plain states of that run. */
  lemma PartingStates(limit: U64, key: Bytes, value: Bytes)
    requires |key| == 1 && |value| == 700 && 8977 <= limit
    ensures DATA_START + EntriesSize([]) <= limit && Runs.Fresh().length == DATA_START + EntriesSize([])
    ensures var s := Committed(Runs.Fresh(), [Put(key, value)], limit);
            && Verdict([Put(key, value)], Runs.Fresh().length, limit) == Ok && s.generation == 1
            && CompactVerdict(s.m, s.compact, s.length, limit) == (if limit < 9779 then Err(DatabaseFull) else Ok)
            && MemoryVerdict(s.m, limit) == Ok
  {
    hide Updated, MapSize, EntriesSize, Payload;
    EmptyBase();
    SmallBase(key, value);
    OnePut(key, value);
  }
}
