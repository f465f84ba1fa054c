/** What validation leaves open: whether lookup reaches every record of a validated Base. */
module Reachability {
  import opened Bytes
  import opened Segment
  import opened Lookup
  import opened Records
  import opened Layout
  import opened Roots
  import opened Images

  /** Probe `p` for the key of record `i` meets its slot, and no earlier probe meets an empty slot. */
  ghost predicate ReachableAt(d: Digests, data: Bytes, start: nat, slots: nat, entries: seq<Entry>, i: nat, p: nat) {
    && i < |entries| && p < slots && RecordsStart(slots) <= |data|
    && PointsAt(d, ProbedSlot(d, data, slots, entries[i].key, p), start, slots, entries, i)
    && Unbroken(d, data, slots, entries[i].key, p)
  }

  ghost predicate Reachable(d: Digests, data: Bytes, start: nat, slots: nat, entries: seq<Entry>, i: nat) {
    exists p :: ReachableAt(d, data, start, slots, entries, i, p)
  }

  function ProbedSlot(d: Digests, data: Bytes, slots: nat, key: Bytes, p: nat): Slot
    requires p < slots && RecordsStart(slots) <= |data|
  {
    ReadSlot(data, SlotOfProbe(d.hash(key), p, slots))
  }

  /** The first `p` probes for the key all meet occupied slots. */
  ghost predicate Unbroken(d: Digests, data: Bytes, slots: nat, key: Bytes, p: nat) {
    && p <= slots && RecordsStart(slots) <= |data|
    && forall q: nat :: q < p ==> ProbedSlot(d, data, slots, key, q) != EMPTY
  }

  /** One probe of a validated Base. */
  lemma ProbeStep(d: Digests, data: Bytes, start: nat, slots: nat, entries: seq<Entry>, key: Bytes, p: nat)
    returns (i: nat)
    requires Sound(d, data, start, slots, entries) && p < slots
    ensures RecordsStart(slots) <= |data|
    ensures var found := LookupFrom(data, |data|, start, slots, key, d.hash(key), p);
            var slot := ProbedSlot(d, data, slots, key, p);
            if slot == EMPTY then found == None
            else
              && i < |entries| && PointsAt(d, slot, start, slots, entries, i)
              && found == if entries[i].key == key then Some(entries[i].value)
                          else LookupFrom(data, |data|, start, slots, key, d.hash(key), p + 1)
  {
    hide Sound, ReadSlot, PointsAt, SlotOfProbe, CompareRecord, Fingerprint;
    SoundParts(d, data, start, slots, entries);
    i := SoundSlot(d, data, start, slots, entries, SlotOfProbe(d.hash(key), p, slots));
    var slot := ProbedSlot(d, data, slots, key, p);
    if slot != EMPTY {
      PointsInRange(d, slot, start, slots, entries, i);
      PackedCompare(data, start, slots, entries, i, key);
    }
  }

  lemma PackedCompare(data: Bytes, start: nat, slots: nat, entries: seq<Entry>, i: nat, key: Bytes)
    requires Packed(data, slots, entries) && i < |entries|
    ensures CompareRecord(data, |data|, start, start + RecordOffset(entries, slots, i), key)
            == if entries[i].key == key then Hit(entries[i].value) else Miss
  {
    hide CompareRecord, RecordBytes, RecordOffset, RecordsBytes, TrustedRecordAt, RecordAt, Encodable, U32At;
    PackedBytes(data, slots, entries, i);
    CompareReadsBack(data, |data|, start, RecordOffset(entries, slots, i), entries[i], key);
  }

  lemma Occupied(d: Digests, data: Bytes, start: nat, slots: nat, entries: seq<Entry>, i: nat, p: nat, q: nat)
    requires ReachableAt(d, data, start, slots, entries, i, p) && q <= p
    ensures i < |entries| && q < slots && RecordsStart(slots) <= |data|
    ensures ProbedSlot(d, data, slots, entries[i].key, q) != EMPTY
    ensures q == p ==> PointsAt(d, ProbedSlot(d, data, slots, entries[i].key, q), start, slots, entries, i)
  {
    hide ProbedSlot, PointsAt;
    if q == p {
      PointsInRange(d, ProbedSlot(d, data, slots, entries[i].key, q), start, slots, entries, i);
    }
  }

  lemma {:induction false} ReachableIsFound(d: Digests, data: Bytes, start: nat, slots: nat, entries: seq<Entry>,
                                            i: nat, p: nat, probe: nat)
    requires Sound(d, data, start, slots, entries) && ReachableAt(d, data, start, slots, entries, i, p) && probe <= p
    requires i < |entries| && p < slots && RecordsStart(slots) <= |data|
    ensures LookupFrom(data, |data|, start, slots, entries[i].key, d.hash(entries[i].key), probe)
            == Some(entries[i].value)
    decreases p - probe
  {
    hide *;
    Occupied(d, data, start, slots, entries, i, p, probe);
    var key := entries[i].key;
    var j := ProbeStep(d, data, start, slots, entries, key, probe);
    if probe == p {
      var slot := ProbedSlot(d, data, slots, key, p);
      PointsInRange(d, slot, start, slots, entries, i);
      PointsInRange(d, slot, start, slots, entries, j);
      SameOffsetSameRecord(entries, slots, i, j);
    } else {
      ReachableIsFound(d, data, start, slots, entries, i, p, probe + 1);
      if entries[j].key == key {
        SoundParts(d, data, start, slots, entries);
        SameKeySameEntry(entries, i, j);
      }
    }
  }

  lemma {:induction false} FoundIsReachable(d: Digests, data: Bytes, start: nat, slots: nat, entries: seq<Entry>,
                                            key: Bytes, probe: nat)
    returns (i: nat)
    requires Sound(d, data, start, slots, entries) && probe <= slots && Unbroken(d, data, slots, key, probe)
    requires LookupFrom(data, |data|, start, slots, key, d.hash(key), probe).Some?
    ensures i < |entries| && entries[i].key == key
    ensures LookupFrom(data, |data|, start, slots, key, d.hash(key), probe) == Some(entries[i].value)
    ensures Reachable(d, data, start, slots, entries, i)
    decreases slots - probe
  {
    hide Sound, ProbedSlot, PointsAt;
    assert probe < slots;
    hide LookupFrom;
    i := ProbeStep(d, data, start, slots, entries, key, probe);
    if entries[i].key == key {
      assert ReachableAt(d, data, start, slots, entries, i, probe);
    } else {
      i := FoundIsReachable(d, data, start, slots, entries, key, probe + 1);
    }
  }

  /** The keys of a validated Base that lookup answers as its map does. */
  ghost predicate LookupAgrees(d: Digests, data: Bytes, start: nat, slots: nat, entries: seq<Entry>)
    requires RecordsStart(slots) <= |data|
  {
    forall key :: LookupFrom(data, |data|, start, slots, key, d.hash(key), 0) == MapGet(AsMap(entries), key)
  }

  lemma FoundInMap(d: Digests, data: Bytes, start: nat, slots: nat, entries: seq<Entry>, key: Bytes)
    requires Sound(d, data, start, slots, entries)
    requires forall i :: 0 <= i < |entries| ==> Reachable(d, data, start, slots, entries, i)
    ensures RecordsStart(slots) <= |data|
    ensures LookupFrom(data, |data|, start, slots, key, d.hash(key), 0) == MapGet(AsMap(entries), key)
  {
    hide Sound, ReachableAt, LookupFrom, AsMap;
    SoundParts(d, data, start, slots, entries);
    AsMapHas(entries, key);
    if key in AsMap(entries) {
      var i :| 0 <= i < |entries| && entries[i] == Entry(key, AsMap(entries)[key]);
      assert Reachable(d, data, start, slots, entries, i);
      var p :| ReachableAt(d, data, start, slots, entries, i, p);
      Occupied(d, data, start, slots, entries, i, p, p);
      ReachableIsFound(d, data, start, slots, entries, i, p, 0);
    } else if LookupFrom(data, |data|, start, slots, key, d.hash(key), 0).Some? {
      var i := FoundIsReachable(d, data, start, slots, entries, key, 0);
    }
  }

  /** On a validated Base, lookup answers every key as the map does exactly when every record is reachable. */
  lemma LookupAgreesIffReachable(d: Digests, data: Bytes, start: nat, slots: nat, entries: seq<Entry>)
    requires Sound(d, data, start, slots, entries)
    ensures RecordsStart(slots) <= |data|
    ensures LookupAgrees(d, data, start, slots, entries)
            <==> forall i :: 0 <= i < |entries| ==> Reachable(d, data, start, slots, entries, i)
  {
    hide Sound, ReachableAt, LookupFrom, AsMap, Distinct;
    SoundParts(d, data, start, slots, entries);
    if LookupAgrees(d, data, start, slots, entries) {
      forall i | 0 <= i < |entries|
        ensures Reachable(d, data, start, slots, entries, i)
      {
        AsMapHas(entries, entries[i].key);
        var j := FoundIsReachable(d, data, start, slots, entries, entries[i].key, 0);
        SameKeySameEntry(entries, i, j);
      }
    }
    if forall i :: 0 <= i < |entries| ==> Reachable(d, data, start, slots, entries, i) {
      forall key: Bytes
        ensures LookupFrom(data, |data|, start, slots, key, d.hash(key), 0) == MapGet(AsMap(entries), key)
      {
        FoundInMap(d, data, start, slots, entries, key);
      }
    }
  }

  lemma SameKeySameEntry(entries: seq<Entry>, i: nat, j: nat)
    requires Distinct(entries) && i < |entries| && j < |entries| && entries[i].key == entries[j].key
    ensures i == j
  {
  }

  // ------------------------------------------------ validation alone is not enough

  /** One record stored one slot past its home, behind an empty slot. */
  function Misplaced(d: Digests, start: nat, e: Entry): (data: Bytes)
    requires start + RecordsStart(2) < U64_LIMIT
    ensures |data| == RecordsStart(2) + |RecordBytes(e)|
  {
    HeaderBytes(2, 1) + SlotsBytes(MisplacedIndex(d, start, e)) + RecordBytes(e)
  }

  function MisplacedIndex(d: Digests, start: nat, e: Entry): (index: seq<Slot>)
    requires start + RecordsStart(2) < U64_LIMIT
    ensures |index| == 2
  {
    var slot := Slot(Fingerprint(d.hash(e.key)), start + RecordsStart(2));
    if SlotOfProbe(d.hash(e.key), 0, 2) == 0 then [EMPTY, slot] else [slot, EMPTY]
  }

  lemma MisplacedSlots(d: Digests, start: nat, e: Entry, s: nat)
    requires start + RecordsStart(2) < U64_LIMIT && s < 2
    ensures ReadSlot(Misplaced(d, start, e), s) == MisplacedIndex(d, start, e)[s]
  {
    hide ReadSlot, SlotsBytes, HeaderBytes, MisplacedIndex, RecordBytes, SlotBytes;
    var data, index := Misplaced(d, start, e), MisplacedIndex(d, start, e);
    SlotsBytesAt(index, s);
    assert data[BASE_HEADER..RecordsStart(2)] == SlotsBytes(index);
    SubSlice(data, BASE_HEADER, RecordsStart(2), SLOT_SIZE * s, SLOT_SIZE * (s + 1));
    SlotReadsBack(data, s, index[s]);
  }

  lemma OnePacked(d: Digests, start: nat, e: Entry)
    requires Encodable(e) && start + RecordsStart(2) < U64_LIMIT
    ensures Packed(Misplaced(d, start, e), 2, [e])
    ensures RecordOffset([e], 2, 0) == RecordsStart(2)
    ensures HeaderBytes(2, 1) <= Misplaced(d, start, e)
  {
    hide RecordBytes, SlotsBytes, HeaderBytes, MisplacedIndex, Encodable;
    assert [e][..0] == [];
    assert RecordsBytes([e]) == RecordBytes(e);
  }

  /** The misplaced record passes the header check and validation. */
  lemma MisplacedIsSound(d: Digests, start: nat, e: Entry)
    requires Encodable(e) && start + RecordsStart(2) < U64_LIMIT
    ensures var data := Misplaced(d, start, e);
            && ReadHeader(data) == Some((2, 1)) && Sound(d, data, start, 2, [e])
            && ReadSlot(data, SlotOfProbe(d.hash(e.key), 0, 2)) == EMPTY
  {
    hide ReadSlot, Misplaced, RecordBytes, Encodable, RecordOffset, Packed, ReadHeader, HeaderBytes, Fingerprint,
         SlotOfProbe;
    var data := Misplaced(d, start, e);
    OnePacked(d, start, e);
    Layout.HeaderReadsBack(data, 2, 1);
    MisplacedSlots(d, start, e, 0);
    MisplacedSlots(d, start, e, 1);
    var home := SlotOfProbe(d.hash(e.key), 0, 2);
    assert SlotNames(d, data, start, 2, [e], 1 - home, 0);
    assert RecordNamed(d, data, start, 2, [e], 0);
    assert SlotNamesSome(d, data, start, 2, [e], 1 - home);
  }

  /** A segment of this data, with its checksums, and a root for it. */
  function Sealed(d: Digests, data: Bytes): (m: Bytes)
    ensures |m| == SegmentSize(|data|) && data <= m
  {
    data + Metadata(d, data)
  }

  function SealedRoot(d: Digests, generation: U64, start: nat, data: Bytes, slots: U64, len: U64): Superblock
    requires start + SegmentSize(|data|) < U64_LIMIT
  {
    var size := SegmentSize(|data|);
    Superblock(generation, start, size, slots, len, start + size, d.crc(Metadata(d, data)))
  }

  lemma SealedAccepted(d: Digests, generation: U64, start: nat, data: Bytes, slots: U64, len: U64, entries: seq<Entry>)
    requires start + SegmentSize(|data|) < U64_LIMIT && ReadHeader(data) == Some((slots, len))
    requires |entries| == len && Sound(d, data, start, slots, entries)
    ensures AcceptsBase(d, Sealed(d, data), SealedRoot(d, generation, start, data, slots, len))
    ensures DataLength(d, Sealed(d, data)) == Some(|data|)
  {
    hide ReadHeader, Sound, BlocksMatch, DataLength, Metadata;
    LayoutOfBytes(d, data);
    BlocksOfBytes(d, data);
    var m := Sealed(d, data);
    assert m[..|data|] == data && m[|data|..] == Metadata(d, data);
    assert Validated(d, data, start, slots, len);
  }

  /**
   * A counterexample for every hash function and every entry: under a matching root the segment passes
   * everything a Full open checks, yet lookup misses the one key it stores.
   */
  lemma ValidatedButUnreachable(d: Digests, generation: U64, start: nat, e: Entry)
    requires Encodable(e) && start + SegmentSize(RecordsStart(2) + |RecordBytes(e)|) < U64_LIMIT
    ensures var data := Misplaced(d, start, e);
            var m := Sealed(d, data);
            && AcceptsBase(d, m, SealedRoot(d, generation, start, data, 2, 1)) && DataLength(d, m) == Some(|data|)
            && Sound(d, data, start, 2, [e])
            && MapGet(AsMap([e]), e.key) == Some(e.value)
            && LookupFrom(m, |data|, start, 2, e.key, d.hash(e.key), 0) == None
  {
    var data := Misplaced(d, start, e);
    assert |data| == RecordsStart(2) + |RecordBytes(e)| && RecordsStart(2) <= |data| <= SegmentSize(|data|);
    hide ReadSlot, Misplaced, RecordBytes, Encodable, ReadHeader, SlotOfProbe, Sound, AcceptsBase, DataLength,
         SegmentSize, Sealed;
    MisplacedIsSound(d, start, e);
    SealedAccepted(d, generation, start, data, 2, 1, [e]);
    SameReads(data, Sealed(d, data), SlotOfProbe(d.hash(e.key), 0, 2));
  }
}
