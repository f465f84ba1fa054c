/** Point lookup in a Base, over the bytes it is stored as. */
module Lookup {
  import opened Bytes
  import opened PowersOfTwo
  import opened Segment

  function ReadSlot(m: Bytes, s: nat): Slot
    requires RecordsStart(s + 1) <= |m|
  {
    Slot(U32At(m, RecordsStart(s)), U64At(m, RecordsStart(s) + 4))
  }

  /** What comparing the record a slot points at with the key yields. */
  datatype Outcome = Miss | Reject | Hit(value: Bytes)

  function CompareRecord(m: Bytes, dataSize: nat, start: nat, absolute: nat, key: Bytes): Outcome
    requires dataSize <= |m|
  {
    if absolute < start then Reject
    else
      var offset := absolute - start;
      if offset + 8 > dataSize then Reject
      else
        var valueStart := offset + 8 + U32At(m, offset);
        var valueEnd := valueStart + U32At(m, offset + 4);
        if valueEnd <= dataSize && m[offset + 8..valueStart] == key then Hit(m[valueStart..valueEnd]) else Miss
  }

  /** The slot of a probe; the 64-bit sum wraps around before it is masked. */
  function SlotOfProbe(hash: U64, probe: nat, slots: nat): (s: nat)
    requires slots > 0
    ensures s < slots
  {
    Masked((hash + probe) % U64_LIMIT, slots)
  }

  /** The probe loop of `lookup_segment` from a given probe on, without checksum verification. */
  function LookupFrom(m: Bytes, dataSize: nat, start: nat, slots: nat, key: Bytes, hash: U64, probe: nat): Option<Bytes>
    requires dataSize <= |m| && RecordsStart(slots) <= dataSize && probe <= slots
    decreases slots - probe
  {
    if probe == slots then None
    else
      var slot := ReadSlot(m, SlotOfProbe(hash, probe, slots));
      if slot.offset == 0 then None
      else if slot.fingerprint == Fingerprint(hash) then
        match CompareRecord(m, dataSize, start, slot.offset, key)
        case Reject => None
        case Hit(value) => Some(value)
        case Miss => LookupFrom(m, dataSize, start, slots, key, hash, probe + 1)
      else LookupFrom(m, dataSize, start, slots, key, hash, probe + 1)
  }

  // ------------------------------------------------------------ the abstract map

  function AsMap(entries: seq<Entry>): map<Bytes, Bytes> {
    if entries == [] then map[]
    else AsMap(entries[..|entries| - 1])[entries[|entries| - 1].key := entries[|entries| - 1].value]
  }

  function MapGet<K, V>(m: map<K, V>, k: K): Option<V> {
    if k in m then Some(m[k]) else None
  }

  lemma {:induction false} AsMapHas(entries: seq<Entry>, key: Bytes)
    requires Distinct(entries)
    ensures key in AsMap(entries) ==> exists i :: 0 <= i < |entries| && entries[i] == Entry(key, AsMap(entries)[key])
    ensures forall i :: 0 <= i < |entries| && entries[i].key == key ==>
              MapGet(AsMap(entries), key) == Some(entries[i].value)
  {
    if entries != [] {
      var n := |entries| - 1;
      AsMapHas(entries[..n], key);
      assert forall i :: 0 <= i < n ==> entries[..n][i] == entries[i];
      if key in AsMap(entries) {
        if entries[n].key == key {
          assert entries[n] == Entry(key, AsMap(entries)[key]);
        } else {
          var i :| 0 <= i < n && entries[..n][i] == Entry(key, AsMap(entries)[key]);
          assert entries[i] == Entry(key, AsMap(entries)[key]);
        }
      }
    }
  }

  // ------------------------------------------------------- bytes of a written Base

  lemma {:induction false} SlotsBytesAt(index: seq<Slot>, s: nat)
    requires s < |index|
    ensures SlotsBytes(index)[SLOT_SIZE * s..SLOT_SIZE * (s + 1)] == SlotBytes(index[s])
  {
    hide SlotBytes;
    var n := |index| - 1;
    if s < n {
      SlotsBytesAt(index[..n], s);
      assert SlotsBytes(index)[..SLOT_SIZE * n] == SlotsBytes(index[..n]);
      SubSlice(SlotsBytes(index), 0, SLOT_SIZE * n, SLOT_SIZE * s, SLOT_SIZE * (s + 1));
    }
  }

  lemma SlotReadsBack(m: Bytes, s: nat, slot: Slot)
    requires RecordsStart(s + 1) <= |m|
    requires m[RecordsStart(s)..RecordsStart(s + 1)] == SlotBytes(slot)
    ensures ReadSlot(m, s) == slot
  {
    hide LittleEndian, U32At, U64At;
    var at := RecordsStart(s);
    SubSlice(m, at, at + 12, 0, 4);
    SubSlice(m, at, at + 12, 4, 12);
    assert SlotBytes(slot)[0..4] == LittleEndian(slot.fingerprint, 4);
    assert SlotBytes(slot)[4..12] == LittleEndian(slot.offset, 8);
    U32AtEncoded(m, at, slot.fingerprint);
    U64AtEncoded(m, at + 4, slot.offset);
  }

  /** Each slot of the written bytes is the builder's slot. */
  lemma SlotOfBase(d: Digests, b: Base, s: nat)
    requires Valid(d, b) && s < |b.owner|
    ensures ReadSlot(BaseBytes(d, b), s) == SlotIn(d, b, s)
  {
    hide Valid, Metadata, SlotsBytes, RecordsBytes, SlotIn, HeaderBytes, ReadSlot, SlotBytes;
    var m := BaseBytes(d, b);
    var index := Index(d, b);
    SlotsBytesAt(index, s);
    assert m[BASE_HEADER..RecordsStart(|index|)] == SlotsBytes(index);
    SubSlice(m, BASE_HEADER, RecordsStart(|index|), SLOT_SIZE * s, SLOT_SIZE * (s + 1));
    SlotReadsBack(m, s, index[s]);
  }

  lemma RecordsBytesAt(entries: seq<Entry>, i: nat)
    requires i < |entries|
    ensures var before := |RecordsBytes(entries[..i])|;
            && before + |RecordBytes(entries[i])| <= |RecordsBytes(entries)|
            && RecordsBytes(entries)[before..before + |RecordBytes(entries[i])|] == RecordBytes(entries[i])
            && |RecordsBytes(entries[..i + 1])| == before + |RecordBytes(entries[i])|
  {
    hide RecordBytes;
    RecordsGrow(entries, i + 1, |entries|);
    assert entries[..|entries|] == entries;
    assert entries[..i + 1][..i] == entries[..i];
  }

  /** Reading a record header and body at `offset` recovers the entry written there. */
  lemma RecordReadsBack(m: Bytes, offset: nat, e: Entry)
    requires Encodable(e)
    requires offset + |RecordBytes(e)| <= |m|
    requires m[offset..offset + |RecordBytes(e)|] == RecordBytes(e)
    ensures U32At(m, offset) == |e.key| && U32At(m, offset + 4) == |e.value|
    ensures m[offset + 8..offset + 8 + |e.key|] == e.key
    ensures m[offset + 8 + |e.key|..offset + |RecordBytes(e)|] == e.value
  {
    hide LittleEndian, U32At;
    var r := RecordBytes(e);
    var end := offset + |r|;
    assert r[0..4] == LittleEndian(|e.key|, 4);
    assert r[4..8] == LittleEndian(|e.value|, 4);
    assert r[8..8 + |e.key|] == e.key;
    assert r[8 + |e.key|..|r|] == e.value;
    SubSlice(m, offset, end, 0, 4);
    SubSlice(m, offset, end, 4, 8);
    SubSlice(m, offset, end, 8, 8 + |e.key|);
    SubSlice(m, offset, end, 8 + |e.key|, |r|);
    U32AtEncoded(m, offset, |e.key|);
    U32AtEncoded(m, offset + 4, |e.value|);
  }

  lemma RecordOfBase(d: Digests, b: Base, i: nat)
    requires Valid(d, b) && i < |b.entries|
    ensures var m, offset := BaseBytes(d, b), RecordOffset(b.entries, |b.owner|, i);
            && offset + |RecordBytes(b.entries[i])| == RecordOffset(b.entries, |b.owner|, i + 1) <= DataSize(b)
            && m[offset..offset + |RecordBytes(b.entries[i])|] == RecordBytes(b.entries[i])
  {
    hide Valid, Metadata, RecordsBytes, RecordBytes, Head;
    var m := BaseBytes(d, b);
    var records := RecordsBytes(b.entries);
    var from := RecordsStart(|b.owner|);
    RecordsBytesAt(b.entries, i);
    assert m[from..from + |records|] == records;
    var before := |RecordsBytes(b.entries[..i])|;
    SubSlice(m, from, from + |records|, before, before + |RecordBytes(b.entries[i])|);
  }

  lemma CompareReadsBack(m: Bytes, dataSize: nat, start: nat, offset: nat, e: Entry, key: Bytes)
    requires Encodable(e)
    requires offset + |RecordBytes(e)| <= dataSize <= |m|
    requires m[offset..offset + |RecordBytes(e)|] == RecordBytes(e)
    ensures CompareRecord(m, dataSize, start, start + offset, key) == if e.key == key then Hit(e.value) else Miss
  {
    RecordReadsBack(m, offset, e);
    hide RecordBytes, U32At, Encodable;
  }

  lemma CompareOfBase(d: Digests, b: Base, i: nat, key: Bytes)
    requires Valid(d, b) && i < |b.entries|
    ensures CompareRecord(BaseBytes(d, b), DataSize(b), b.start, b.start + RecordOffset(b.entries, |b.owner|, i), key)
            == if b.entries[i].key == key then Hit(b.entries[i].value) else Miss
  {
    hide *;
    RecordOfBase(d, b, i);
    BaseFacts(d, b);
    CompareReadsBack(BaseBytes(d, b), DataSize(b), b.start, RecordOffset(b.entries, |b.owner|, i), b.entries[i], key);
  }

  lemma BaseFacts(d: Digests, b: Base)
    requires Valid(d, b)
    ensures DataSize(b) <= |BaseBytes(d, b)|
    ensures forall i :: 0 <= i < |b.entries| ==> Storable(b.entries[i])
    ensures forall i :: 0 <= i < |b.entries| ==> Encodable(b.entries[i])
    ensures Distinct(b.entries)
  {
  }

  // -------------------------------------------------------- lookup against the map

  /** Probing over slot owners: what the byte-level loop computes on a written Base. */
  function ProbeOwners(d: Digests, b: Base, key: Bytes, probe: nat): Option<Bytes>
    requires Valid(d, b) && probe <= |b.owner|
    decreases |b.owner| - probe
  {
    if probe == |b.owner| then None
    else
      var slot := b.owner[ProbeSlot(Home(d, key, |b.owner|), probe, |b.owner|)];
      if slot.None? then None
      else if b.entries[slot.value].key == key then Some(b.entries[slot.value].value)
      else ProbeOwners(d, b, key, probe + 1)
  }

  lemma SlotOfProbeIsProbeSlot(d: Digests, key: Bytes, probe: nat, slots: nat)
    requires IsPowerOfTwo(slots) && slots < U64_LIMIT
    ensures SlotOfProbe(d.hash(key), probe, slots) == ProbeSlot(Home(d, key, slots), probe, slots)
  {
    assert slots > 0;
    hide IsPowerOfTwo;
    WrappedProbe(d.hash(key) + probe, slots);
    AddThenMod(d.hash(key), probe, slots);
  }

  lemma {:induction false} BytesFollowOwners(d: Digests, b: Base, key: Bytes, probe: nat)
    requires Valid(d, b) && probe <= |b.owner|
    ensures LookupFrom(BaseBytes(d, b), DataSize(b), b.start, |b.owner|, key, d.hash(key), probe)
            == ProbeOwners(d, b, key, probe)
    decreases |b.owner| - probe
  {
    hide IsPowerOfTwo, BaseBytes, DataSize, ReadSlot, CompareRecord, SlotOfProbe, ProbeSlot, Home, Fingerprint,
         RecordOffset;
    if probe < |b.owner| {
      BytesFollowOwners(d, b, key, probe + 1);
      SlotOfProbeIsProbeSlot(d, key, probe, |b.owner|);
      var s := ProbeSlot(Home(d, key, |b.owner|), probe, |b.owner|);
      SlotOfBase(d, b, s);
      if b.owner[s].Some? {
        OffsetPositive(b, b.owner[s].value);
        CompareOfBase(d, b, b.owner[s].value, key);
      }
    }
  }

  lemma OffsetPositive(b: Base, i: nat)
    requires i <= |b.entries|
    ensures RecordOffset(b.entries, |b.owner|, i) > 0
  {
  }

  lemma {:induction false} AbsentKeyMisses(d: Digests, b: Base, key: Bytes, probe: nat)
    requires Valid(d, b) && probe <= |b.owner|
    requires forall i :: 0 <= i < |b.entries| ==> b.entries[i].key != key
    ensures ProbeOwners(d, b, key, probe).None?
    decreases |b.owner| - probe
  {
    hide ProbeSlot, Home, SlotCount, Size, Distinct, Storable, Reached;
    if probe < |b.owner| {
      AbsentKeyMisses(d, b, key, probe + 1);
    }
  }

  lemma {:induction false} PresentKeyHits(d: Digests, b: Base, i: nat, p: nat, probe: nat)
    requires Valid(d, b) && i < |b.entries| && probe <= p < |b.owner|
    requires ReachedAt(d, b, i, p)
    ensures ProbeOwners(d, b, b.entries[i].key, probe) == Some(b.entries[i].value)
    decreases p - probe
  {
    hide ProbeSlot, Home, Size, SlotCount, Storable, Reached;
    if probe < p {
      PresentKeyHits(d, b, i, p, probe + 1);
    }
  }

  lemma ReachingProbe(d: Digests, b: Base, i: nat) returns (p: nat)
    requires Valid(d, b) && i < |b.entries|
    ensures p < |b.owner| && ReachedAt(d, b, i, p)
  {
    hide ReachedAt;
    assert Reached(d, b, i);
    p :| p < |b.owner| && ReachedAt(d, b, i, p);
  }

  /** Lookup over the written bytes agrees with the map of the entries, for every key. */
  lemma LookupIsMap(d: Digests, b: Base, key: Bytes)
    requires Valid(d, b)
    ensures LookupFrom(BaseBytes(d, b), DataSize(b), b.start, |b.owner|, key, d.hash(key), 0)
            == MapGet(AsMap(b.entries), key)
  {
    hide *;
    BaseFacts(d, b);
    BytesFollowOwners(d, b, key, 0);
    AsMapHas(b.entries, key);
    if i :| 0 <= i < |b.entries| && b.entries[i].key == key {
      var p := ReachingProbe(d, b, i);
      PresentKeyHits(d, b, i, p, 0);
    } else {
      AbsentKeyMisses(d, b, key, 0);
      AbsentFromMap(b.entries, key);
    }
  }

  lemma AbsentFromMap(entries: seq<Entry>, key: Bytes)
    requires Distinct(entries)
    requires forall i :: 0 <= i < |entries| ==> entries[i].key != key
    ensures MapGet(AsMap(entries), key) == None
  {
    hide AsMap;
    AsMapHas(entries, key);
  }
}
