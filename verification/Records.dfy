/** Walking the packed records of a Base, and the semantic validation of a whole Base. */
module Records {
  import opened Bytes
  import opened PowersOfTwo
  import opened Segment
  import opened Lookup

  datatype Parsed = Parsed(entry: Entry, end: nat)

  /** `record_at`: the checked read of a record. */
  function RecordAt(m: Bytes, offset: nat, dataSize: nat): Option<Parsed>
    requires dataSize <= |m|
  {
    if offset + 8 > dataSize then None
    else
      var valueStart := offset + 8 + U32At(m, offset);
      var end := valueStart + U32At(m, offset + 4);
      if end > dataSize then None
      else Some(Parsed(Entry(m[offset + 8..valueStart], m[valueStart..end]), end))
  }

  /** `trusted_record_at`: the same read without bounds checks, for records known to be in place. */
  function TrustedRecordAt(m: Bytes, offset: nat): Parsed
    requires offset + 8 <= |m| && offset + 8 + U32At(m, offset) + U32At(m, offset + 4) <= |m|
  {
    var valueStart := offset + 8 + U32At(m, offset);
    var end := valueStart + U32At(m, offset + 4);
    Parsed(Entry(m[offset + 8..valueStart], m[valueStart..end]), end)
  }

  /** The unchecked read at `at` stays in bounds, and both reads return `found`. */
  predicate ReadsAs(m: Bytes, at: nat, dataSize: nat, found: Parsed) {
    && dataSize <= |m|
    && at + 8 <= |m| && at + 8 + U32At(m, at) + U32At(m, at + 4) <= |m|
    && TrustedRecordAt(m, at) == found
    && RecordAt(m, at, dataSize) == Some(found)
  }

  /** Both reads return entry `i` of a written Base and the place of the next one. */
  lemma WalkOfBase(d: Digests, b: Base, i: nat)
    requires Valid(d, b) && i < |b.entries|
    ensures ReadsAs(BaseBytes(d, b), RecordOffset(b.entries, |b.owner|, i), DataSize(b),
                    Parsed(b.entries[i], RecordOffset(b.entries, |b.owner|, i + 1)))
  {
    hide *;
    RecordOfBase(d, b, i);
    BaseFacts(d, b);
    WalkOfRecord(BaseBytes(d, b), RecordOffset(b.entries, |b.owner|, i), DataSize(b), b.entries[i]);
  }

  lemma WalkOfRecord(m: Bytes, at: nat, dataSize: nat, e: Entry)
    requires Encodable(e) && at + |RecordBytes(e)| <= dataSize <= |m|
    requires m[at..at + |RecordBytes(e)|] == RecordBytes(e)
    ensures ReadsAs(m, at, dataSize, Parsed(e, at + |RecordBytes(e)|))
  {
    hide RecordBytes, U32At, Encodable;
    RecordReadsBack(m, at, e);
    var valueStart := at + 8 + |e.key|;
    assert m[at + 8..valueStart] == e.key && m[valueStart..at + |RecordBytes(e)|] == e.value;
  }

  // ---------------------------------------------------------------- validation

  /** The record area of the data is exactly the packed form of these entries. */
  ghost predicate Packed(data: Bytes, slots: nat, entries: seq<Entry>) {
    && RecordsStart(slots) <= |data|
    && data[RecordsStart(slots)..] == RecordsBytes(entries)
    && forall i :: 0 <= i < |entries| ==> Encodable(entries[i])
  }

  /** The slot names record `i`: its absolute offset and the fingerprint of its key. */
  ghost predicate PointsAt(d: Digests, slot: Slot, start: nat, slots: nat, entries: seq<Entry>, i: nat) {
    && i < |entries|
    && slot.offset == start + RecordOffset(entries, slots, i)
    && slot.fingerprint == Fingerprint(d.hash(entries[i].key))
  }

  ghost predicate SlotNames(d: Digests, data: Bytes, start: nat, slots: nat, entries: seq<Entry>, s: nat, i: nat) {
    s < slots && RecordsStart(slots) <= |data| && PointsAt(d, ReadSlot(data, s), start, slots, entries, i)
  }

  ghost predicate SlotNamesSome(d: Digests, data: Bytes, start: nat, slots: nat, entries: seq<Entry>, s: nat) {
    exists i :: SlotNames(d, data, start, slots, entries, s, i)
  }

  ghost predicate RecordNamed(d: Digests, data: Bytes, start: nat, slots: nat, entries: seq<Entry>, i: nat) {
    exists s :: SlotNames(d, data, start, slots, entries, s, i)
  }

  /** The entries have distinct keys and correspond one to one to the occupied slots. */
  ghost predicate Sound(d: Digests, data: Bytes, start: nat, slots: nat, entries: seq<Entry>) {
    && Packed(data, slots, entries)
    && Distinct(entries)
    && (forall s: nat :: s < slots ==>
          ReadSlot(data, s) == EMPTY || SlotNamesSome(d, data, start, slots, entries, s))
    && (forall s: nat, t: nat :: s < t < slots && ReadSlot(data, s) != EMPTY ==>
          ReadSlot(data, s).offset != ReadSlot(data, t).offset)
    && (forall i :: 0 <= i < |entries| ==> RecordNamed(d, data, start, slots, entries, i))
  }

  /** There is a sound reading of the data with `len` records. */
  ghost predicate Validated(d: Digests, data: Bytes, start: nat, slots: nat, len: nat) {
    exists entries: seq<Entry> :: |entries| == len && Sound(d, data, start, slots, entries)
  }

  lemma PackedBytes(data: Bytes, slots: nat, entries: seq<Entry>, i: nat)
    requires Packed(data, slots, entries) && i < |entries|
    ensures var at := RecordOffset(entries, slots, i);
            && Encodable(entries[i]) && at + |RecordBytes(entries[i])| == RecordOffset(entries, slots, i + 1) <= |data|
            && data[at..at + |RecordBytes(entries[i])|] == RecordBytes(entries[i])
  {
    hide RecordBytes, RecordsBytes, Encodable;
    RecordsBytesAt(entries, i);
    var before := |RecordsBytes(entries[..i])|;
    SubSlice(data, RecordsStart(slots), |data|, before, before + |RecordBytes(entries[i])|);
  }

  /** Record `i` of a packed area: where it lies and what both reads return. */
  lemma PackedRecord(data: Bytes, slots: nat, entries: seq<Entry>, i: nat)
    requires Packed(data, slots, entries) && i < |entries|
    ensures ReadsAs(data, RecordOffset(entries, slots, i), |data|,
                    Parsed(entries[i], RecordOffset(entries, slots, i + 1)))
  {
    hide Packed, RecordOffset, Encodable, ReadsAs;
    PackedBytes(data, slots, entries, i);
    WalkOfRecord(data, RecordOffset(entries, slots, i), |data|, entries[i]);
  }

  /** After validation the unchecked walk is in bounds and equals the checked one, record by record. */
  lemma TrustedWalkIsChecked(d: Digests, data: Bytes, start: nat, slots: nat, entries: seq<Entry>, i: nat)
    requires Sound(d, data, start, slots, entries) && i < |entries|
    ensures ReadsAs(data, RecordOffset(entries, slots, i), |data|,
                    Parsed(entries[i], RecordOffset(entries, slots, i + 1)))
    ensures RecordOffset(entries, slots, |entries|) == |data|
  {
    hide ReadsAs, RecordsBytes, Encodable, Distinct, ReadSlot, SlotNamesSome, RecordNamed;
    PackedRecord(data, slots, entries, i);
    assert entries[..|entries|] == entries;
  }

  lemma TwoPieces(data: Bytes, from: nat, a: Bytes, b: Bytes)
    requires from <= |data| && a + b <= data[from..]
    ensures a <= data[from..] && from + |a| + |b| <= |data| && data[from + |a|..from + |a| + |b|] == b
  {
    var at := from + |a|;
    forall i | 0 <= i < |b|
      ensures data[at + i] == b[i]
    {
      assert data[from..][|a| + i] == (a + b)[|a| + i];
    }
    forall i | 0 <= i < |a|
      ensures data[from..][i] == a[i]
    {
      assert data[from..][i] == (a + b)[i];
    }
  }

  /** A place holds at most one record. */
  lemma OneRecord(data: Bytes, at: nat, a: Entry, b: Entry)
    requires Encodable(a) && at + |RecordBytes(a)| <= |data| && data[at..at + |RecordBytes(a)|] == RecordBytes(a)
    requires Encodable(b) && at + |RecordBytes(b)| <= |data| && data[at..at + |RecordBytes(b)|] == RecordBytes(b)
    ensures a == b
  {
    hide RecordBytes, Encodable, RecordAt, U32At, TrustedRecordAt;
    WalkOfRecord(data, at, |data|, a);
    WalkOfRecord(data, at, |data|, b);
  }

  lemma SameLast(data: Bytes, slots: nat, entries: seq<Entry>, i: nat, e: Entry)
    requires Packed(data, slots, entries) && i < |entries| && Encodable(e)
    requires var at := RecordOffset(entries, slots, i);
             at + |RecordBytes(e)| <= |data| && data[at..at + |RecordBytes(e)|] == RecordBytes(e)
    ensures entries[i] == e
  {
    hide *;
    PackedBytes(data, slots, entries, i);
    OneRecord(data, RecordOffset(entries, slots, i), entries[i], e);
  }

  /** Two packed readings of the same bytes agree as far as both go. */
  lemma {:induction false} PackedPrefix(data: Bytes, slots: nat, entries: seq<Entry>, walked: seq<Entry>)
    requires Packed(data, slots, entries) && |walked| <= |entries| && RecordsStart(slots) <= |data|
    requires forall i :: 0 <= i < |walked| ==> Encodable(walked[i])
    requires RecordsBytes(walked) <= data[RecordsStart(slots)..]
    ensures entries[..|walked|] == walked
  {
    hide Packed, Encodable, RecordBytes;
    if walked != [] {
      var n := |walked| - 1;
      TwoPieces(data, RecordsStart(slots), RecordsBytes(walked[..n]), RecordBytes(walked[n]));
      PackedPrefix(data, slots, entries, walked[..n]);
      SameLast(data, slots, entries, n, walked[n]);
      assert entries[..n + 1] == entries[..n] + [entries[n]];
    }
  }

  /** A segment has at most one validated reading. */
  lemma SoundReadingIsUnique(d: Digests, data: Bytes, start: nat, slots: nat, a: seq<Entry>, b: seq<Entry>)
    requires Sound(d, data, start, slots, a) && Sound(d, data, start, slots, b) && |a| == |b|
    ensures a == b
  {
    hide RecordsBytes, Encodable, Distinct, ReadSlot, SlotNamesSome, RecordNamed;
    PackedPrefix(data, slots, a, b);
    assert a[..|b|] == a;
  }

  /** `offset` and `fingerprint` belong to one of the entries. */
  ghost predicate Recorded(d: Digests, start: nat, slots: nat, entries: seq<Entry>, offset: nat, fingerprint: U32) {
    exists i :: RecordedAt(d, start, slots, entries, offset, fingerprint, i)
  }

  ghost predicate RecordedAt(d: Digests, start: nat, slots: nat, entries: seq<Entry>, offset: nat, fingerprint: U32,
                             i: nat) {
    && i < |entries| && offset == start + RecordOffset(entries, slots, i)
    && fingerprint == Fingerprint(d.hash(entries[i].key))
  }

  /** The table maps exactly the record offsets to their fingerprints. */
  ghost predicate Tabulates(d: Digests, start: nat, slots: nat, entries: seq<Entry>, records: map<nat, U32>) {
    && |records| == |entries|
    && (forall o :: o in records ==> Recorded(d, start, slots, entries, o, records[o]))
    && (forall i :: 0 <= i < |entries| ==> RowOf(d, start, slots, entries, records, i))
  }

  ghost predicate RowOf(d: Digests, start: nat, slots: nat, entries: seq<Entry>, records: map<nat, U32>, i: nat)
    requires i < |entries|
  {
    MapGet(records, start + RecordOffset(entries, slots, i)) == Some(Fingerprint(d.hash(entries[i].key)))
  }

  lemma OffsetsGrow(entries: seq<Entry>, slots: nat, i: nat, j: nat)
    requires i < j <= |entries|
    ensures RecordOffset(entries, slots, i) < RecordOffset(entries, slots, j)
  {
    hide RecordBytes;
    RecordsGrow(entries, i + 1, j);
    assert entries[..i + 1][..i] == entries[..i];
  }

  lemma OffsetsExtend(entries: seq<Entry>, e: Entry, slots: nat, i: nat)
    requires i <= |entries|
    ensures RecordOffset(entries + [e], slots, i) == RecordOffset(entries, slots, i)
  {
    assert (entries + [e])[..i] == entries[..i];
  }

  lemma TabulateOne(d: Digests, start: nat, slots: nat, entries: seq<Entry>, records: map<nat, U32>, e: Entry)
    requires Tabulates(d, start, slots, entries, records)
    ensures Tabulates(d, start, slots, entries + [e],
                      records[start + RecordOffset(entries, slots, |entries|) := Fingerprint(d.hash(e.key))])
  {
    hide RecordOffset, Fingerprint, Recorded;
    var n, grown := |entries|, entries + [e];
    var at := start + RecordOffset(entries, slots, n);
    var records' := records[at := Fingerprint(d.hash(e.key))];
    OffsetsExtend(entries, e, slots, n);
    forall o | o in records'
      ensures Recorded(d, start, slots, grown, o, records'[o])
      ensures o in records ==> o != at
    {
      var i := n;
      if o in records {
        i := RecordedIndex(d, start, slots, entries, o, records[o]);
        OffsetsExtend(entries, e, slots, i);
        OffsetsGrow(entries, slots, i, n);
      }
      RecordedHolds(d, start, slots, grown, o, records'[o], i);
    }
    forall i | 0 <= i < |grown|
      ensures RowOf(d, start, slots, grown, records', i)
    {
      OffsetsExtend(entries, e, slots, i);
      if i < n {
        assert RowOf(d, start, slots, entries, records, i);
        OffsetsGrow(entries, slots, i, n);
      }
    }
  }

  lemma RecordedIndex(d: Digests, start: nat, slots: nat, entries: seq<Entry>, offset: nat, fingerprint: U32)
    returns (i: nat)
    requires Recorded(d, start, slots, entries, offset, fingerprint)
    ensures RecordedAt(d, start, slots, entries, offset, fingerprint, i)
  {
    i :| RecordedAt(d, start, slots, entries, offset, fingerprint, i);
  }

  lemma RecordedHolds(d: Digests, start: nat, slots: nat, entries: seq<Entry>, offset: nat, fingerprint: U32, i: nat)
    requires RecordedAt(d, start, slots, entries, offset, fingerprint, i)
    ensures Recorded(d, start, slots, entries, offset, fingerprint)
  {
  }

  /** The entries walked so far, and the set of their keys. */
  ghost predicate Walked(data: Bytes, slots: nat, entries: seq<Entry>, keys: set<Bytes>) {
    && RecordsStart(slots) <= |data|
    && RecordsBytes(entries) <= data[RecordsStart(slots)..]
    && (forall i :: 0 <= i < |entries| ==> Encodable(entries[i]) && entries[i].key in keys)
    && (forall k :: k in keys ==> KeyOf(entries, k))
    && Distinct(entries)
  }

  ghost predicate KeyOf(entries: seq<Entry>, k: Bytes) {
    exists i :: 0 <= i < |entries| && entries[i].key == k
  }

  lemma WalkNothing(d: Digests, data: Bytes, start: nat, slots: nat)
    requires RecordsStart(slots) <= |data|
    ensures Walked(data, slots, [], {}) && Tabulates(d, start, slots, [], map[])
    ensures RecordOffset([], slots, 0) == RecordsStart(slots)
  {
  }

  lemma TooFewBytes(data: Bytes, slots: nat, len: nat)
    requires RecordsStart(slots) <= |data| && len > (|data| - RecordsStart(slots)) / 8
    ensures forall es: seq<Entry> :: |es| == len ==> !Packed(data, slots, es)
  {
    hide Encodable;
  }

  /** A checked read finds the one encoding of what it returns. */
  lemma RecordIsCanonical(m: Bytes, offset: nat, dataSize: nat)
    requires dataSize <= |m| && RecordAt(m, offset, dataSize).Some?
    ensures var f := RecordAt(m, offset, dataSize).value;
            && Encodable(f.entry) && f.end == offset + |RecordBytes(f.entry)| <= dataSize
            && m[offset..f.end] == RecordBytes(f.entry)
  {
    hide LittleEndian, U32At;
    var e, end := RecordAt(m, offset, dataSize).value.entry, RecordAt(m, offset, dataSize).value.end;
    U32AtCanonical(m, offset);
    U32AtCanonical(m, offset + 4);
    assert m[offset..end] == m[offset..offset + 4] + m[offset + 4..offset + 8] + e.key + e.value;
  }

  lemma WalkStep(data: Bytes, slots: nat, entries: seq<Entry>, keys: set<Bytes>)
    requires Walked(data, slots, entries, keys)
    requires RecordOffset(entries, slots, |entries|) <= |data|
    requires RecordAt(data, RecordOffset(entries, slots, |entries|), |data|).Some?
    requires RecordAt(data, RecordOffset(entries, slots, |entries|), |data|).value.entry.key !in keys
    ensures var f := RecordAt(data, RecordOffset(entries, slots, |entries|), |data|).value;
            && Walked(data, slots, entries + [f.entry], keys + {f.entry.key})
            && f.end == RecordOffset(entries + [f.entry], slots, |entries| + 1) <= |data|
  {
    hide RecordAt, RecordBytes, Encodable;
    var from, n := RecordsStart(slots), |entries|;
    assert entries[..n] == entries;
    var at := |RecordsBytes(entries)|;
    RecordIsCanonical(data, from + at, |data|);
    var f := RecordAt(data, from + at, |data|).value;
    var grown := entries + [f.entry];
    assert grown[..n] == entries && grown[..n + 1] == grown;
    SubSlice(data, from, |data|, at, f.end - from);
    assert data[from..][..f.end - from] == data[from..][..at] + data[from..][at..f.end - from];
    forall k | k in keys + {f.entry.key}
      ensures KeyOf(grown, k)
    {
      if k == f.entry.key {
        assert grown[n].key == k;
      } else {
        var i :| 0 <= i < n && entries[i].key == k;
        assert grown[i].key == k;
      }
    }
  }

  lemma WalkRefused(data: Bytes, slots: nat, entries: seq<Entry>, keys: set<Bytes>, len: nat)
    requires Walked(data, slots, entries, keys) && |entries| < len
    requires RecordOffset(entries, slots, |entries|) <= |data|
    requires var f := RecordAt(data, RecordOffset(entries, slots, |entries|), |data|);
             f.None? || f.value.entry.key in keys
    ensures forall es: seq<Entry> :: |es| == len && Packed(data, slots, es) ==> !Distinct(es)
  {
    hide RecordAt, RecordsBytes, Encodable, TrustedRecordAt, U32At;
    var n := |entries|;
    forall es: seq<Entry> | |es| == len && Packed(data, slots, es)
      ensures !Distinct(es)
    {
      PackedPrefix(data, slots, es, entries);
      assert entries[..n] == entries;
      PackedRecord(data, slots, es, n);
      assert KeyOf(entries, es[n].key);
      var i :| 0 <= i < n && entries[i].key == es[n].key;
      assert es[..n][i] == es[i];
    }
  }

  lemma WalkEnds(data: Bytes, slots: nat, entries: seq<Entry>, keys: set<Bytes>)
    requires Walked(data, slots, entries, keys) && RecordOffset(entries, slots, |entries|) <= |data|
    ensures RecordOffset(entries, slots, |entries|) == |data| ==> Packed(data, slots, entries) && Distinct(entries)
    ensures RecordOffset(entries, slots, |entries|) != |data| ==>
              forall es: seq<Entry> :: |es| == |entries| ==> !Packed(data, slots, es)
  {
    hide RecordsBytes, Encodable, Distinct;
    assert entries[..|entries|] == entries;
    forall es: seq<Entry> | |es| == |entries| && Packed(data, slots, es)
      ensures RecordOffset(entries, slots, |entries|) == |data|
    {
      PackedPrefix(data, slots, es, entries);
      assert es[..|entries|] == es;
    }
  }

  /** The record loop of `validate_base`: walks `len` records with distinct keys to the end of the data. */
  method CheckRecords(d: Digests, data: Bytes, start: nat, slots: nat, len: nat)
    returns (ok: bool, records: map<nat, U32>, ghost entries: seq<Entry>)
    requires RecordsStart(slots) <= |data|
    ensures ok ==> |entries| == len && Packed(data, slots, entries) && Distinct(entries)
    ensures ok ==> Tabulates(d, start, slots, entries, records)
    ensures !ok ==> forall es: seq<Entry> :: |es| == len && Packed(data, slots, es) ==> !Distinct(es)
  {
    hide RecordAt, RecordOffset, Packed, Distinct, Tabulates, Walked, Fingerprint;
    var offset, i := RecordsStart(slots), 0;
    var keys: set<Bytes> := {};
    records, entries := map[], [];
    WalkNothing(d, data, start, slots);
    if len > (|data| - offset) / 8 {
      TooFewBytes(data, slots, len);
      return false, records, entries;
    }
    while i < len
      invariant i == |entries| <= len
      invariant offset == RecordOffset(entries, slots, i) <= |data|
      invariant Walked(data, slots, entries, keys)
      invariant Tabulates(d, start, slots, entries, records)
    {
      var found := RecordAt(data, offset, |data|);
      if found.None? || found.value.entry.key in keys {
        WalkRefused(data, slots, entries, keys, len);
        return false, records, entries;
      }
      var e := found.value.entry;
      WalkStep(data, slots, entries, keys);
      TabulateOne(d, start, slots, entries, records, e);
      keys := keys + {e.key};
      records := records[start + offset := Fingerprint(d.hash(e.key))];
      entries := entries + [e];
      offset, i := found.value.end, i + 1;
    }
    ok := offset == |data|;
    WalkEnds(data, slots, entries, keys);
  }

  ghost predicate OffsetSeen(data: Bytes, slots: nat, s: nat, o: nat)
    requires RecordsStart(slots) <= |data| && s <= slots
  {
    exists t: nat :: t < s && ReadSlot(data, t).offset == o
  }

  /** The first `s` slots are empty or name records, each a different one; `referenced` is what they name. */
  ghost predicate SlotsChecked(data: Bytes, slots: nat, records: map<nat, U32>, s: nat, referenced: set<nat>) {
    && s <= slots && RecordsStart(slots) <= |data|
    && referenced <= records.Keys
    && (forall t: nat :: t < s ==> SlotFits(ReadSlot(data, t), records))
    && (forall t: nat :: t < s && ReadSlot(data, t) != EMPTY ==> ReadSlot(data, t).offset in referenced)
    && (forall t: nat, u: nat :: t < u < s && ReadSlot(data, t) != EMPTY ==>
          ReadSlot(data, t).offset != ReadSlot(data, u).offset)
    && (forall o :: o in referenced ==> o != 0 && OffsetSeen(data, slots, s, o))
  }

  predicate SlotFits(slot: Slot, records: map<nat, U32>) {
    slot == EMPTY || (slot.offset != 0 && slot.offset in records && records[slot.offset] == slot.fingerprint)
  }

  lemma SlotCheckStep(data: Bytes, slots: nat, records: map<nat, U32>, s: nat, referenced: set<nat>)
    requires SlotsChecked(data, slots, records, s, referenced) && s < slots
    requires SlotFits(ReadSlot(data, s), records)
    ensures ReadSlot(data, s) == EMPTY ==> SlotsChecked(data, slots, records, s + 1, referenced)
    ensures ReadSlot(data, s) != EMPTY && ReadSlot(data, s).offset !in referenced ==>
              SlotsChecked(data, slots, records, s + 1, referenced + {ReadSlot(data, s).offset})
  {
    hide ReadSlot;
    forall o | OffsetSeen(data, slots, s, o)
      ensures OffsetSeen(data, slots, s + 1, o)
    {
    }
    assert OffsetSeen(data, slots, s + 1, ReadSlot(data, s).offset);
  }

  /** What soundness says about one slot. */
  lemma SoundSlot(d: Digests, data: Bytes, start: nat, slots: nat, entries: seq<Entry>, s: nat) returns (i: nat)
    requires Sound(d, data, start, slots, entries) && s < slots
    ensures RecordsStart(s + 1) <= |data|
    ensures ReadSlot(data, s) == EMPTY || (i < |entries| && PointsAt(d, ReadSlot(data, s), start, slots, entries, i))
  {
    hide ReadSlot, PointsAt, Distinct, RecordNamed;
    i := 0;
    if ReadSlot(data, s) != EMPTY {
      assert SlotNamesSome(d, data, start, slots, entries, s);
      var j :| SlotNames(d, data, start, slots, entries, s, j);
      PointsInRange(d, ReadSlot(data, s), start, slots, entries, j);
      i := j;
    }
  }

  lemma PointsInRange(d: Digests, slot: Slot, start: nat, slots: nat, entries: seq<Entry>, i: nat)
    requires PointsAt(d, slot, start, slots, entries, i)
    ensures i < |entries| && slot.offset == start + RecordOffset(entries, slots, i) > 0
    ensures slot.fingerprint == Fingerprint(d.hash(entries[i].key))
  {
  }

  /** What soundness says about one record. */
  lemma SoundRecord(d: Digests, data: Bytes, start: nat, slots: nat, entries: seq<Entry>, i: nat) returns (s: nat)
    requires Sound(d, data, start, slots, entries) && i < |entries|
    ensures s < slots && RecordsStart(s + 1) <= |data| && PointsAt(d, ReadSlot(data, s), start, slots, entries, i)
  {
    hide ReadSlot, PointsAt, Distinct, SlotNamesSome;
    assert RecordNamed(d, data, start, slots, entries, i);
    s :| SlotNames(d, data, start, slots, entries, s, i);
  }

  lemma SoundDistinct(d: Digests, data: Bytes, start: nat, slots: nat, entries: seq<Entry>, s: nat, t: nat)
    requires Sound(d, data, start, slots, entries) && s < t < slots
    ensures ReadSlot(data, s) == EMPTY || ReadSlot(data, s).offset != ReadSlot(data, t).offset
  {
    hide ReadSlot, SlotNamesSome, RecordNamed, Distinct;
  }

  lemma CheckedFits(data: Bytes, slots: nat, records: map<nat, U32>, n: nat, referenced: set<nat>)
    requires SlotsChecked(data, slots, records, n, referenced)
    ensures n <= slots && RecordsStart(slots) <= |data| && referenced <= records.Keys
  {
    hide ReadSlot, OffsetSeen;
  }

  lemma TabulatedSize(d: Digests, start: nat, slots: nat, entries: seq<Entry>, records: map<nat, U32>)
    requires Tabulates(d, start, slots, entries, records)
    ensures |records| == |entries|
  {
    hide Recorded, RowOf;
  }

  lemma CheckedSlot(data: Bytes, slots: nat, records: map<nat, U32>, n: nat, referenced: set<nat>, s: nat)
    requires SlotsChecked(data, slots, records, n, referenced) && s < n
    ensures RecordsStart(s + 1) <= |data|
    ensures ReadSlot(data, s) == EMPTY ||
            (ReadSlot(data, s).offset in referenced
             && MapGet(records, ReadSlot(data, s).offset) == Some(ReadSlot(data, s).fingerprint))
  {
    hide ReadSlot, OffsetSeen;
  }

  lemma CheckedOffset(data: Bytes, slots: nat, records: map<nat, U32>, n: nat, referenced: set<nat>, o: nat)
    returns (s: nat)
    requires SlotsChecked(data, slots, records, n, referenced) && o in referenced
    ensures o != 0 && o in records && s < n <= slots && RecordsStart(s + 1) <= |data| && ReadSlot(data, s).offset == o
  {
    hide ReadSlot;
    assert OffsetSeen(data, slots, n, o);
    s :| s < n && ReadSlot(data, s).offset == o;
  }

  lemma TabulatedAt(d: Digests, start: nat, slots: nat, entries: seq<Entry>, records: map<nat, U32>, i: nat)
    requires Tabulates(d, start, slots, entries, records) && i < |entries|
    ensures MapGet(records, start + RecordOffset(entries, slots, i)) == Some(Fingerprint(d.hash(entries[i].key)))
  {
    hide RecordOffset, Fingerprint, Recorded;
    assert RowOf(d, start, slots, entries, records, i);
  }

  lemma TabulatedOffset(d: Digests, start: nat, slots: nat, entries: seq<Entry>, records: map<nat, U32>, o: nat)
    returns (i: nat)
    requires Tabulates(d, start, slots, entries, records) && o in records
    ensures i < |entries| && o == start + RecordOffset(entries, slots, i)
    ensures records[o] == Fingerprint(d.hash(entries[i].key))
  {
    hide RecordOffset, Fingerprint, RowOf;
    i := RecordedIndex(d, start, slots, entries, o, records[o]);
  }

  lemma SlotRefused(d: Digests, data: Bytes, start: nat, slots: nat, entries: seq<Entry>, records: map<nat, U32>,
                    s: nat, referenced: set<nat>)
    requires Tabulates(d, start, slots, entries, records)
    requires SlotsChecked(data, slots, records, s, referenced) && s < slots
    requires RecordsStart(s + 1) <= |data| && ReadSlot(data, s) != EMPTY
    requires var slot := ReadSlot(data, s);
             slot.offset == 0 || MapGet(records, slot.offset) != Some(slot.fingerprint) || slot.offset in referenced
    ensures !Sound(d, data, start, slots, entries)
  {
    hide *;
    var slot := ReadSlot(data, s);
    if Sound(d, data, start, slots, entries) {
      var i := SoundSlot(d, data, start, slots, entries, s);
      PointsInRange(d, slot, start, slots, entries, i);
      TabulatedAt(d, start, slots, entries, records, i);
      var t := CheckedOffset(data, slots, records, s, referenced, slot.offset);
      SoundDistinct(d, data, start, slots, entries, t, s);
      EmptyAtZero(ReadSlot(data, t));
    }
  }

  lemma EmptyAtZero(slot: Slot)
    requires slot.offset != 0
    ensures slot != EMPTY
  {
  }

  lemma SameOffsetSameRecord(entries: seq<Entry>, slots: nat, i: nat, j: nat)
    requires i < |entries| && j < |entries| && RecordOffset(entries, slots, i) == RecordOffset(entries, slots, j)
    ensures i == j && RecordOffset(entries, slots, i) > 0
  {
    if i < j {
      OffsetsGrow(entries, slots, i, j);
    } else if j < i {
      OffsetsGrow(entries, slots, j, i);
    }
  }

  lemma AllReferenced(d: Digests, data: Bytes, start: nat, slots: nat, entries: seq<Entry>, records: map<nat, U32>,
                      i: nat)
    requires Tabulates(d, start, slots, entries, records) && SlotsChecked(data, slots, records, slots, records.Keys)
    requires i < |entries|
    ensures RecordNamed(d, data, start, slots, entries, i)
  {
    hide ReadSlot, Fingerprint, RecordOffset, SlotsChecked, Tabulates;
    assert RecordsStart(slots) <= |data| by { CheckedFits(data, slots, records, slots, records.Keys); }
    var o := start + RecordOffset(entries, slots, i);
    TabulatedAt(d, start, slots, entries, records, i);
    var t := CheckedOffset(data, slots, records, slots, records.Keys, o);
    CheckedSlot(data, slots, records, slots, records.Keys, t);
    assert SlotNames(d, data, start, slots, entries, t, i);
  }

  lemma SoundReferences(d: Digests, data: Bytes, start: nat, slots: nat, entries: seq<Entry>, records: map<nat, U32>,
                        referenced: set<nat>, o: nat)
    requires Tabulates(d, start, slots, entries, records) && SlotsChecked(data, slots, records, slots, referenced)
    requires Sound(d, data, start, slots, entries) && o in records
    ensures o in referenced
  {
    hide ReadSlot, Fingerprint, RecordOffset, Sound, SlotsChecked, Tabulates;
    var i := TabulatedOffset(d, start, slots, entries, records, o);
    var s := SoundRecord(d, data, start, slots, entries, i);
    PointsInRange(d, ReadSlot(data, s), start, slots, entries, i);
    CheckedSlot(data, slots, records, slots, referenced, s);
  }

  lemma CheckedNames(d: Digests, data: Bytes, start: nat, slots: nat, entries: seq<Entry>, records: map<nat, U32>,
                     referenced: set<nat>, s: nat)
    requires Tabulates(d, start, slots, entries, records)
    requires SlotsChecked(data, slots, records, slots, referenced) && s < slots
    ensures RecordsStart(s + 1) <= |data|
    ensures ReadSlot(data, s) == EMPTY || SlotNamesSome(d, data, start, slots, entries, s)
  {
    hide ReadSlot, Fingerprint, RecordOffset, SlotsChecked, Tabulates;
    CheckedFits(data, slots, records, slots, referenced);
    CheckedSlot(data, slots, records, slots, referenced, s);
    var slot := ReadSlot(data, s);
    if slot != EMPTY {
      var i := TabulatedOffset(d, start, slots, entries, records, slot.offset);
      assert SlotNames(d, data, start, slots, entries, s, i);
    }
  }

  lemma CheckedDistinct(data: Bytes, slots: nat, records: map<nat, U32>, referenced: set<nat>, s: nat, t: nat)
    requires SlotsChecked(data, slots, records, slots, referenced) && s < t < slots
    ensures ReadSlot(data, s) == EMPTY || ReadSlot(data, s).offset != ReadSlot(data, t).offset
  {
    hide ReadSlot, OffsetSeen;
  }

  lemma CheckedIsSound(d: Digests, data: Bytes, start: nat, slots: nat, entries: seq<Entry>, records: map<nat, U32>)
    requires RecordsStart(slots) <= |data| && Packed(data, slots, entries) && Distinct(entries)
    requires Tabulates(d, start, slots, entries, records) && SlotsChecked(data, slots, records, slots, records.Keys)
    ensures Sound(d, data, start, slots, entries)
  {
    hide ReadSlot, Packed, Distinct, Tabulates, SlotsChecked, SlotNamesSome, RecordNamed;
    forall i | 0 <= i < |entries|
      ensures RecordNamed(d, data, start, slots, entries, i)
    {
      AllReferenced(d, data, start, slots, entries, records, i);
    }
    forall s: nat | s < slots
      ensures ReadSlot(data, s) == EMPTY || SlotNamesSome(d, data, start, slots, entries, s)
    {
      CheckedNames(d, data, start, slots, entries, records, records.Keys, s);
    }
    forall s: nat, t: nat | s < t < slots && ReadSlot(data, s) != EMPTY
      ensures ReadSlot(data, s).offset != ReadSlot(data, t).offset
    {
      CheckedDistinct(data, slots, records, records.Keys, s, t);
    }
  }

  /** All slots checked: the segment is sound exactly when every record was referenced. */
  lemma SlotsAllChecked(d: Digests, data: Bytes, start: nat, slots: nat, entries: seq<Entry>, records: map<nat, U32>,
                        referenced: set<nat>)
    requires Packed(data, slots, entries) && Distinct(entries)
    requires Tabulates(d, start, slots, entries, records) && SlotsChecked(data, slots, records, slots, referenced)
    ensures Sound(d, data, start, slots, entries) <==> |referenced| == |entries|
  {
    hide *;
    CheckedFits(data, slots, records, slots, referenced);
    TabulatedSize(d, start, slots, entries, records);
    if |referenced| == |entries| {
      SameSize(referenced, records.Keys);
      CheckedIsSound(d, data, start, slots, entries, records);
    }
    if Sound(d, data, start, slots, entries) {
      forall o | o in records.Keys
        ensures o in referenced
      {
        SoundReferences(d, data, start, slots, entries, records, referenced, o);
      }
      assert referenced == records.Keys;
    }
  }

  lemma SameSize<T>(a: set<T>, b: set<T>)
    requires a <= b && |a| == |b|
    ensures a == b
  {
    assert |b - a| == 0;
    assert b == a + (b - a);
  }

  /** The slot loop of `validate_base`. */
  method CheckSlots(d: Digests, data: Bytes, start: nat, slots: nat, len: nat, records: map<nat, U32>,
                    ghost entries: seq<Entry>)
    returns (ok: bool)
    requires |entries| == len && Packed(data, slots, entries)
    requires Distinct(entries) && Tabulates(d, start, slots, entries, records)
    requires RecordsStart(slots) <= |data|
    ensures ok <==> Sound(d, data, start, slots, entries)
  {
    hide ReadSlot, Packed, Distinct, Tabulates, SlotsChecked, Sound;
    var referenced: set<nat> := {};
    NoSlotsChecked(data, slots, records);
    for s := 0 to slots
      invariant SlotsChecked(data, slots, records, s, referenced)
    {
      assert RecordsStart(s + 1) <= RecordsStart(slots);
      var slot := ReadSlot(data, s);
      if slot.offset == 0 {
        if slot.fingerprint != 0 {
          SlotRefused(d, data, start, slots, entries, records, s, referenced);
          return false;
        }
        SlotCheckStep(data, slots, records, s, referenced);
      } else {
        if MapGet(records, slot.offset) != Some(slot.fingerprint) || slot.offset in referenced {
          SlotRefused(d, data, start, slots, entries, records, s, referenced);
          return false;
        }
        SlotCheckStep(data, slots, records, s, referenced);
        referenced := referenced + {slot.offset};
      }
    }
    SlotsAllChecked(d, data, start, slots, entries, records, referenced);
    ok := |referenced| == len;
  }

  lemma NoSlotsChecked(data: Bytes, slots: nat, records: map<nat, U32>)
    requires RecordsStart(slots) <= |data|
    ensures SlotsChecked(data, slots, records, 0, {})
  {
  }

  lemma SoundParts(d: Digests, data: Bytes, start: nat, slots: nat, entries: seq<Entry>)
    requires Sound(d, data, start, slots, entries)
    ensures RecordsStart(slots) <= |data| && Packed(data, slots, entries) && Distinct(entries)
  {
  }

  lemma PackedReadingIsUnique(data: Bytes, slots: nat, a: seq<Entry>, b: seq<Entry>)
    requires Packed(data, slots, a) && Packed(data, slots, b) && |a| == |b|
    ensures a == b
  {
    hide RecordsBytes, Encodable;
    PackedPrefix(data, slots, a, b);
    assert a[..|b|] == a;
  }

  /**
   * `validate_base`: accepts exactly the data whose records, of distinct keys, tile the record area
   * and correspond one to one to the occupied slots.
   */
  method ValidateBase(d: Digests, data: Bytes, start: nat, slots: nat, len: nat)
    returns (ok: bool, ghost entries: seq<Entry>)
    ensures ok <==> Validated(d, data, start, slots, len)
    ensures ok ==> |entries| == len && Sound(d, data, start, slots, entries)
  {
    hide Packed, Distinct, Tabulates, Sound;
    var records;
    if RecordsStart(slots) > |data| {
      ok, entries := false, [];
    } else {
      ok, records, entries := CheckRecords(d, data, start, slots, len);
      if ok {
        ok := CheckSlots(d, data, start, slots, len, records, entries);
      }
    }
    forall es: seq<Entry> | |es| == len && Sound(d, data, start, slots, es)
      ensures ok
    {
      SoundParts(d, data, start, slots, es);
      if Packed(data, slots, entries) && |entries| == len {
        PackedReadingIsUnique(data, slots, entries, es);
      }
    }
  }

  /** Validation accepts what the builder writes. */
  lemma BuiltIsSound(d: Digests, b: Base)
    requires Valid(d, b)
    ensures Sound(d, Data(d, b), b.start, |b.owner|, b.entries)
  {
    hide Indexed, IsPowerOfTwo, Size, SlotCount, HeaderBytes, SlotsBytes, RecordsBytes, Encodable, Distinct,
         ReadSlot, RecordOffset, Fingerprint;
    var data := Data(d, b);
    BaseFacts(d, b);
    assert Packed(data, |b.owner|, b.entries);
    forall s: nat | s < |b.owner|
      ensures ReadSlot(data, s) == SlotIn(d, b, s)
    {
      DataSlot(d, b, s);
    }
    forall i | 0 <= i < |b.entries|
      ensures RecordNamed(d, data, b.start, |b.owner|, b.entries, i)
    {
      var s := OwnedSlot(d, b, i);
      assert SlotNames(d, data, b.start, |b.owner|, b.entries, s, i);
    }
    forall s: nat | s < |b.owner| && b.owner[s].Some?
      ensures SlotNamesSome(d, data, b.start, |b.owner|, b.entries, s)
    {
      OwnerInRange(d, b, s);
      assert SlotNames(d, data, b.start, |b.owner|, b.entries, s, b.owner[s].value);
    }
    forall s: nat, t: nat | s < t < |b.owner| && ReadSlot(data, s) != EMPTY
      ensures ReadSlot(data, s).offset != ReadSlot(data, t).offset
    {
      OwnersDiffer(d, b, s, t);
    }
  }

  lemma DataSlot(d: Digests, b: Base, s: nat)
    requires Valid(d, b) && s < |b.owner|
    ensures ReadSlot(Data(d, b), s) == SlotIn(d, b, s)
  {
    hide Valid, Metadata, Head, RecordsBytes, SlotIn, U32At, U64At;
    SlotOfBase(d, b, s);
    SameReads(Data(d, b), BaseBytes(d, b), s);
  }

  lemma SameReads(a: Bytes, m: Bytes, s: nat)
    requires a <= m && RecordsStart(s + 1) <= |a|
    ensures ReadSlot(a, s) == ReadSlot(m, s)
  {
    hide Value;
    var at := RecordsStart(s);
    assert a[at..at + 4] == m[at..at + 4];
    assert a[at + 4..at + 12] == m[at + 4..at + 12];
  }

  lemma OwnedSlot(d: Digests, b: Base, i: nat) returns (s: nat)
    requires Valid(d, b) && i < |b.entries|
    ensures s < |b.owner| && b.owner[s] == Some(i)
    ensures SlotIn(d, b, s).offset == b.start + RecordOffset(b.entries, |b.owner|, i)
    ensures SlotIn(d, b, s).fingerprint == Fingerprint(d.hash(b.entries[i].key))
  {
    hide ProbeSlot, Home, RecordOffset, Fingerprint;
    var p := ReachingProbe(d, b, i);
    s := ProbeSlot(Home(d, b.entries[i].key, |b.owner|), p, |b.owner|);
  }

  lemma OwnerInRange(d: Digests, b: Base, s: nat)
    requires Valid(d, b) && s < |b.owner| && b.owner[s].Some?
    ensures b.owner[s].value < |b.entries|
    ensures SlotIn(d, b, s).offset == b.start + RecordOffset(b.entries, |b.owner|, b.owner[s].value) > 0
    ensures SlotIn(d, b, s).fingerprint == Fingerprint(d.hash(b.entries[b.owner[s].value].key))
  {
    hide RecordOffset, Fingerprint;
    OffsetPositive(b, b.owner[s].value);
  }

  lemma OwnersDiffer(d: Digests, b: Base, s: nat, t: nat)
    requires Valid(d, b) && s < t < |b.owner| && SlotIn(d, b, s) != EMPTY
    ensures SlotIn(d, b, s).offset != SlotIn(d, b, t).offset
  {
    hide RecordOffset, Fingerprint;
    assert b.owner[s].Some?;
    OwnerInRange(d, b, s);
    if b.owner[t].Some? {
      OwnerInRange(d, b, t);
      if SlotIn(d, b, s).offset == SlotIn(d, b, t).offset {
        SameOffsetSameRecord(b.entries, |b.owner|, b.owner[s].value, b.owner[t].value);
      }
    }
  }
}
