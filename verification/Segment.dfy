/** The frozen Base: a packed open-addressing hash table with block checksums. */
module Segment {
  import opened Bytes
  import opened PowersOfTwo

  const SLOT_SIZE: nat := 12
  const BLOCK_SIZE: nat := 65536
  const FOOTER_SIZE: nat := 24

  const HASH_SECTION_ID: Bytes := [0x48, 0x41, 0x53, 0x48]
  const CHECKSUM_SECTION_ID: Bytes := [0x43, 0x52, 0x43, 0x33]

  datatype Entry = Entry(key: Bytes, value: Bytes)
  datatype Slot = Slot(fingerprint: U32, offset: U64)

  const EMPTY: Slot := Slot(0, 0)

  predicate Storable(e: Entry) {
    |e.key| <= MAX_KEY_SIZE && |e.value| < U32_LIMIT
  }

  /** Both lengths fit their four-byte fields. */
  predicate Encodable(e: Entry) {
    |e.key| < U32_LIMIT && |e.value| < U32_LIMIT
  }

  ghost predicate Distinct(entries: seq<Entry>) {
    forall i, j :: 0 <= i < j < |entries| ==> entries[i].key != entries[j].key
  }

  /** A power of two that keeps the table at most four fifths full; None when it exceeds 64 bits. */
  function SlotCount(len: nat): (r: Option<U64>)
    ensures r.Some? ==> (r.value == 0 <==> len == 0)
    ensures r.Some? && len > 0 ==> IsPowerOfTwo(r.value) && 5 * len <= 4 * r.value
  {
    if len == 0 then Some(0)
    else if len * 5 >= U64_LIMIT then None
    else
      var slots := NextPowerOfTwo((len * 5 + 3) / 4);
      if slots < U64_LIMIT then Some(slots) else None
  }

  /** A table size that keeps `len` entries at most four fifths full. */
  predicate Roomy(len: nat, slots: nat) {
    IsPowerOfTwo(slots) && 5 * len <= 4 * slots
  }

  ghost predicate HasRoom(len: nat) {
    exists slots: U64 :: Roomy(len, slots)
  }

  /** There is a table size exactly when 64 bits hold one, and then it is the smallest that will do. */
  lemma SlotCountExactly(len: nat)
    ensures SlotCount(len).Some? <==> 5 * len < U64_LIMIT && HasRoom(len)
    ensures SlotCount(len).Some? && len > 0 ==>
              && Roomy(len, SlotCount(len).value)
              && forall slots: nat :: Roomy(len, slots) ==> SlotCount(len).value <= slots
  {
    hide IsPowerOfTwo, NextPowerOfTwo;
    forall slots: nat | Roomy(len, slots)
      ensures NextPowerOfTwo((len * 5 + 3) / 4) <= slots
    {
      NextIsLeast((len * 5 + 3) / 4, slots);
    }
    if len == 0 {
      OneIsPower();
      assert Roomy(0, 1);
    } else if SlotCount(len).Some? {
      assert Roomy(len, SlotCount(len).value);
    }
  }

  lemma OneIsPower()
    ensures IsPowerOfTwo(1)
  {
  }

  // ------------------------------------------------------------ base layout

  function RecordBytes(e: Entry): (r: Bytes)
    ensures |r| == 8 + |e.key| + |e.value|
  {
    LittleEndian(|e.key|, 4) + LittleEndian(|e.value|, 4) + e.key + e.value
  }

  /** The packed records, in entry order. */
  function RecordsBytes(entries: seq<Entry>): (r: Bytes)
    ensures |r| >= 8 * |entries|
  {
    if entries == [] then []
    else RecordsBytes(entries[..|entries| - 1]) + RecordBytes(entries[|entries| - 1])
  }

  /** A Base: where it starts, what it holds, and which entry occupies each slot. */
  datatype Base = Base(start: nat, entries: seq<Entry>, owner: seq<Option<nat>>)

  function RecordsStart(slots: nat): nat {
    BASE_HEADER + slots * SLOT_SIZE
  }

  /** Offset of record `i` from the start of the segment. */
  function RecordOffset(entries: seq<Entry>, slots: nat, i: nat): nat
    requires i <= |entries|
  {
    RecordsStart(slots) + |RecordsBytes(entries[..i])|
  }

  function DataSize(b: Base): nat {
    RecordsStart(|b.owner|) + |RecordsBytes(b.entries)|
  }

  /** `x & (slots - 1)` for a power-of-two slot count. */
  function Masked(x: nat, slots: nat): (s: nat)
    requires slots > 0
    ensures s < slots
  {
    x % slots
  }

  function Home(d: Digests, key: Bytes, slots: nat): (h: nat)
    requires slots > 0
    ensures h < slots
  {
    Masked(d.hash(key), slots)
  }

  /** The slot looked at by probe number `probe`. */
  function ProbeSlot(home: nat, probe: nat, slots: nat): (s: nat)
    requires slots > 0
    ensures s < slots
  {
    Masked(home + probe, slots)
  }

  function Fingerprint(hash: U64): U32 {
    hash / U32_LIMIT
  }

  /** Entry `i` sits in a slot that probing from its home reaches over occupied slots only. */
  ghost predicate Reached(d: Digests, b: Base, i: nat)
    requires i < |b.entries| && |b.owner| > 0
  {
    exists p: nat :: p < |b.owner| && ReachedAt(d, b, i, p)
  }

  ghost predicate ReachedAt(d: Digests, b: Base, i: nat, p: nat)
    requires i < |b.entries| && |b.owner| > 0
  {
    var home, slots := Home(d, b.entries[i].key, |b.owner|), |b.owner|;
    && b.owner[ProbeSlot(home, p, slots)] == Some(i)
    && forall q :: 0 <= q < p ==> b.owner[ProbeSlot(home, q, slots)].Some?
  }

  /** Slots name the first `n` entries, each exactly once, and probing reaches them. */
  ghost predicate Indexed(d: Digests, b: Base, n: nat)
    requires n <= |b.entries|
  {
    && (forall s :: 0 <= s < |b.owner| && b.owner[s].Some? ==> b.owner[s].value < n)
    && (forall s, t :: 0 <= s < t < |b.owner| && b.owner[s].Some? && b.owner[t].Some? ==> b.owner[s] != b.owner[t])
    && (n > 0 ==> |b.owner| > 0)
    && (forall i :: 0 <= i < n ==> Reached(d, b, i))
  }

  ghost predicate Valid(d: Digests, b: Base) {
    && SlotCount(|b.entries|) == Some(|b.owner|)
    && (forall i :: 0 <= i < |b.entries| ==> Storable(b.entries[i]))
    && Distinct(b.entries)
    && b.start + Size(b) < U64_LIMIT
    && Indexed(d, b, |b.entries|)
  }

  function SlotFor(d: Digests, start: nat, entries: seq<Entry>, slots: nat, i: nat): Slot
    requires i < |entries| && start + RecordOffset(entries, slots, i) < U64_LIMIT
  {
    Slot(Fingerprint(d.hash(entries[i].key)), start + RecordOffset(entries, slots, i))
  }

  // ------------------------------------------------------- checksum metadata

  function BlockCount(size: nat): nat {
    (size + BLOCK_SIZE - 1) / BLOCK_SIZE
  }

  /** As many blocks as it takes and no more: the last one is not empty. */
  lemma BlockCountExactly(size: nat)
    ensures size <= BlockCount(size) * BLOCK_SIZE
    ensures size > 0 ==> (BlockCount(size) - 1) * BLOCK_SIZE < size
    ensures BlockCount(0) == 0
  {
  }

  function Block(data: Bytes, i: nat): Bytes
    requires i < BlockCount(|data|)
  {
    var end := (i + 1) * BLOCK_SIZE;
    data[i * BLOCK_SIZE..if end <= |data| then end else |data|]
  }

  /** Checksums of the first `n` blocks. */
  function BlockTable(d: Digests, data: Bytes, n: nat): (r: Bytes)
    requires n <= BlockCount(|data|)
    ensures |r| == 4 * n
  {
    if n == 0 then [] else BlockTable(d, data, n - 1) + LittleEndian(d.crc(Block(data, n - 1)), 4)
  }

  function Footer(d: Digests, dataSize: nat, table: Bytes): (r: Bytes)
    ensures |r| == FOOTER_SIZE
  {
    CHECKSUM_SECTION_ID + LittleEndian(FOOTER_SIZE, 4) + LittleEndian(dataSize, 8)
    + LittleEndian(BLOCK_SIZE, 4) + LittleEndian(d.crc(table), 4)
  }

  function Metadata(d: Digests, data: Bytes): (r: Bytes)
    ensures |r| == 4 * BlockCount(|data|) + FOOTER_SIZE
  {
    var table := BlockTable(d, data, BlockCount(|data|));
    table + Footer(d, |data|, table)
  }

  function SegmentSize(dataSize: nat): nat {
    dataSize + 4 * BlockCount(dataSize) + FOOTER_SIZE
  }

  function Size(b: Base): nat {
    SegmentSize(DataSize(b))
  }

  // ------------------------------------------------------------- base bytes

  function HeaderBytes(slots: nat, len: nat): (r: Bytes)
    ensures |r| == BASE_HEADER
  {
    HASH_SECTION_ID + LittleEndian(BASE_HEADER, 4) + LittleEndian(slots, 8) + LittleEndian(len, 8)
  }

  function SlotBytes(slot: Slot): (r: Bytes)
    ensures |r| == SLOT_SIZE
  {
    LittleEndian(slot.fingerprint, 4) + LittleEndian(slot.offset, 8)
  }

  function SlotsBytes(index: seq<Slot>): (r: Bytes)
    ensures |r| == SLOT_SIZE * |index|
  {
    if index == [] then [] else SlotsBytes(index[..|index| - 1]) + SlotBytes(index[|index| - 1])
  }

  lemma {:induction false} RecordsGrow(entries: seq<Entry>, i: nat, j: nat)
    requires i <= j <= |entries|
    ensures RecordsBytes(entries[..i]) <= RecordsBytes(entries[..j])
    decreases j - i
  {
    hide RecordBytes;
    if i < j {
      RecordsGrow(entries, i, j - 1);
      assert entries[..j][..j - 1] == entries[..j - 1];
    }
  }

  lemma OffsetBound(b: Base, i: nat)
    requires i <= |b.entries|
    ensures RecordOffset(b.entries, |b.owner|, i) <= DataSize(b) <= Size(b)
  {
    RecordsGrow(b.entries, i, |b.entries|);
    assert b.entries[..|b.entries|] == b.entries;
  }

  function SlotIn(d: Digests, b: Base, s: nat): Slot
    requires Valid(d, b) && s < |b.owner|
  {
    if b.owner[s].None? then EMPTY
    else
      OffsetBound(b, b.owner[s].value);
      SlotFor(d, b.start, b.entries, |b.owner|, b.owner[s].value)
  }

  function Index(d: Digests, b: Base): (r: seq<Slot>)
    requires Valid(d, b)
    ensures |r| == |b.owner|
  {
    seq(|b.owner|, s requires 0 <= s < |b.owner| => SlotIn(d, b, s))
  }

  function Head(d: Digests, b: Base): (r: Bytes)
    requires Valid(d, b)
    ensures |r| == RecordsStart(|b.owner|)
  {
    HeaderBytes(|b.owner|, |b.entries|) + SlotsBytes(Index(d, b))
  }

  function Data(d: Digests, b: Base): (r: Bytes)
    requires Valid(d, b)
    ensures |r| == DataSize(b)
  {
    Head(d, b) + RecordsBytes(b.entries)
  }

  function BaseBytes(d: Digests, b: Base): (r: Bytes)
    requires Valid(d, b)
    ensures |r| == Size(b)
  {
    Data(d, b) + Metadata(d, Data(d, b))
  }

  // ---------------------------------------------------------------- building

  lemma ProbeReaches(home: nat, slot: nat, slots: nat) returns (p: nat)
    requires home < slots && slot < slots
    ensures p < slots && ProbeSlot(home, p, slots) == slot
    ensures ProbeSlot(home, 0, slots) == home
  {
    ModUnique(home, slots, 0, home);
    if home <= slot {
      p := slot - home;
      ModUnique(slot, slots, 0, slot);
    } else {
      p := slot + slots - home;
      ModUnique(slot + slots, slots, 1, slot);
    }
  }

  lemma InsertKeepsIndexed(d: Digests, b: Base, n: nat, p: nat)
    requires n < |b.entries| && p < |b.owner|
    requires Indexed(d, b, n)
    requires b.owner[ProbeSlot(Home(d, b.entries[n].key, |b.owner|), p, |b.owner|)].None?
    requires forall q :: 0 <= q < p ==> b.owner[ProbeSlot(Home(d, b.entries[n].key, |b.owner|), q, |b.owner|)].Some?
    ensures var slot := ProbeSlot(Home(d, b.entries[n].key, |b.owner|), p, |b.owner|);
            Indexed(d, b.(owner := b.owner[slot := Some(n)]), n + 1)
  {
    hide ProbeSlot, Home;
    var slot := ProbeSlot(Home(d, b.entries[n].key, |b.owner|), p, |b.owner|);
    var b' := b.(owner := b.owner[slot := Some(n)]);
    forall i | 0 <= i <= n
      ensures Reached(d, b', i)
    {
      if i < n {
        assert Reached(d, b, i);
        var pi: nat :| pi < |b.owner| && ReachedAt(d, b, i, pi);
        assert ReachedAt(d, b', i, pi);
      } else {
        assert ReachedAt(d, b', n, p);
      }
    }
  }

  function Occupied(owner: seq<Option<nat>>): (n: nat)
    ensures n <= |owner|
  {
    if owner == [] then 0 else Occupied(owner[1..]) + if owner[0].Some? then 1 else 0
  }

  lemma {:induction false} OccupyOne(owner: seq<Option<nat>>, slot: nat, i: nat)
    requires slot < |owner| && owner[slot].None?
    ensures Occupied(owner[slot := Some(i)]) == Occupied(owner) + 1
  {
    if slot == 0 {
      assert owner[0 := Some(i)][1..] == owner[1..];
    } else {
      OccupyOne(owner[1..], slot - 1, i);
      assert owner[slot := Some(i)][1..] == owner[1..][slot - 1 := Some(i)];
    }
  }

  lemma {:induction false} NoneOccupied(owner: seq<Option<nat>>)
    requires forall s :: 0 <= s < |owner| ==> owner[s].None?
    ensures Occupied(owner) == 0
  {
    if owner != [] {
      NoneOccupied(owner[1..]);
    }
  }

  /** A table with fewer occupied slots than slots has an empty one, so probing ends. */
  lemma {:induction false} EmptySlotExists(owner: seq<Option<nat>>) returns (e: nat)
    requires Occupied(owner) < |owner|
    ensures e < |owner| && owner[e].None?
  {
    if owner[0].None? {
      e := 0;
    } else {
      e := EmptySlotExists(owner[1..]);
      e := e + 1;
    }
  }

  /** What the builder's table holds in slot `s`. */
  ghost predicate Filled(d: Digests, b: Base, slot: Slot, s: nat)
    requires s < |b.owner|
  {
    if b.owner[s].None? then slot == EMPTY
    else
      var i := b.owner[s].value;
      && i < |b.entries|
      && b.start + RecordOffset(b.entries, |b.owner|, i) < U64_LIMIT
      && slot == SlotFor(d, b.start, b.entries, |b.owner|, i)
  }

  ghost predicate Table(d: Digests, b: Base, index: seq<Slot>) {
    && |index| == |b.owner|
    && forall s :: 0 <= s < |index| ==> Filled(d, b, index[s], s)
  }

  lemma SlotTells(d: Digests, b: Base, index: seq<Slot>, s: nat)
    requires Table(d, b, index) && s < |index|
    ensures index[s].offset == 0 <==> b.owner[s].None?
  {
    assert Filled(d, b, index[s], s);
  }

  lemma PlaceKeepsTable(d: Digests, b: Base, index: seq<Slot>, s: nat, n: nat)
    requires Table(d, b, index) && s < |index| && n < |b.entries|
    requires b.start + RecordOffset(b.entries, |b.owner|, n) < U64_LIMIT
    ensures Table(d, b.(owner := b.owner[s := Some(n)]), index[s := SlotFor(d, b.start, b.entries, |b.owner|, n)])
  {
    hide RecordOffset;
    var b' := b.(owner := b.owner[s := Some(n)]);
    var index' := index[s := SlotFor(d, b.start, b.entries, |b.owner|, n)];
    forall t | 0 <= t < |index|
      ensures Filled(d, b', index'[t], t)
    {
      assert t != s ==> Filled(d, b, index[t], t);
    }
  }

  /** Linear probing: the first empty slot from the home of `hash` on. */
  method FindSlot(d: Digests, index: array<Slot>, hash: U64, ghost b: Base) returns (slot: nat, ghost p: nat)
    requires Table(d, b, index[..]) && Occupied(b.owner) < |b.owner|
    ensures p < |b.owner| && slot == ProbeSlot(Masked(hash, |b.owner|), p, |b.owner|)
    ensures b.owner[slot].None?
    ensures forall q :: 0 <= q < p ==> b.owner[ProbeSlot(Masked(hash, |b.owner|), q, |b.owner|)].Some?
  {
    hide Filled, ProbeSlot, Occupied, Masked;
    var slots := index.Length;
    ghost var table := index[..];
    var home := Masked(hash, slots);
    ghost var e := EmptySlotExists(b.owner);
    ghost var last := ProbeReaches(home, e, slots);
    slot, p := home, 0;
    while index[slot].offset != 0
      invariant 0 <= p <= last && slot == ProbeSlot(home, p, slots)
      invariant forall q :: 0 <= q < p ==> b.owner[ProbeSlot(home, q, slots)].Some?
      decreases last - p
    {
      SlotTells(d, b, table, slot);
      NextProbe(home, p, slots);
      slot, p := Masked(slot + 1, slots), p + 1;
    }
    SlotTells(d, b, table, slot);
  }

  datatype Written = Written(head: Bytes, records: Bytes, metadata: Bytes, slots: U64, checksum: U32)

  lemma NextProbe(home: nat, p: nat, slots: nat)
    requires slots > 0
    ensures Masked(ProbeSlot(home, p, slots) + 1, slots) == ProbeSlot(home, p + 1, slots)
  {
    AddThenMod(home + p, 1, slots);
  }

  /** One checksum per block of the data just written, then the footer. */
  method AppendBlockChecksums(d: Digests, data: Bytes) returns (metadata: Bytes, checksum: U32)
    ensures metadata == Metadata(d, data)
    ensures checksum == d.crc(metadata)
  {
    hide LittleEndian, Footer;
    var table: Bytes := [];
    var block := 0;
    var remaining := |data|;
    while remaining > 0
      invariant 0 <= block <= BlockCount(|data|)
      invariant remaining == if block * BLOCK_SIZE <= |data| then |data| - block * BLOCK_SIZE else 0
      invariant table == BlockTable(d, data, block)
    {
      var len := if remaining < BLOCK_SIZE then remaining else BLOCK_SIZE;
      var start := |data| - remaining;
      assert data[start..start + len] == Block(data, block);
      table := table + LittleEndian(d.crc(data[start..start + len]), 4);
      remaining := remaining - len;
      block := block + 1;
    }
    metadata := table + Footer(d, |data|, table);
    checksum := d.crc(metadata);
  }

  method WriteSlots(index: array<Slot>) returns (bytes: Bytes)
    ensures bytes == SlotsBytes(index[..])
  {
    hide SlotBytes;
    bytes := [];
    for i := 0 to index.Length
      invariant bytes == SlotsBytes(index[..i])
    {
      bytes := bytes + SlotBytes(index[i]);
      assert index[..i + 1][..i] == index[..i];
    }
    assert index[..index.Length] == index[..];
  }

  /** The state of the builder after `n` records. */
  ghost predicate Building(d: Digests, b: Base, index: seq<Slot>, n: nat) {
    && n <= |b.entries|
    && Table(d, b, index)
    && Indexed(d, b, n)
    && Occupied(b.owner) == n
  }

  lemma BuildStarts(d: Digests, start: nat, entries: seq<Entry>, index: seq<Slot>)
    requires forall s :: 0 <= s < |index| ==> index[s] == EMPTY
    ensures Building(d, Base(start, entries, seq(|index|, i => None)), index, 0)
  {
    NoneOccupied(seq(|index|, i => None));
  }

  lemma BuildStep(d: Digests, b: Base, index: seq<Slot>, n: nat, p: nat)
    requires Building(d, b, index, n) && n < |b.entries| && p < |b.owner|
    requires b.start + RecordOffset(b.entries, |b.owner|, n) < U64_LIMIT
    requires b.owner[ProbeSlot(Home(d, b.entries[n].key, |b.owner|), p, |b.owner|)].None?
    requires forall q :: 0 <= q < p ==> b.owner[ProbeSlot(Home(d, b.entries[n].key, |b.owner|), q, |b.owner|)].Some?
    ensures var slot := ProbeSlot(Home(d, b.entries[n].key, |b.owner|), p, |b.owner|);
            Building(d, b.(owner := b.owner[slot := Some(n)]),
                     index[slot := SlotFor(d, b.start, b.entries, |b.owner|, n)], n + 1)
  {
    hide Indexed, Table, RecordOffset, ProbeSlot, Home;
    var slot := ProbeSlot(Home(d, b.entries[n].key, |b.owner|), p, |b.owner|);
    InsertKeepsIndexed(d, b, n, p);
    assert |index| == |b.owner| by { TableLength(d, b, index); }
    PlaceKeepsTable(d, b, index, slot, n);
    OccupyOne(b.owner, slot, n);
  }

  lemma TableLength(d: Digests, b: Base, index: seq<Slot>)
    requires Table(d, b, index)
    ensures |index| == |b.owner|
  {
  }

  lemma BuildFinishes(d: Digests, b: Base, index: seq<Slot>)
    requires Building(d, b, index, |b.entries|) && Valid(d, b)
    ensures index == Index(d, b)
  {
    forall s | 0 <= s < |index|
      ensures index[s] == Index(d, b)[s]
    {
      assert Filled(d, b, index[s], s);
    }
  }

  /** Appends the records one after another and enters each into the table. */
  method WriteRecords(d: Digests, start: nat, entries: seq<Entry>, index: array<Slot>)
    returns (r: Option<Bytes>, ghost b: Base)
    requires forall s :: 0 <= s < index.Length ==> index[s] == EMPTY
    requires entries == [] || |entries| < index.Length
    modifies index
    ensures b.start == start && b.entries == entries && |b.owner| == index.Length
    ensures r.Some? ==>
              && r.value == RecordsBytes(entries)
              && (forall i :: 0 <= i < |entries| ==> Storable(entries[i]))
              && Building(d, b, index[..], |entries|)
    ensures r.None? ==>
              || (exists i :: 0 <= i < |entries| && !Storable(entries[i]))
              || start + RecordsStart(index.Length) + |RecordsBytes(entries)| >= U64_LIMIT
  {
    hide Building, Storable, RecordBytes, SegmentSize, Fingerprint, Masked, ProbeSlot;
    var slots := index.Length;
    b := Base(start, entries, seq(slots, i => None));
    BuildStarts(d, start, entries, index[..]);
    var offset := start + RecordsStart(slots);
    var records: Bytes := [];
    var i := 0;
    while i < |entries|
      invariant 0 <= i <= |entries|
      invariant b.start == start && b.entries == entries && |b.owner| == slots
      invariant Building(d, b, index[..], i)
      invariant records == RecordsBytes(entries[..i])
      invariant offset == start + RecordOffset(entries, slots, i)
      invariant forall j :: 0 <= j < i ==> Storable(entries[j])
    {
      var e := entries[i];
      if !Storable(e) {
        return None, b;
      }
      if offset >= U64_LIMIT {
        OffsetBound(b, i);
        return None, b;
      }
      records := records + RecordBytes(e);
      var hash := d.hash(e.key);
      BuildingTable(d, b, index[..], i);
      ghost var p;
      var slot;
      slot, p := FindSlot(d, index, hash, b);
      BuildStep(d, b, index[..], i, p);
      ghost var before := index[..];
      index[slot] := Slot(Fingerprint(hash), offset);
      assert index[..] == before[slot := SlotFor(d, start, entries, slots, i)];
      b := b.(owner := b.owner[slot := Some(i)]);
      offset := offset + 8 + |e.key| + |e.value|;
      assert entries[..i + 1][..i] == entries[..i];
      i := i + 1;
    }
    assert entries[..|entries|] == entries;
    r := Some(records);
  }

  /**
   * Writes the records while filling the slot table, then the header with the table, then the
   * block checksums. None stands for every refusal: an over-long entry, a size past 64 bits, or
   * fewer entries than announced. The caller announces at least as many entries as it supplies;
   * with more, the table the source allocates could fill up and its probe would not end.
   */
  method BuildBase(d: Digests, start: nat, len: nat, entries: seq<Entry>) returns (r: Option<Written>, ghost b: Base)
    requires |entries| <= len
    requires Distinct(entries)
    ensures r.Some? <==>
              && |entries| == len
              && SlotCount(len).Some?
              && (forall i :: 0 <= i < len ==> Storable(entries[i]))
              && start + SegmentSize(RecordsStart(SlotCount(len).value) + |RecordsBytes(entries)|) < U64_LIMIT
    ensures r.Some? ==>
              && Valid(d, b) && b.start == start && b.entries == entries
              && r.value.head == Head(d, b)
              && r.value.records == RecordsBytes(entries)
              && r.value.metadata == Metadata(d, Data(d, b))
              && r.value.slots == |b.owner|
              && r.value.checksum == d.crc(r.value.metadata)
  {
    hide Metadata, SegmentSize, SlotCount, SlotsBytes, Index, RecordsBytes;
    b := Base(start, entries, []);
    var slotCount := SlotCount(len);
    if slotCount.None? {
      return None, b;
    }
    var slots := slotCount.value;
    var index := new Slot[slots](_ => EMPTY);
    var written;
    written, b := WriteRecords(d, start, entries, index);
    if written.None? || |entries| != len {
      SegmentSizeBound(RecordsStart(slots) + |RecordsBytes(entries)|);
      return None, b;
    }
    var records := written.value;
    if start + SegmentSize(RecordsStart(slots) + |records|) >= U64_LIMIT {
      return None, b;
    }
    BuildingTable(d, b, index[..], |entries|);
    BuildFinishes(d, b, index[..]);
    var slotBytes := WriteSlots(index);
    var head := HeaderBytes(slots, len) + slotBytes;
    var metadata, checksum := AppendBlockChecksums(d, head + records);
    r := Some(Written(head, records, metadata, slots, checksum));
  }

  lemma SegmentSizeBound(n: nat)
    ensures n <= SegmentSize(n)
  {
  }

  lemma BuildingTable(d: Digests, b: Base, index: seq<Slot>, n: nat)
    requires Building(d, b, index, n)
    ensures Table(d, b, index) && Indexed(d, b, n) && Occupied(b.owner) == n <= |b.entries|
  {
  }

  /** `measure_base_iter`: entry count and exact segment size, before anything is written. */
  method MeasureBase(entries: seq<Entry>) returns (r: Option<(nat, U64)>)
    ensures r.Some? <==>
              && SlotCount(|entries|).Some?
              && SegmentSize(RecordsStart(SlotCount(|entries|).value) + |RecordsBytes(entries)|) < U64_LIMIT
    ensures r.Some? ==>
              && r.value.0 == |entries|
              && r.value.1 == SegmentSize(RecordsStart(SlotCount(|entries|).value) + |RecordsBytes(entries)|)
  {
    hide RecordBytes, SlotCount, SegmentSize;
    var records := 0;
    for i := 0 to |entries|
      invariant records == |RecordsBytes(entries[..i])|
    {
      records := records + 8 + |entries[i].key| + |entries[i].value|;
      assert entries[..i + 1][..i] == entries[..i];
    }
    assert entries[..|entries|] == entries;
    var slots := SlotCount(|entries|);
    if slots.None? {
      return None;
    }
    var total := SegmentSize(RecordsStart(slots.value) + records);
    r := if total < U64_LIMIT then Some((|entries|, total)) else None;
  }
}
