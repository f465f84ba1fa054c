/** Listings of a map, and the size of a Base, which depends on the map alone. */
module Listing {
  import opened Bytes
  import opened Segment
  import opened Lookup
  import opened Iteration

  // ------------------------------------------------- sizes depend only on the map

  lemma {:induction false} RecordsAppend(a: seq<Entry>, b: seq<Entry>)
    ensures |RecordsBytes(a + b)| == |RecordsBytes(a)| + |RecordsBytes(b)|
  {
    hide RecordsBytes, RecordBytes;
    RecordsCons([], Entry([], []));
    if b == [] {
      assert a + b == a;
    } else {
      var n := |b| - 1;
      RecordsAppend(a, b[..n]);
      RecordsCons(a + b[..n], b[n]);
      RecordsCons(b[..n], b[n]);
      assert a + b == (a + b[..n]) + [b[n]] && b == b[..n] + [b[n]];
    }
  }

  lemma RecordsCons(entries: seq<Entry>, e: Entry)
    ensures RecordsBytes([]) == []
    ensures RecordsBytes(entries + [e]) == RecordsBytes(entries) + RecordBytes(e)
  {
    hide RecordBytes;
    assert (entries + [e])[..|entries|] == entries;
  }

  /** Taking one entry out of a listing. */
  lemma WithoutOne(entries: seq<Entry>, i: nat)
    requires Distinct(entries) && i < |entries|
    ensures var rest := entries[..i] + entries[i + 1..];
            && Distinct(rest)
            && AsMap(rest) == AsMap(entries) - {entries[i].key}
            && |RecordsBytes(entries)| == |RecordsBytes(rest)| + |RecordBytes(entries[i])|
  {
    var rest, e := entries[..i] + entries[i + 1..], entries[i];
    assert entries == entries[..i] + ([e] + entries[i + 1..]);
    RecordsAppend(entries[..i], [e] + entries[i + 1..]);
    RecordsAppend([e], entries[i + 1..]);
    RecordsAppend(entries[..i], entries[i + 1..]);
    assert [e][..0] == [];
    assert RecordsBytes([e]) == RecordBytes(e);
    RestIsMap(entries, i);
  }

  lemma RestIsMap(entries: seq<Entry>, i: nat)
    requires Distinct(entries) && i < |entries|
    ensures var rest := entries[..i] + entries[i + 1..];
            Distinct(rest) && AsMap(rest) == AsMap(entries) - {entries[i].key}
  {
    hide AsMap;
    var rest, m := entries[..i] + entries[i + 1..], AsMap(entries) - {entries[i].key};
    forall j | 0 <= j < |rest|
      ensures MapGet(m, rest[j].key) == Some(rest[j].value)
    {
      AsMapHas(entries, rest[j].key);
      assert rest[j] == entries[if j < i then j else j + 1];
    }
    forall k | k in m
      ensures exists j :: 0 <= j < |rest| && rest[j].key == k
    {
      AsMapHas(entries, k);
      var j :| 0 <= j < |entries| && entries[j] == Entry(k, AsMap(entries)[k]);
      assert rest[if j < i then j else j - 1] == entries[j];
    }
    ListingIsMap(rest, m);
  }

  /** Two listings of one map have the same number of entries and the same encoded size. */
  lemma {:induction false} SameMapSameSize(a: seq<Entry>, b: seq<Entry>)
    requires Distinct(a) && Distinct(b) && AsMap(a) == AsMap(b)
    ensures |a| == |b| && |RecordsBytes(a)| == |RecordsBytes(b)|
  {
    hide AsMap, RecordsBytes, RecordBytes;
    if a == [] || b == [] {
      NoEntries(a, b);
    } else {
      var n := |a| - 1;
      AsMapHas(a, a[n].key);
      AsMapHas(b, a[n].key);
      var j :| 0 <= j < |b| && b[j] == Entry(a[n].key, AsMap(b)[a[n].key]);
      WithoutOne(a, n);
      WithoutOne(b, j);
      SameMapSameSize(a[..n] + a[n + 1..], b[..j] + b[j + 1..]);
    }
  }

  lemma NoEntries(a: seq<Entry>, b: seq<Entry>)
    requires Distinct(a) && Distinct(b) && AsMap(a) == AsMap(b) && (a == [] || b == [])
    ensures a == [] && b == []
  {
    if a != [] {
      AsMapHas(a, a[0].key);
    }
    if b != [] {
      AsMapHas(b, b[0].key);
    }
  }

  // ------------------------------------------------------------- the size of a map

  /** The size of any Base holding these entries. */
  function EntriesSize(entries: seq<Entry>): nat
    requires SlotCount(|entries|).Some?
  {
    SegmentSize(RecordsStart(SlotCount(|entries|).value) + |RecordsBytes(entries)|)
  }

  lemma SameEntriesSize(a: seq<Entry>, b: seq<Entry>)
    requires Distinct(a) && Distinct(b) && AsMap(a) == AsMap(b)
    ensures |a| == |b| && (SlotCount(|a|).Some? ==> EntriesSize(a) == EntriesSize(b))
  {
    hide AsMap, Distinct, RecordsBytes, SegmentSize, RecordsStart, SlotCount;
    SameMapSameSize(a, b);
  }

  /** Some order of the entries of a map. */
  ghost function ListingOf(m: map<Bytes, Bytes>): (entries: seq<Entry>)
    ensures Distinct(entries) && AsMap(entries) == m
  {
    if m == map[] then []
    else
      var k :| k in m;
      var rest := ListingOf(m - {k});
      ListedWithOne(rest, m, k);
      rest + [Entry(k, m[k])]
  }

  lemma ListedWithOne(rest: seq<Entry>, m: map<Bytes, Bytes>, k: Bytes)
    requires k in m && Distinct(rest) && AsMap(rest) == m - {k}
    ensures Distinct(rest + [Entry(k, m[k])]) && AsMap(rest + [Entry(k, m[k])]) == m
  {
    var entries := rest + [Entry(k, m[k])];
    assert entries[..|rest|] == rest;
    forall i | 0 <= i < |rest|
      ensures rest[i].key != k
    {
      AsMapHas(rest, rest[i].key);
    }
  }

  /** The size of a Base that holds exactly this map; None when its size does not fit 64 bits. */
  ghost function MapSize(m: map<Bytes, Bytes>): Option<nat> {
    var entries := ListingOf(m);
    if SlotCount(|entries|).Some? && EntriesSize(entries) < U64_LIMIT then Some(EntriesSize(entries)) else None
  }

  /** Every listing of the map measures the same. */
  lemma MapSizeOf(entries: seq<Entry>)
    requires Distinct(entries)
    ensures MapSize(AsMap(entries)) ==
            if SlotCount(|entries|).Some? && EntriesSize(entries) < U64_LIMIT then Some(EntriesSize(entries)) else None
  {
    hide AsMap, Distinct, EntriesSize, SlotCount;
    SameEntriesSize(entries, ListingOf(AsMap(entries)));
  }
}
