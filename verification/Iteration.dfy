/** Iterating live entries: Base records not shadowed by the Overlay, then Overlay values. */
module Iteration {
  import opened Bytes
  import opened Log
  import opened Overlay
  import opened Segment
  import opened Lookup
  import opened Records
  import opened Images

  /** The Base entries the Overlay says nothing about. */
  function Unshadowed(entries: seq<Entry>, changes: Changes): seq<Entry> {
    if entries == [] then []
    else
      var rest := Unshadowed(entries[..|entries| - 1], changes);
      var last := entries[|entries| - 1];
      if last.key in changes then rest else rest + [last]
  }

  /** `out` lists, each once, the keys of `done` that carry a value. */
  ghost predicate Lists(out: seq<Entry>, changes: Changes, done: set<Bytes>) {
    && Distinct(out)
    && (forall i :: 0 <= i < |out| ==>
          out[i].key in done && out[i].key in changes && changes[out[i].key] == Some(out[i].value))
    && (forall k :: k in done && k in changes && changes[k].Some? ==> exists i :: 0 <= i < |out| && out[i].key == k)
  }

  lemma ListsMore(out: seq<Entry>, changes: Changes, done: set<Bytes>, k: Bytes)
    requires Lists(out, changes, done) && k in changes && k !in done
    ensures Lists(if changes[k].Some? then out + [Entry(k, changes[k].value)] else out, changes, done + {k})
  {
    var out' := if changes[k].Some? then out + [Entry(k, changes[k].value)] else out;
    forall x | x in done + {k} && x in changes && changes[x].Some?
      ensures exists i :: 0 <= i < |out'| && out'[i].key == x
    {
      if x == k {
        assert out'[|out|].key == x;
      } else {
        var i :| 0 <= i < |out| && out[i].key == x;
        assert out'[i].key == x;
      }
    }
  }

  /** The Base half of `RawEntries`: walks the records and skips those the Overlay says something about. */
  method WalkBase(d: Digests, m: Bytes, slots: nat, len: nat, dataSize: nat, trusted: bool, shadowed: Bytes -> bool,
                  ghost b: Base, ghost changes: Changes)
    returns (out: seq<Entry>, end: nat)
    requires Valid(d, b) && m == BaseBytes(d, b) && slots == |b.owner| && len == |b.entries| && dataSize == DataSize(b)
    requires forall i :: 0 <= i < |b.entries| ==> (shadowed(b.entries[i].key) <==> b.entries[i].key in changes)
    ensures out == Unshadowed(b.entries, changes) && end == dataSize
  {
    hide Valid, BaseBytes, DataSize, RecordOffset, RecordAt, TrustedRecordAt;
    WalkStarts(b);
    end, out := RecordsStart(slots), [];
    for i := 0 to len
      invariant end == RecordOffset(b.entries, slots, i)
      invariant out == Unshadowed(b.entries[..i], changes)
    {
      WalkOfBase(d, b, i);
      var found := if trusted then TrustedRecordAt(m, end) else RecordAt(m, end, dataSize).value;
      if !shadowed(found.entry.key) {
        out := out + [found.entry];
      }
      end := found.end;
      assert b.entries[..i + 1][..i] == b.entries[..i];
    }
    assert b.entries[..len] == b.entries;
  }

  /** `RawEntries` run to its end over a Base and an Overlay index. None is the size mismatch error. */
  method CollectEntries(d: Digests, m: Bytes, slots: nat, len: nat, dataSize: nat, trusted: bool, index: OverlayMap,
                        ghost b: Base, ghost log: Bytes, ghost changes: Changes)
    returns (r: Option<seq<Entry>>)
    requires Valid(d, b) && m == BaseBytes(d, b) && slots == |b.owner| && len == |b.entries| && dataSize == DataSize(b)
    requires Represents(index, log, changes)
    ensures r.Some? && Distinct(r.value)
    ensures AsMap(r.value) == Overlaid(AsMap(b.entries), changes)
    ensures changes == map[] ==> r.value == b.entries
  {
    hide Valid, BaseBytes, DataSize, Represents, Lists, AsMap, Overlaid, Distinct, Get;
    forall i | 0 <= i < |b.entries|
      ensures Get(index, b.entries[i].key).Some? <==> b.entries[i].key in changes
    {
      GetIsMap(index, log, changes, b.entries[i].key);
    }
    var out, end := WalkBase(d, m, slots, len, dataSize, trusted, key => Get(index, key).Some?, b, changes);
    var values := OverlayValues(index, log, changes);
    BaseFacts(d, b);
    CollectedIsLive(b.entries, changes, out, values);
    if changes == map[] {
      NothingShadowed(b.entries, values, changes);
    }
    r := if end == dataSize then Some(out + values) else None;
  }

  lemma WalkStarts(b: Base)
    ensures RecordsStart(|b.owner|) == RecordOffset(b.entries, |b.owner|, 0)
    ensures RecordOffset(b.entries, |b.owner|, |b.entries|) == DataSize(b)
  {
    assert b.entries[..|b.entries|] == b.entries;
  }

  /** `OverlayIter`: table entries, then tail entries; tombstones are passed over. */
  method OverlayValues(index: OverlayMap, ghost log: Bytes, ghost changes: Changes) returns (out: seq<Entry>)
    requires Represents(index, log, changes)
    ensures Lists(out, changes, changes.Keys)
  {
    hide Lists, Represents;
    IndexKeys(index, log, changes);
    out := TableValues(index, log, changes);
    ghost var done := index.table.Keys;
    var keys := index.tail.Keys;
    while keys != {}
      invariant keys <= index.tail.Keys && done !! keys && done + keys == changes.Keys
      invariant Lists(out, changes, done)
      decreases |keys|
    {
      var k :| k in keys;
      TailEntryHeld(index, log, changes, k);
      ListsMore(out, changes, done, k);
      var change := index.tail[k].change;
      out := if change.Some? then out + [Entry(k, change.value)] else out;
      done, keys := done + {k}, keys - {k};
    }
    assert done == changes.Keys;
  }

  method TableValues(index: OverlayMap, ghost log: Bytes, ghost changes: Changes) returns (out: seq<Entry>)
    requires Represents(index, log, changes)
    ensures Lists(out, changes, index.table.Keys)
  {
    hide Lists, SlicesAt, Represents;
    out := [];
    ghost var done: set<Bytes> := {};
    NothingListed(changes);
    var keys := index.table.Keys;
    while keys != {}
      invariant keys <= index.table.Keys && done !! keys && done + keys == index.table.Keys
      invariant Lists(out, changes, done)
      decreases |keys|
    {
      var k :| k in keys;
      TableEntry(index, log, changes, k);
      ListsMore(out, changes, done, k);
      var op := SlicesAt(Mapping(index), index.table[k]).value;
      out := if op.Put? then out + [Entry(op.key, op.value)] else out;
      done, keys := done + {k}, keys - {k};
    }
    assert done == index.table.Keys;
  }

  lemma IndexKeys(index: OverlayMap, log: Bytes, changes: Changes)
    requires Represents(index, log, changes)
    ensures index.table.Keys !! index.tail.Keys && index.table.Keys + index.tail.Keys == changes.Keys
  {
  }

  lemma TableEntry(index: OverlayMap, log: Bytes, changes: Changes, k: Bytes)
    requires Represents(index, log, changes) && k in index.table
    ensures k in changes && SlicesAt(Mapping(index), index.table[k]) == Some(OpOf(k, changes[k]))
  {
    assert TableFits(Mapping(index), changes, k, index.table[k]);
  }

  lemma TailEntryHeld(index: OverlayMap, log: Bytes, changes: Changes, k: Bytes)
    requires Represents(index, log, changes) && k in index.tail
    ensures k in changes && index.tail[k].change == changes[k]
  {
    assert TailFits(log, changes, k, index.tail[k]);
  }

  lemma NothingListed(changes: Changes)
    ensures Lists([], changes, {})
  {
  }

  // ---------------------------------------------------------- exactly the live map

  ghost predicate Kept(entries: seq<Entry>, changes: Changes, out: seq<Entry>) {
    && (forall i :: 0 <= i < |out| ==> out[i].key !in changes && out[i] in entries)
    && (forall j :: 0 <= j < |entries| && entries[j].key !in changes ==> entries[j] in out)
    && Distinct(out)
  }

  lemma {:induction false} UnshadowedKept(entries: seq<Entry>, changes: Changes)
    requires Distinct(entries)
    ensures Kept(entries, changes, Unshadowed(entries, changes))
  {
    if entries != [] {
      var n := |entries| - 1;
      var rest := Unshadowed(entries[..n], changes);
      UnshadowedKept(entries[..n], changes);
      assert forall e :: e in entries[..n] ==> e in entries;
      forall i | 0 <= i < |rest|
        ensures rest[i].key != entries[n].key
      {
        var j :| 0 <= j < n && entries[..n][j] == rest[i];
      }
    }
  }

  /** A listing with distinct keys that agrees with a map, and covers it, is that map. */
  lemma ListingIsMap(entries: seq<Entry>, m: map<Bytes, Bytes>)
    requires Distinct(entries)
    requires forall i :: 0 <= i < |entries| ==> MapGet(m, entries[i].key) == Some(entries[i].value)
    requires forall k :: k in m ==> exists i :: 0 <= i < |entries| && entries[i].key == k
    ensures AsMap(entries) == m
  {
    hide AsMap;
    forall k: Bytes
      ensures MapGet(AsMap(entries), k) == MapGet(m, k)
    {
      AsMapHas(entries, k);
    }
    assert forall k :: k in m <==> MapGet(m, k).Some?;
    assert forall k :: k in AsMap(entries) <==> MapGet(AsMap(entries), k).Some?;
  }

  lemma CollectedIsLive(entries: seq<Entry>, changes: Changes, out: seq<Entry>, values: seq<Entry>)
    requires Distinct(entries) && out == Unshadowed(entries, changes) && Lists(values, changes, changes.Keys)
    ensures Distinct(out + values)
    ensures AsMap(out + values) == Overlaid(AsMap(entries), changes)
  {
    hide AsMap, Unshadowed;
    var all, live := out + values, Overlaid(AsMap(entries), changes);
    UnshadowedKept(entries, changes);
    forall i | 0 <= i < |all|
      ensures MapGet(live, all[i].key) == Some(all[i].value)
    {
      if i < |out| {
        var j :| 0 <= j < |entries| && entries[j] == out[i];
        AsMapHas(entries, out[i].key);
      }
      AnswerIsOverlaid(AsMap(entries), changes, all[i].key);
    }
    forall k | k in live
      ensures exists i :: 0 <= i < |all| && all[i].key == k
    {
      LiveKeyListed(entries, changes, out, values, k);
    }
    ListingIsMap(all, live);
  }

  lemma LiveKeyListed(entries: seq<Entry>, changes: Changes, out: seq<Entry>, values: seq<Entry>, k: Bytes)
    requires Distinct(entries) && Kept(entries, changes, out) && Lists(values, changes, changes.Keys)
    requires k in Overlaid(AsMap(entries), changes)
    ensures exists i :: 0 <= i < |out + values| && (out + values)[i].key == k
  {
    hide AsMap;
    if k in changes {
      var i :| 0 <= i < |values| && values[i].key == k;
      assert (out + values)[|out| + i].key == k;
    } else {
      AsMapHas(entries, k);
      var j :| 0 <= j < |entries| && entries[j].key == k;
      var i :| 0 <= i < |out| && out[i] == entries[j];
      assert (out + values)[i].key == k;
    }
  }

  lemma {:induction false} AllUnshadowed(entries: seq<Entry>)
    ensures Unshadowed(entries, map[]) == entries
  {
    if entries != [] {
      AllUnshadowed(entries[..|entries| - 1]);
      assert entries == entries[..|entries| - 1] + [entries[|entries| - 1]];
    }
  }

  lemma NothingShadowed(entries: seq<Entry>, values: seq<Entry>, changes: Changes)
    requires Lists(values, changes, changes.Keys) && changes == map[]
    ensures Unshadowed(entries, changes) + values == entries
  {
    AllUnshadowed(entries);
    var first := if |values| > 0 then values[0].key else [];
    assert first !in changes;
  }
}
