/** The in-memory Overlay index: offsets into a mapped log prefix plus an owned tail. */
module Overlay {
  import opened Bytes
  import opened Log

  const MAPPED_VALUE_THRESHOLD: nat := 1024 * 1024
  const OVERLAY_MAPPING_THRESHOLD: nat := 1024 * 1024

  /** What the Overlay says about a key: a value, or None for a tombstone. */
  type Change = Option<Bytes>
  type Changes = map<Bytes, Change>

  function ChangeOf(op: Op): Change {
    if op.Put? then Some(op.value) else None
  }

  function OpOf(key: Bytes, change: Change): Op {
    if change.Some? then Put(key, change.value) else Delete(key)
  }

  /** A batch as a plain map update, last operation wins. */
  function ApplyOps(m: Changes, ops: seq<Op>): Changes {
    if ops == [] then m
    else
      var last := ops[|ops| - 1];
      ApplyOps(m, ops[..|ops| - 1])[last.key := ChangeOf(last)]
  }

  function ApplyBatches(batches: seq<seq<Op>>): Changes {
    if batches == [] then map[]
    else ApplyOps(ApplyBatches(batches[..|batches| - 1]), batches[|batches| - 1])
  }

  ghost predicate DistinctKeys(ops: seq<Op>) {
    forall i, j :: 0 <= i < j < |ops| ==> ops[i].key != ops[j].key
  }

  // ------------------------------------------------------------ log records

  /** `checked_slices`: the operation a mapped offset stands for. */
  function SlicesAt(bytes: Bytes, offset: nat): Option<Op> {
    if offset + OPERATION_HEADER_SIZE > |bytes| then None
    else
      var tag := bytes[offset];
      var keyEnd := offset + OPERATION_HEADER_SIZE + U32At(bytes, offset + 1);
      var valueEnd := keyEnd + U32At(bytes, offset + 5);
      if tag != PUT && tag != DELETE then None
      else if tag == DELETE && valueEnd != keyEnd then None
      else if valueEnd > |bytes| then None
      else
        var key := bytes[offset + OPERATION_HEADER_SIZE..keyEnd];
        if tag == PUT then Some(Put(key, bytes[keyEnd..valueEnd])) else Some(Delete(key))
  }

  lemma OpSlices(op: Op)
    ensures var o, keyEnd := OpBytes(op), OPERATION_HEADER_SIZE + |op.key|;
            && o[0] == Tag(op) && o[1..5] == LittleEndian(|op.key|, 4) && o[5..9] == LittleEndian(|Carried(op)|, 4)
            && o[9..keyEnd] == op.key && o[keyEnd..|o|] == Carried(op)
  {
    hide LittleEndian;
  }

  lemma SlicesOfOpBytes(bytes: Bytes, offset: nat, op: Op)
    requires Loggable(op)
    requires offset + |OpBytes(op)| <= |bytes|
    requires bytes[offset..offset + |OpBytes(op)|] == OpBytes(op)
    ensures SlicesAt(bytes, offset) == Some(op)
  {
    hide LittleEndian, U32At, OpBytes;
    var o, end := OpBytes(op), offset + |OpBytes(op)|;
    var keyEnd := OPERATION_HEADER_SIZE + |op.key|;
    OpSlices(op);
    SubSlice(bytes, offset, end, 1, 5);
    SubSlice(bytes, offset, end, 5, 9);
    SubSlice(bytes, offset, end, 9, keyEnd);
    SubSlice(bytes, offset, end, keyEnd, |o|);
    U32AtEncoded(bytes, offset + 1, |op.key|);
    U32AtEncoded(bytes, offset + 5, |Carried(op)|);
    assert bytes[offset] == bytes[offset..end][0] == o[0];
  }

  /** A record that decodes keeps decoding when the log grows. */
  lemma SlicesSurviveGrowth(bytes: Bytes, longer: Bytes, offset: nat)
    requires bytes <= longer
    requires SlicesAt(bytes, offset).Some?
    ensures SlicesAt(longer, offset) == SlicesAt(bytes, offset)
  {
    hide U32At;
    assert bytes[offset + 1..offset + 5] == longer[offset + 1..offset + 5];
    assert bytes[offset + 5..offset + 9] == longer[offset + 5..offset + 9];
    SameU32(bytes, longer, offset + 1);
    SameU32(bytes, longer, offset + 5);
    var keyEnd := offset + OPERATION_HEADER_SIZE + U32At(bytes, offset + 1);
    var valueEnd := keyEnd + U32At(bytes, offset + 5);
    assert bytes[offset + OPERATION_HEADER_SIZE..keyEnd] == longer[offset + OPERATION_HEADER_SIZE..keyEnd];
    assert bytes[keyEnd..valueEnd] == longer[keyEnd..valueEnd];
  }

  lemma SameU32(a: Bytes, b: Bytes, offset: nat)
    requires offset + 4 <= |a| && offset + 4 <= |b| && a[offset..offset + 4] == b[offset..offset + 4]
    ensures U32At(a, offset) == U32At(b, offset)
  {
  }

  /** Where each operation of a batch will stand, given where its first one stands. */
  function OpOffsets(first: nat, ops: seq<Op>): (r: seq<nat>)
    ensures |r| == |ops|
  {
    if ops == [] then []
    else OpOffsets(first, ops[..|ops| - 1]) + [first + |OpsBytes(ops[..|ops| - 1])|]
  }

  lemma {:induction false} OpOffsetsAt(first: nat, ops: seq<Op>, i: nat)
    requires i < |ops|
    ensures OpOffsets(first, ops)[i] == first + |OpsBytes(ops[..i])|
  {
    hide OpsBytes;
    var n := |ops| - 1;
    if i < n {
      OpOffsetsAt(first, ops[..n], i);
      assert ops[..n][..i] == ops[..i];
    }
  }

  /** `mapped_mutations`: predicts the offsets before any byte is written. */
  method MappedMutations(staged: seq<Op>, batchOffset: nat) returns (offsets: seq<nat>)
    ensures offsets == OpOffsets(batchOffset + HEADER_SIZE + 4, staged)
  {
    hide OpBytes;
    var first := batchOffset + HEADER_SIZE + 4;
    var cursor := first;
    offsets := [];
    for i := 0 to |staged|
      invariant cursor == first + |OpsBytes(staged[..i])|
      invariant offsets == OpOffsets(first, staged[..i])
    {
      offsets := offsets + [cursor];
      cursor := cursor + OPERATION_HEADER_SIZE + |staged[i].key| + |Carried(staged[i])|;
      assert staged[..i + 1][..i] == staged[..i];
      OpsBytesAt(staged, i);
    }
    assert staged[..|staged|] == staged;
  }

  lemma BatchBody(d: Digests, log: Bytes, ops: seq<Op>)
    requires StorableBatch(ops)
    ensures var grown, first := log + BatchRecord(d, ops), |log| + HEADER_SIZE + 4;
            first <= |grown| && grown[first..] == OpsBytes(ops)
    ensures forall i :: 0 <= i < |ops| ==> Loggable(ops[i])
  {
    hide OpsBytes, RecordHeader, LittleEndian;
  }

  /** Every predicted offset decodes to its own operation in the bytes actually appended. */
  lemma PredictedOffsetsDecode(d: Digests, log: Bytes, ops: seq<Op>, i: nat)
    requires StorableBatch(ops) && i < |ops|
    ensures SlicesAt(log + BatchRecord(d, ops), OpOffsets(|log| + HEADER_SIZE + 4, ops)[i]) == Some(ops[i])
  {
    hide *;
    var grown := log + BatchRecord(d, ops);
    var first := |log| + HEADER_SIZE + 4;
    BatchBody(d, log, ops);
    OpOffsetsAt(first, ops, i);
    OpsBytesAt(ops, i);
    var from := |OpsBytes(ops[..i])|;
    var to := from + |OpBytes(ops[i])|;
    SubSlice(grown, first, |grown|, from, to);
    SlicesOfOpBytes(grown, first + from, ops[i]);
  }

  // ------------------------------------------------------------------ index

  datatype TailEntry = TailEntry(change: Change, mapped: nat)

  /**
   * The file form of `OverlayMap`. A hash table is a map: `table` holds, under the key its record
   * decodes to, the offset of the record in the mapped bytes; `tail` owns the changes committed
   * since the mapping was made, with the offsets predicted for them.
   */
  datatype OverlayMap = OverlayMap(bytes: Option<Bytes>, table: map<Bytes, nat>, tail: map<Bytes, TailEntry>)

  function Mapping(o: OverlayMap): Bytes {
    if o.bytes.Some? then o.bytes.value else []
  }

  const NOTHING: OverlayMap := OverlayMap(None, map[], map[])

  /** `get_hashed`: Some(change) when the Overlay decides the key, None when the Base does. */
  function Get(o: OverlayMap, key: Bytes): Option<Change> {
    if key in o.tail then Some(o.tail[key].change)
    else if o.bytes.None? || key !in o.table then None
    else
      var record := SlicesAt(o.bytes.value, o.table[key]);
      if record.Some? then Some(ChangeOf(record.value)) else None
  }

  /** Value bytes below the threshold are charged together with the key. */
  function EntryCharge(key: Bytes, change: Change): nat {
    |key| + if change.Some? && |change.value| < MAPPED_VALUE_THRESHOLD then |change.value| else 0
  }

  /** Owned tail values are charged in full. */
  function TailCharge(key: Bytes, change: Change): nat {
    |key| + if change.Some? then |change.value| else 0
  }

  ghost predicate TailFits(log: Bytes, m: Changes, key: Bytes, t: TailEntry) {
    && key in m && m[key] == t.change
    && SlicesAt(log, t.mapped) == Some(OpOf(key, t.change))
    && (t.change.Some? ==> |t.change.value| < MAPPED_VALUE_THRESHOLD)
  }

  ghost predicate TableFits(bytes: Bytes, m: Changes, key: Bytes, offset: nat) {
    key in m && SlicesAt(bytes, offset) == Some(OpOf(key, m[key]))
  }

  /** The index stands for the changes `m` recorded in the log bytes `log`. */
  ghost predicate Represents(o: OverlayMap, log: Bytes, m: Changes) {
    && (o.bytes.None? ==> o.table == map[])
    && Mapping(o) <= log
    && (forall k :: k in o.table ==> TableFits(Mapping(o), m, k, o.table[k]))
    && (forall k :: k in o.tail ==> TailFits(log, m, k, o.tail[k]))
    && o.table.Keys !! o.tail.Keys
    && o.table.Keys + o.tail.Keys == m.Keys
  }

  /** The two halves answer every key exactly as one map would. */
  lemma GetIsMap(o: OverlayMap, log: Bytes, m: Changes, key: Bytes)
    requires Represents(o, log, m)
    ensures Get(o, key) == if key in m then Some(m[key]) else None
  {
    hide SlicesAt;
    if key in m {
      assert key in o.table.Keys + o.tail.Keys;
      if key in o.table {
        assert TableFits(Mapping(o), m, key, o.table[key]);
      } else {
        assert TailFits(log, m, key, o.tail[key]);
      }
    } else {
      assert key !in o.table.Keys + o.tail.Keys;
    }
  }

  // --------------------------------------------------------------- one change

  /** One turn of the `install_tail` loop. */
  function PutTail(o: OverlayMap, key: Bytes, change: Change, mapped: nat): OverlayMap {
    o.(table := o.table - {key}, tail := o.tail[key := TailEntry(change, mapped)])
  }

  /** One turn of the `install_mapped` and recovery loops. */
  function PutMapped(o: OverlayMap, offset: nat): OverlayMap
    requires SlicesAt(Mapping(o), offset).Some?
  {
    o.(table := o.table[SlicesAt(Mapping(o), offset).value.key := offset])
  }

  /** One turn of the promotion loop. */
  function Promote(o: OverlayMap, key: Bytes): OverlayMap
    requires key in o.tail
  {
    o.(table := o.table[key := o.tail[key].mapped], tail := o.tail - {key})
  }

  lemma PutTailRepresents(o: OverlayMap, log: Bytes, m: Changes, key: Bytes, change: Change, mapped: nat)
    requires Represents(o, log, m)
    requires SlicesAt(log, mapped) == Some(OpOf(key, change))
    requires change.Some? ==> |change.value| < MAPPED_VALUE_THRESHOLD
    ensures Represents(PutTail(o, key, change, mapped), log, m[key := change])
  {
    hide SlicesAt;
    var o', m' := PutTail(o, key, change, mapped), m[key := change];
    forall k | k in o'.table
      ensures TableFits(Mapping(o'), m', k, o'.table[k])
    {
      assert TableFits(Mapping(o), m, k, o.table[k]);
    }
    forall k | k in o'.tail
      ensures TailFits(log, m', k, o'.tail[k])
    {
      assert k != key ==> TailFits(log, m, k, o.tail[k]);
    }
    assert o'.table.Keys == o.table.Keys - {key};
    assert o'.tail.Keys == o.tail.Keys + {key};
    assert m'.Keys == m.Keys + {key};
  }

  lemma PutMappedRepresents(o: OverlayMap, log: Bytes, m: Changes, op: Op, offset: nat)
    requires Represents(o, log, m) && o.bytes.Some? && o.tail == map[]
    requires SlicesAt(Mapping(o), offset) == Some(op)
    ensures Represents(PutMapped(o, offset), log, m[op.key := ChangeOf(op)])
  {
    hide SlicesAt;
    var o', m' := PutMapped(o, offset), m[op.key := ChangeOf(op)];
    forall k | k in o'.table
      ensures TableFits(Mapping(o'), m', k, o'.table[k])
    {
      assert k != op.key ==> TableFits(Mapping(o), m, k, o.table[k]);
    }
    assert o'.table.Keys == o.table.Keys + {op.key};
    assert m'.Keys == m.Keys + {op.key};
  }

  lemma PromoteRepresents(o: OverlayMap, log: Bytes, m: Changes, key: Bytes)
    requires Represents(o, log, m) && o.bytes == Some(log) && key in o.tail
    ensures Represents(Promote(o, key), log, m)
  {
    hide SlicesAt;
    var o' := Promote(o, key);
    assert TailFits(log, m, key, o.tail[key]);
    forall k | k in o'.table
      ensures TableFits(Mapping(o'), m, k, o'.table[k])
    {
      assert k != key ==> TableFits(Mapping(o), m, k, o.table[k]);
    }
    forall k | k in o'.tail
      ensures TailFits(log, m, k, o'.tail[k])
    {
      assert TailFits(log, m, k, o.tail[k]);
    }
    assert o'.table.Keys == o.table.Keys + {key};
    assert o'.tail.Keys == o.tail.Keys - {key};
  }

  /** The same index over a log that has grown, with or without a longer mapping. */
  lemma GrowthRepresents(o: OverlayMap, log: Bytes, m: Changes, longer: Bytes, bytes: Option<Bytes>)
    requires Represents(o, log, m) && log <= longer
    requires bytes == o.bytes || bytes == Some(longer)
    ensures Represents(o.(bytes := bytes), longer, m)
  {
    hide SlicesAt;
    var o' := o.(bytes := bytes);
    forall k | k in o.table
      ensures TableFits(Mapping(o'), m, k, o'.table[k])
    {
      assert TableFits(Mapping(o), m, k, o.table[k]);
      SlicesSurviveGrowth(Mapping(o), Mapping(o'), o.table[k]);
    }
    forall k | k in o.tail
      ensures TailFits(longer, m, k, o'.tail[k])
    {
      assert TailFits(log, m, k, o.tail[k]);
      SlicesSurviveGrowth(log, longer, o.tail[k].mapped);
    }
  }

  // ---------------------------------------------------------------- accounting

  /** What a change is to cost: its key, and its value unless that is a mebibyte or more. */
  ghost function Owed(key: Bytes, change: Change): nat {
    match change
    case None => |key|
    case Some(value) => if |value| >= 1_048_576 then |key| else |key| + |value|
  }

  /** What all changes together are to cost. */
  ghost function Charge(m: Changes): nat
    decreases |m|
  {
    if m == map[] then 0
    else
      var k :| k in m;
      Owed(k, m[k]) + Charge(m - {k})
  }

  lemma {:induction false} ChargeWithout(m: Changes, k: Bytes)
    requires k in m
    ensures Charge(m) == Owed(k, m[k]) + Charge(m - {k})
    decreases |m|
  {
    hide Owed;
    var c :| c in m && Charge(m) == Owed(c, m[c]) + Charge(m - {c});
    if c != k {
      ChargeWithout(m - {c}, k);
      ChargeWithout(m - {k}, c);
      assert (m - {c}) - {k} == (m - {k}) - {c};
    }
  }

  lemma ChargeSet(m: Changes, k: Bytes, change: Change)
    ensures Charge(m[k := change]) == Owed(k, change) + Charge(m - {k})
    ensures k !in m ==> m - {k} == m
  {
    ChargeWithout(m[k := change], k);
    assert m[k := change] - {k} == m - {k};
  }

  /** One more change costs its key and its value below a mebibyte; a tombstone costs its key. */
  lemma ChargeOfFresh(m: Changes, k: Bytes, v: Bytes)
    requires k !in m
    ensures Charge(map[]) == 0
    ensures Charge(m[k := Some(v)]) == Charge(m) + |k| + if |v| < 1024 * 1024 then |v| else 0
    ensures Charge(m[k := None]) == Charge(m) + |k|
  {
    ChargeSet(m, k, Some(v));
    ChargeSet(m, k, None);
  }

  /** What a batch of new keys adds to the charge. */
  function Owing(ops: seq<Op>): nat {
    if ops == [] then 0
    else
      var last := ops[|ops| - 1];
      Owing(ops[..|ops| - 1]) + |last.key| + if last.Put? && |last.value| < 1024 * 1024 then |last.value| else 0
  }

  lemma {:induction false} ChargeOfFreshBatch(m: Changes, ops: seq<Op>)
    requires DistinctKeys(ops) && forall i :: 0 <= i < |ops| ==> ops[i].key !in m
    ensures Charge(ApplyOps(m, ops)) == Charge(m) + Owing(ops)
    ensures forall k :: k in ApplyOps(m, ops) ==> k in m || exists i :: 0 <= i < |ops| && ops[i].key == k
  {
    if ops != [] {
      var n := |ops| - 1;
      ChargeOfFreshBatch(m, ops[..n]);
      var before, last := ApplyOps(m, ops[..n]), ops[n];
      assert last.key !in before;
      ChargeOfFresh(before, last.key, Carried(last));
      assert ops[n].key == last.key;
    }
  }

  function KeysOf(ops: seq<Op>): set<Bytes> {
    set i | 0 <= i < |ops| :: ops[i].key
  }

  /** Part of a batch is done: `removed` left the total of `m`, `added` entered it. */
  ghost predicate Accounted(m: Changes, current: Changes, done: set<Bytes>, removed: nat, added: nat) {
    && m - done == current - done
    && Charge(m) == Charge(m - done) + removed
    && Charge(current) == Charge(m - done) + added
  }

  lemma AccountStart(m: Changes)
    ensures Accounted(m, m, {}, 0, 0)
  {
    assert m - {} == m;
  }

  lemma AccountTotal(m: Changes, current: Changes, done: set<Bytes>, removed: nat, added: nat)
    requires Accounted(m, current, done, removed, added)
    ensures removed <= Charge(m) && Charge(current) == Charge(m) - removed + added
  {
  }

  lemma AccountStep(m: Changes, current: Changes, done: set<Bytes>, removed: nat, added: nat, k: Bytes, change: Change)
    requires k !in done && Accounted(m, current, done, removed, added)
    ensures Accounted(m, current[k := change], done + {k},
                      removed + (if k in current then Owed(k, current[k]) else 0),
                      added + Owed(k, change))
  {
    hide Owed;
    var rest := m - done;
    assert rest - {k} == m - (done + {k});
    assert current[k := change] - (done + {k}) == (current - done) - {k};
    ChargeSet(current, k, change);
    if k in current {
      assert k in current - done && rest[k] == (current - done)[k] == current[k];
      ChargeWithout(rest, k);
      ChargeWithout(current, k);
    } else {
      assert k !in current - done;
      assert rest - {k} == rest;
    }
  }

  /** The charge never exceeds the bytes logged, so 64-bit counters do not saturate. */
  lemma {:induction false} ChargeOfOps(m: Changes, ops: seq<Op>)
    ensures Charge(ApplyOps(m, ops)) <= Charge(m) + |OpsBytes(ops)|
  {
    hide OpBytes, OpsBytes, Owed;
    if ops == [] {
      OpsBytesCons(Delete([]), []);
    } else {
      var n := |ops| - 1;
      ChargeOfOps(m, ops[..n]);
      OpsBytesAt(ops, n);
      assert ops[..n + 1] == ops;
      var before := ApplyOps(m, ops[..n]);
      ChargeSet(before, ops[n].key, ChangeOf(ops[n]));
      if ops[n].key in before {
        ChargeWithout(before, ops[n].key);
      }
      OwedBound(ops[n]);
    }
  }

  lemma OwedBound(op: Op)
    ensures Owed(op.key, ChangeOf(op)) <= |OpBytes(op)|
  {
  }

  lemma {:induction false} ChargeWithinLog(d: Digests, batches: seq<seq<Op>>)
    ensures Charge(ApplyBatches(batches)) <= |LogBytes(d, batches)|
  {
    hide BatchRecord, OpsBytes, LogBytes, ApplyOps;
    if batches == [] {
      assert Charge(map[]) == 0;
    } else {
      var n := |batches| - 1;
      ChargeWithinLog(d, batches[..n]);
      ChargeOfOps(ApplyBatches(batches[..n]), batches[n]);
      LogBytesAppend(d, batches[..n], [batches[n]]);
      LogBytesCons(d, batches[n], []);
      assert [batches[n]] + [] == [batches[n]];
      assert batches == batches[..n] + [batches[n]];
      BatchRecordBound(d, batches[n]);
    }
  }

  lemma BatchRecordBound(d: Digests, ops: seq<Op>)
    ensures |OpsBytes(ops)| <= |BatchRecord(d, ops)|
  {
  }

  // ------------------------------------------------------------------- state

  ghost predicate Predicted(log: Bytes, staged: seq<Op>, offsets: seq<nat>) {
    && |offsets| == |staged|
    && forall i :: 0 <= i < |staged| ==> SlicesAt(log, offsets[i]) == Some(staged[i])
  }

  lemma ApplyOne(m: Changes, ops: seq<Op>, i: nat)
    requires i < |ops|
    ensures ApplyOps(m, ops[..i + 1]) == ApplyOps(m, ops[..i])[ops[i].key := ChangeOf(ops[i])]
    ensures KeysOf(ops[..i + 1]) == KeysOf(ops[..i]) + {ops[i].key}
    ensures DistinctKeys(ops) ==> ops[i].key !in KeysOf(ops[..i])
  {
    assert ops[..i + 1][..i] == ops[..i];
    assert KeysOf(ops[..i + 1]) == KeysOf(ops[..i]) + {ops[i].key} by {
      forall k | k in KeysOf(ops[..i + 1])
        ensures k in KeysOf(ops[..i]) + {ops[i].key}
      {
        var j :| 0 <= j < i + 1 && ops[..i + 1][j].key == k;
        assert j < i ==> ops[..i][j].key == k;
      }
      forall k | k in KeysOf(ops[..i])
        ensures k in KeysOf(ops[..i + 1])
      {
        var j :| 0 <= j < i && ops[..i][j].key == k;
        assert ops[..i + 1][j].key == k;
      }
      assert ops[..i + 1][i].key == ops[i].key;
    }
  }

  /** `OverlayMap::install_tail`: the new index, and what left and entered the memory charge. */
  method TailInstalled(o: OverlayMap, staged: seq<Op>, offsets: seq<nat>, ghost log: Bytes, ghost m: Changes)
    returns (r: OverlayMap, removed: nat, added: nat)
    requires Represents(o, log, m) && Predicted(log, staged, offsets) && DistinctKeys(staged)
    requires forall i :: 0 <= i < |staged| ==> |Carried(staged[i])| < MAPPED_VALUE_THRESHOLD
    ensures Represents(r, log, ApplyOps(m, staged)) && r.bytes == o.bytes
    ensures removed <= Charge(m) && Charge(ApplyOps(m, staged)) == Charge(m) - removed + added
  {
    hide SlicesAt, Represents, ApplyOps, Accounted, KeysOf, DistinctKeys;
    r, removed, added := o, 0, 0;
    ghost var current := m;
    ApplyNone(m, staged);
    AccountStart(m);
    for i := 0 to |staged|
      invariant r.bytes == o.bytes
      invariant current == ApplyOps(m, staged[..i])
      invariant Represents(r, log, current)
      invariant Accounted(m, current, KeysOf(staged[..i]), removed, added)
    {
      var key, change := staged[i].key, ChangeOf(staged[i]);
      ApplyOne(m, staged, i);
      AccountStep(m, current, KeysOf(staged[..i]), removed, added, key, change);
      PutTailRepresents(r, log, current, key, change, offsets[i]);
      PreviousCharge(r, log, current, key);
      added := added + TailCharge(key, change);
      removed := removed + HeldCharge(r, key);
      r := PutTail(r, key, change, offsets[i]);
      current := current[key := change];
    }
    assert staged[..|staged|] == staged;
    AccountTotal(m, current, KeysOf(staged), removed, added);
  }

  /** The promotion loop of `install_mapped`: the tail moves into the table, nothing changes. */
  method Promoted(o: OverlayMap, bytes: Bytes, ghost m: Changes) returns (r: OverlayMap)
    requires Represents(o, bytes, m) && o.bytes == Some(bytes)
    ensures Represents(r, bytes, m) && r.bytes == Some(bytes) && r.tail == map[]
  {
    hide Represents;
    r := o;
    while r.tail != map[]
      invariant r.bytes == Some(bytes) && Represents(r, bytes, m)
      decreases |r.tail|
    {
      var key :| key in r.tail;
      PromoteRepresents(r, bytes, m, key);
      r := Promote(r, key);
    }
  }

  /** `OverlayMap::install_mapped`: a longer mapping, the old tail promoted, then the new batch. */
  method MappedInstalled(o: OverlayMap, bytes: Bytes, offsets: seq<nat>, ghost staged: seq<Op>, ghost log: Bytes,
                         ghost m: Changes)
    returns (r: OverlayMap, removed: nat, added: nat)
    requires Represents(o, log, m) && log <= bytes && Predicted(bytes, staged, offsets) && DistinctKeys(staged)
    ensures Represents(r, bytes, ApplyOps(m, staged)) && r.bytes == Some(bytes) && r.tail == map[]
    ensures removed <= Charge(m) && Charge(ApplyOps(m, staged)) == Charge(m) - removed + added
  {
    hide SlicesAt, Represents, ApplyOps, Accounted, KeysOf, DistinctKeys;
    GrowthRepresents(o, log, m, bytes, Some(bytes));
    r := Promoted(o.(bytes := Some(bytes)), bytes, m);
    removed, added := 0, 0;
    ghost var current := m;
    ApplyNone(m, staged);
    AccountStart(m);
    for i := 0 to |offsets|
      invariant r.bytes == Some(bytes) && r.tail == map[]
      invariant current == ApplyOps(m, staged[..i])
      invariant Represents(r, bytes, current)
      invariant Accounted(m, current, KeysOf(staged[..i]), removed, added)
    {
      var op := SlicesAt(bytes, offsets[i]).value;
      ApplyOne(m, staged, i);
      AccountStep(m, current, KeysOf(staged[..i]), removed, added, op.key, ChangeOf(op));
      PutMappedRepresents(r, bytes, current, op, offsets[i]);
      PreviousCharge(r, bytes, current, op.key);
      added := added + EntryCharge(op.key, ChangeOf(op));
      removed := removed + HeldCharge(r, op.key);
      r := PutMapped(r, offsets[i]);
      current := current[op.key := ChangeOf(op)];
    }
    assert staged[..|staged|] == staged;
    AccountTotal(m, current, KeysOf(staged), removed, added);
  }

  class OverlayState {
    var index: OverlayMap
    var memory: nat

    /** The index stands for `m` and the memory charge is exact. */
    ghost predicate Valid(log: Bytes, m: Changes)
      reads this
    {
      Represents(index, log, m) && memory == Charge(m)
    }

    constructor ()
      ensures index == NOTHING && memory == 0
      ensures Valid([], map[])
    {
      index, memory := NOTHING, 0;
    }

    constructor WithMemory(index: OverlayMap, memory: nat)
      ensures this.index == index && this.memory == memory
    {
      this.index, this.memory := index, memory;
    }

    /** Whether the log has outgrown the mapping by the threshold. */
    predicate NeedsMapping(overlaySize: nat)
      reads this
    {
      overlaySize >= |Mapping(index)| + OVERLAY_MAPPING_THRESHOLD
    }

    method Clear()
      modifies this
      ensures index == NOTHING && memory == 0
      ensures forall log :: Valid(log, map[])
    {
      index, memory := NOTHING, 0;
    }

    method InstallTail(staged: seq<Op>, offsets: seq<nat>, ghost log: Bytes, ghost m: Changes)
      requires Valid(log, m) && Predicted(log, staged, offsets) && DistinctKeys(staged)
      requires forall i :: 0 <= i < |staged| ==> |Carried(staged[i])| < MAPPED_VALUE_THRESHOLD
      modifies this
      ensures Valid(log, ApplyOps(m, staged))
      ensures index.bytes == old(index.bytes)
    {
      hide Represents, ApplyOps, Predicted, Charge, DistinctKeys;
      var o, removed, added := TailInstalled(index, staged, offsets, log, m);
      index := o;
      memory := (if memory < removed then 0 else memory - removed) + added;
    }

    method InstallMapped(bytes: Bytes, offsets: seq<nat>, ghost staged: seq<Op>, ghost log: Bytes, ghost m: Changes)
      requires Valid(log, m) && log <= bytes && Predicted(bytes, staged, offsets) && DistinctKeys(staged)
      modifies this
      ensures Valid(bytes, ApplyOps(m, staged))
      ensures index.bytes == Some(bytes) && index.tail == map[]
    {
      hide Represents, ApplyOps, Predicted, Charge, DistinctKeys;
      var o, removed, added := MappedInstalled(index, bytes, offsets, staged, log, m);
      index := o;
      memory := (if memory < removed then 0 else memory - removed) + added;
    }
  }

  /** The charge of the entry a new change displaces, read from wherever it is held. */
  function HeldCharge(o: OverlayMap, key: Bytes): nat {
    if key in o.tail then TailCharge(key, o.tail[key].change)
    else if o.bytes.Some? && key in o.table && SlicesAt(o.bytes.value, o.table[key]).Some? then
      var op := SlicesAt(o.bytes.value, o.table[key]).value;
      EntryCharge(op.key, ChangeOf(op))
    else 0
  }

  lemma PreviousCharge(o: OverlayMap, log: Bytes, m: Changes, key: Bytes)
    requires Represents(o, log, m)
    ensures HeldCharge(o, key) == if key in m then Owed(key, m[key]) else 0
  {
    hide SlicesAt;
    if key in o.tail {
      assert TailFits(log, m, key, o.tail[key]);
    } else if key in o.table {
      assert TableFits(Mapping(o), m, key, o.table[key]);
    } else {
      assert key !in o.table.Keys + o.tail.Keys;
    }
  }

  lemma ApplyNone(m: Changes, ops: seq<Op>)
    ensures ApplyOps(m, ops[..0]) == m
    ensures KeysOf(ops[..0]) == {}
  {
  }
}
