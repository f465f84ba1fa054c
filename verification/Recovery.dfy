/** Rebuilding the Overlay index from the log at open. */
module Recovery {
  import opened Bytes
  import opened Log
  import opened Overlay

  datatype Recovered =
    | Rebuilt(index: OverlayMap, memory: nat, validLen: nat)
    | Refused(error: ScanError)

  /** The index over the first `n` bytes of the log stands for `m`, and the charge is exact. */
  ghost predicate Rebuilds(o: OverlayMap, bytes: Bytes, n: nat, m: Changes, memory: nat) {
    && n <= |bytes|
    && o.bytes == Some(bytes) && o.tail == map[]
    && Represents(o.(bytes := Some(bytes[..n])), bytes[..n], m)
    && memory == Charge(m)
  }

  /** One recovered operation, ending at `end`, acts as one map update. */
  lemma InstallRecovered(o: OverlayMap, bytes: Bytes, offset: nat, end: nat, op: Op, m: Changes, memory: nat)
    requires Rebuilds(o, bytes, offset, m, memory)
    requires offset <= end <= |bytes| && Loggable(op) && bytes[offset..end] == OpBytes(op)
    ensures o.bytes == Some(bytes) && SlicesAt(bytes, offset) == Some(op)
    ensures HeldCharge(o, op.key) <= memory
    ensures Rebuilds(PutMapped(o, offset), bytes, end, m[op.key := ChangeOf(op)],
                     memory - HeldCharge(o, op.key) + EntryCharge(op.key, ChangeOf(op)))
  {
    hide SlicesAt, Represents, Loggable, OpBytes, Charge;
    var shorter, longer := bytes[..offset], bytes[..end];
    assert longer[offset..end] == bytes[offset..end];
    SlicesOfOpBytes(longer, offset, op);
    SlicesSurviveGrowth(longer, bytes, offset);
    var o1 := o.(bytes := Some(shorter));
    GrowthRepresents(o1, shorter, m, longer, Some(longer));
    var o2 := o.(bytes := Some(longer));
    assert o1.(bytes := Some(longer)) == o2;
    PutMappedRepresents(o2, longer, m, op, offset);
    assert PutMapped(o2, offset) == PutMapped(o, offset).(bytes := Some(longer));
    GrowthRepresents(o1, shorter, m, bytes, Some(bytes));
    assert o1.(bytes := Some(bytes)) == o;
    PreviousCharge(o, bytes, m, op.key);
    ChargeSet(m, op.key, ChangeOf(op));
    if op.key in m {
      ChargeWithout(m, op.key);
    }
  }

  lemma RebuildsLonger(o: OverlayMap, bytes: Bytes, n: nat, n': nat, m: Changes, memory: nat)
    requires Rebuilds(o, bytes, n, m, memory) && n <= n' <= |bytes|
    ensures Rebuilds(o, bytes, n', m, memory)
  {
    hide Represents;
    var o1 := o.(bytes := Some(bytes[..n]));
    GrowthRepresents(o1, bytes[..n], m, bytes[..n'], Some(bytes[..n']));
    assert o1.(bytes := Some(bytes[..n'])) == o.(bytes := Some(bytes[..n']));
  }

  lemma ApplyLast(m: Changes, done: seq<Op>, op: Op)
    ensures ApplyOps(m, done + [op]) == ApplyOps(m, done)[op.key := ChangeOf(op)]
  {
    assert (done + [op])[..|done|] == done;
  }

  /** The first `i` operations decoded to `done`, and the rest of the payload starts at `cursor`. */
  ghost predicate Halfway(payload: Bytes, count: nat, i: nat, cursor: nat, done: seq<Op>) {
    && 4 <= cursor <= |payload| && i <= count
    && DecodeOps(payload[4..], count) ==
       var rest := DecodeOps(payload[cursor..], count - i);
       if rest.None? then None else Some(done + rest.value)
  }

  lemma HalfwayStart(payload: Bytes, count: nat)
    requires 4 <= |payload|
    ensures Halfway(payload, count, 0, 4, [])
  {
    var all := DecodeOps(payload[4..], count);
    assert all.Some? ==> [] + all.value == all.value;
  }

  lemma HalfwayStep(payload: Bytes, count: nat, i: nat, cursor: nat, done: seq<Op>)
    requires Halfway(payload, count, i, cursor, done) && i < count
    ensures var next := DecodeOp(payload[cursor..]);
            if next.None? then DecodeOps(payload[4..], count).None?
            else Halfway(payload, count, i + 1, cursor + next.value.end, done + [next.value.op])
  {
    hide DecodeOp;
    var next := DecodeOp(payload[cursor..]);
    if next.Some? {
      var end := cursor + next.value.end;
      assert payload[cursor..][next.value.end..] == payload[end..];
      var rest := DecodeOps(payload[end..], count - i - 1);
      assert rest.Some? ==> done + ([next.value.op] + rest.value) == (done + [next.value.op]) + rest.value;
    }
  }

  lemma HalfwayEnd(payload: Bytes, count: nat, cursor: nat, done: seq<Op>)
    requires Halfway(payload, count, count, cursor, done)
    ensures DecodeOps(payload[4..], count) == if cursor == |payload| then Some(done) else None
  {
    assert done + [] == done;
  }

  /** The operation at `cursor` in the payload is installed where it lies in the log. */
  lemma InstallNext(o: OverlayMap, bytes: Bytes, payload: Bytes, payloadOffset: nat, cursor: nat, m: Changes,
                    memory: nat)
    requires payloadOffset + |payload| <= |bytes| && bytes[payloadOffset..payloadOffset + |payload|] == payload
    requires cursor <= |payload| && DecodeOp(payload[cursor..]).Some?
    requires Rebuilds(o, bytes, payloadOffset + cursor, m, memory)
    ensures var op, at := DecodeOp(payload[cursor..]).value.op, payloadOffset + cursor;
            && o.bytes == Some(bytes) && SlicesAt(bytes, at) == Some(op)
            && HeldCharge(o, op.key) <= memory
            && Rebuilds(PutMapped(o, at), bytes, at + DecodeOp(payload[cursor..]).value.end, m[op.key := ChangeOf(op)],
                        memory - HeldCharge(o, op.key) + EntryCharge(op.key, ChangeOf(op)))
  {
    hide Rebuilds, DecodeOp, SlicesAt, EntryCharge, HeldCharge, OpBytes, Loggable, PutMapped;
    var next := DecodeOp(payload[cursor..]).value;
    DecodedOpIsCanonical(payload[cursor..]);
    SubSlice(payload, cursor, |payload|, 0, next.end);
    SubSlice(bytes, payloadOffset, payloadOffset + |payload|, cursor, cursor + next.end);
    InstallRecovered(o, bytes, payloadOffset + cursor, payloadOffset + cursor + next.end, next.op, m, memory);
  }

  /** `apply_batch_payload`: installs the operations of one payload, or refuses it whole. */
  method ApplyBatchPayload(payload: Bytes, payloadOffset: nat, bytes: Bytes, o: OverlayMap, memory: nat,
                           ghost m: Changes)
    returns (ok: bool, r: OverlayMap, memory': nat)
    requires payloadOffset + |payload| <= |bytes| && bytes[payloadOffset..payloadOffset + |payload|] == payload
    requires Rebuilds(o, bytes, payloadOffset, m, memory)
    ensures ok <==> DecodePayload(payload).Some?
    ensures ok ==> Rebuilds(r, bytes, payloadOffset + |payload|, ApplyOps(m, DecodePayload(payload).value), memory')
  {
    hide Rebuilds, DecodeOp, DecodeOps, Halfway, SlicesAt, EntryCharge, HeldCharge, ApplyOps, PutMapped;
    r, memory' := o, memory;
    if |payload| < 4 {
      return false, r, memory';
    }
    var count := U32At(payload, 0);
    if count > MAX_BATCH_OPERATIONS {
      return false, r, memory';
    }
    var cursor := 4;
    ghost var done: seq<Op> := [];
    RebuildsLonger(o, bytes, payloadOffset, payloadOffset + 4, m, memory);
    ApplyNone(m, done);
    HalfwayStart(payload, count);
    for i := 0 to count
      invariant 4 <= cursor <= |payload| && Halfway(payload, count, i, cursor, done)
      invariant Rebuilds(r, bytes, payloadOffset + cursor, ApplyOps(m, done), memory')
    {
      var next := DecodeOp(payload[cursor..]);
      HalfwayStep(payload, count, i, cursor, done);
      if next.None? {
        return false, r, memory';
      }
      var op := next.value.op;
      InstallNext(r, bytes, payload, payloadOffset, cursor, ApplyOps(m, done), memory');
      ApplyLast(m, done, op);
      var held := HeldCharge(r, op.key);
      r := PutMapped(r, payloadOffset + cursor);
      memory' := (if memory' < held then 0 else memory' - held) + EntryCharge(op.key, ChangeOf(op));
      done := done + [op];
      cursor := cursor + next.value.end;
    }
    HalfwayEnd(payload, count, cursor, done);
    ok := cursor == |payload|;
  }

  /** `scan_overlay`: the scan loop, building the index batch by batch. */
  method ScanOverlay(d: Digests, bytes: Bytes) returns (r: Recovered)
    ensures r.Refused? ==> Scan(d, bytes) == Rejected(r.error)
    ensures r.Rebuilt? ==> RebuiltFrom(d, bytes, r)
  {
    hide Rebuilds, ReadRecord, ApplyBatches, BatchRecord;
    var index := OverlayMap(Some(bytes), map[], map[]);
    var memory := 0;
    var offset := 0;
    ghost var batches: seq<seq<Op>> := [];
    RebuildsNothing(bytes);
    assert bytes[0..] == bytes;
    while offset < |bytes|
      invariant 0 <= offset <= |bytes|
      invariant Rebuilds(index, bytes, offset, ApplyBatches(batches), memory)
      invariant Scan(d, bytes) ==
                match Scan(d, bytes[offset..])
                case Rejected(error) => Rejected(error)
                case Scanned(more, validLen) => Scanned(batches + more, offset + validLen)
    {
      match ReadRecord(d, bytes[offset..]) {
        case Stop =>
          break;
        case Fail(error) =>
          return Refused(error);
        case Record(ops, end) =>
          index, memory := InstallRecord(d, bytes, offset, index, memory, ApplyBatches(batches));
          ApplyLastBatch(batches, ops);
          assert bytes[offset..][end..] == bytes[offset + end..];
          var rest := Scan(d, bytes[offset + end..]);
          assert rest.Scanned? ==> batches + ([ops] + rest.batches) == (batches + [ops]) + rest.batches;
          batches := batches + [ops];
          offset := offset + end;
      }
    }
    ScanStops(d, bytes[offset..]);
    assert batches + [] == batches;
    r := Rebuilt(index, memory, offset);
  }

  lemma ScanStops(d: Digests, s: Bytes)
    requires s == [] || ReadRecord(d, s).Stop?
    ensures Quiet(d, s)
  {
  }

  lemma RebuildsNothing(bytes: Bytes)
    ensures Rebuilds(OverlayMap(Some(bytes), map[], map[]), bytes, 0, ApplyBatches([]), 0)
  {
  }

  lemma ApplyLastBatch(batches: seq<seq<Op>>, ops: seq<Op>)
    ensures ApplyBatches(batches + [ops]) == ApplyOps(ApplyBatches(batches), ops)
  {
    hide ApplyOps;
    assert (batches + [ops])[..|batches|] == batches;
  }

  /** The part of the scan loop that applies a complete, checksummed record. */
  method InstallRecord(d: Digests, bytes: Bytes, offset: nat, index: OverlayMap, memory: nat, ghost m: Changes)
    returns (r: OverlayMap, memory': nat)
    requires offset <= |bytes| && ReadRecord(d, bytes[offset..]).Record?
    requires Rebuilds(index, bytes, offset, m, memory)
    ensures var record := ReadRecord(d, bytes[offset..]);
            Rebuilds(r, bytes, offset + record.end, ApplyOps(m, record.ops), memory')
  {
    hide Rebuilds, U32At, RecordChecksum, DecodePayload, ApplyOps;
    var end := ReadRecord(d, bytes[offset..]).end;
    var payload := bytes[offset..][HEADER_SIZE..end];
    SubSlice(bytes, offset, |bytes|, HEADER_SIZE, end);
    RebuildsLonger(index, bytes, offset, offset + HEADER_SIZE, m, memory);
    var ok;
    ok, r, memory' := ApplyBatchPayload(payload, offset + HEADER_SIZE, bytes, index, memory, m);
  }

  lemma NothingDecodes(m: Changes, k: Bytes, offset: nat)
    ensures !TableFits([], m, k, offset)
  {
  }

  /** After the torn tail is cut off, the same index over the shorter mapping stands for the same map. */
  lemma IndexSurvivesTruncation(d: Digests, bytes: Bytes, o: OverlayMap, n: nat, m: Changes, memory: nat)
    requires Rebuilds(o, bytes, n, m, memory)
    ensures Represents(o.(bytes := Some(bytes[..n])), bytes[..n], m) && memory == Charge(m)
    ensures n == 0 ==> Represents(o.(bytes := None), [], m)
  {
    hide Charge;
    if n == 0 {
      assert bytes[..0] == [];
      forall k: Bytes
        ensures k !in o.table
      {
        NothingDecodes(m, k, if k in o.table then o.table[k] else 0);
      }
      assert o.table == map[];
    }
  }

  /**
   * Rebuilding from the trimmed log gives back what was rebuilt from the untrimmed one: the same
   * length and charge, and an index that answers every key alike over the shorter mapping.
   */
  lemma RebuildingIsIdempotent(d: Digests, bytes: Bytes, r: Recovered, again: Recovered)
    requires RebuiltFrom(d, bytes, r)
    requires r.validLen <= |bytes| && RebuiltFrom(d, bytes[..r.validLen], again)
    ensures again.validLen == r.validLen && again.memory == r.memory
    ensures forall key :: Get(again.index, key) == Get(r.index.(bytes := Some(bytes[..r.validLen])), key)
  {
    hide Scan, Represents, Get, Charge;
    RescanAfterTruncation(d, bytes);
    var n, log := r.validLen, bytes[..r.validLen];
    assert log[..n] == log;
    var m := ApplyBatches(Scan(d, bytes).batches);
    assert again.index.(bytes := Some(log)) == again.index;
    forall key: Bytes
      ensures Get(again.index, key) == Get(r.index.(bytes := Some(log)), key)
    {
      GetIsMap(again.index, log, m, key);
      GetIsMap(r.index.(bytes := Some(log)), log, m, key);
    }
  }

  /** What the scan loop returns for these bytes. */
  ghost predicate RebuiltFrom(d: Digests, bytes: Bytes, r: Recovered) {
    && r.Rebuilt? && Scan(d, bytes).Scanned? && Scan(d, bytes).validLen == r.validLen
    && Rebuilds(r.index, bytes, r.validLen, ApplyBatches(Scan(d, bytes).batches), r.memory)
  }
}
