/** The append-only Overlay log: record encoding and the recovery scan. */
module Log {
  import opened Bytes

  const HEADER_SIZE: nat := 17
  const HEADER_CHECKSUM_OFFSET: nat := 13
  const OPERATION_HEADER_SIZE: nat := 9
  const MAX_BATCH_OPERATIONS: nat := 1_000_000

  const PUT: Byte := 1
  const DELETE: Byte := 2
  const COMPACT: Byte := 3
  const BATCH: Byte := 4

  datatype Op = Put(key: Bytes, value: Bytes) | Delete(key: Bytes)

  datatype ScanError =
    | HeaderChecksum
    | InvalidMarker
    | CompactChecksum
    | UnexpectedMarker
    | PayloadChecksum
    | MalformedBatch

  datatype ScanResult =
    | Scanned(batches: seq<seq<Op>>, validLen: nat)
    | Rejected(error: ScanError)

  // ---------------------------------------------------------------- writing

  function Tag(op: Op): Byte {
    if op.Put? then PUT else DELETE
  }

  /** The value bytes an operation carries; a deletion carries none. */
  function Carried(op: Op): Bytes {
    if op.Put? then op.value else []
  }

  function OpHeader(tag: Byte, keyLen: nat, valueLen: nat): (r: Bytes)
    ensures |r| == OPERATION_HEADER_SIZE
  {
    [tag] + LittleEndian(keyLen, 4) + LittleEndian(valueLen, 4)
  }

  function OpBytes(op: Op): (r: Bytes)
    ensures |r| == OPERATION_HEADER_SIZE + |op.key| + |Carried(op)|
  {
    OpHeader(Tag(op), |op.key|, |Carried(op)|) + op.key + Carried(op)
  }

  function OpsBytes(ops: seq<Op>): Bytes {
    if ops == [] then [] else OpBytes(ops[0]) + OpsBytes(ops[1..])
  }

  function Payload(ops: seq<Op>): Bytes {
    LittleEndian(|ops|, 4) + OpsBytes(ops)
  }

  function HeaderFields(marker: Byte, keyLen: nat, valueLen: nat, checksum: nat): (r: Bytes)
    ensures |r| == HEADER_CHECKSUM_OFFSET
  {
    [marker] + LittleEndian(keyLen, 4) + LittleEndian(valueLen, 4) + LittleEndian(checksum, 4)
  }

  function RecordHeader(d: Digests, marker: Byte, keyLen: nat, valueLen: nat, checksum: nat): (r: Bytes)
    ensures |r| == HEADER_SIZE
  {
    var fields := HeaderFields(marker, keyLen, valueLen, checksum);
    fields + LittleEndian(d.crc(fields), 4)
  }

  /** The record checksum covers the marker, both lengths and the payload. */
  function RecordChecksum(d: Digests, marker: Byte, keyLen: nat, valueLen: nat, payload: Bytes): U32 {
    d.crc([marker] + LittleEndian(keyLen, 4) + LittleEndian(valueLen, 4) + payload)
  }

  function BatchRecord(d: Digests, ops: seq<Op>): Bytes {
    var payload := Payload(ops);
    RecordHeader(d, BATCH, 0, |payload|, RecordChecksum(d, BATCH, 0, |payload|, payload)) + payload
  }

  function CompactMarker(d: Digests): (r: Bytes)
    ensures |r| == HEADER_SIZE
  {
    RecordHeader(d, COMPACT, 0, 0, RecordChecksum(d, COMPACT, 0, 0, []))
  }

  function LogBytes(d: Digests, batches: seq<seq<Op>>): Bytes {
    if batches == [] then [] else BatchRecord(d, batches[0]) + LogBytes(d, batches[1..])
  }

  predicate Loggable(op: Op) {
    |op.key| <= MAX_KEY_SIZE && |Carried(op)| < U32_LIMIT
  }

  /** What `batch_payload_len` admits, for operations whose lengths were checked when staged. */
  predicate StorableBatch(ops: seq<Op>) {
    && |ops| <= MAX_BATCH_OPERATIONS
    && (forall i :: 0 <= i < |ops| ==> Loggable(ops[i]))
    && |Payload(ops)| < U32_LIMIT
  }

  lemma OpsBytesCons(op: Op, rest: seq<Op>)
    ensures OpsBytes([]) == []
    ensures OpsBytes([op] + rest) == OpBytes(op) + OpsBytes(rest)
  {
    hide OpBytes;
    assert ([op] + rest)[1..] == rest;
  }

  lemma {:induction false} OpsBytesAppend(a: seq<Op>, b: seq<Op>)
    ensures OpsBytes(a + b) == OpsBytes(a) + OpsBytes(b)
  {
    hide OpBytes, OpsBytes;
    if a == [] {
      OpsBytesCons(Delete([]), []);
      assert a + b == b;
    } else {
      OpsBytesAppend(a[1..], b);
      OpsBytesCons(a[0], a[1..]);
      OpsBytesCons(a[0], a[1..] + b);
      assert [a[0]] + a[1..] == a && [a[0]] + (a[1..] + b) == a + b;
      Associative(OpBytes(a[0]), OpsBytes(a[1..]), OpsBytes(b));
    }
  }

  lemma OpsBytesOne(op: Op)
    ensures OpsBytes([op]) == OpBytes(op)
  {
    hide OpBytes;
    OpsBytesCons(op, []);
    assert [op] + [] == [op];
  }

  /** Where operation `i` stands among the encoded operations. */
  lemma OpsBytesAt(ops: seq<Op>, i: nat)
    requires i < |ops|
    ensures var from := |OpsBytes(ops[..i])|;
            && from + |OpBytes(ops[i])| == |OpsBytes(ops[..i + 1])| <= |OpsBytes(ops)|
            && OpsBytes(ops)[from..from + |OpBytes(ops[i])|] == OpBytes(ops[i])
  {
    hide OpBytes, OpsBytes;
    OpsBytesAppend(ops[..i], [ops[i]]);
    OpsBytesAppend(ops[..i + 1], ops[i + 1..]);
    OpsBytesOne(ops[i]);
    assert ops[..i + 1] == ops[..i] + [ops[i]] && ops == ops[..i + 1] + ops[i + 1..];
  }

  lemma LogBytesCons(d: Digests, ops: seq<Op>, rest: seq<seq<Op>>)
    ensures LogBytes(d, []) == []
    ensures LogBytes(d, [ops] + rest) == BatchRecord(d, ops) + LogBytes(d, rest)
  {
    hide BatchRecord;
    assert ([ops] + rest)[1..] == rest;
  }

  lemma {:induction false} LogBytesAppend(d: Digests, a: seq<seq<Op>>, b: seq<seq<Op>>)
    ensures LogBytes(d, a + b) == LogBytes(d, a) + LogBytes(d, b)
  {
    hide BatchRecord, LogBytes;
    if a == [] {
      LogBytesCons(d, [], []);
      assert a + b == b;
    } else {
      LogBytesAppend(d, a[1..], b);
      LogBytesCons(d, a[0], a[1..]);
      LogBytesCons(d, a[0], a[1..] + b);
      assert [a[0]] + a[1..] == a && [a[0]] + (a[1..] + b) == a + b;
      Associative(BatchRecord(d, a[0]), LogBytes(d, a[1..]), LogBytes(d, b));
    }
  }

  /** The length a batch will occupy, or None when it exceeds a format limit. */
  method BatchPayloadLen(ops: seq<Op>) returns (r: Option<U32>)
    ensures r.Some? <==> |ops| <= MAX_BATCH_OPERATIONS && |Payload(ops)| < U32_LIMIT
    ensures r.Some? ==> r.value == |Payload(ops)|
  {
    if |ops| > MAX_BATCH_OPERATIONS {
      return None;
    }
    var len := 4;
    for i := 0 to |ops|
      invariant len == 4 + |OpsBytes(ops[..i])|
    {
      len := len + OPERATION_HEADER_SIZE + |ops[i].key| + |Carried(ops[i])|;
      OpsBytesAt(ops, i);
    }
    assert ops[..|ops|] == ops;
    r := if len < U32_LIMIT then Some(len) else None;
  }

  // --------------------------------------------------------------- scanning

  datatype Decoded = Decoded(op: Op, end: nat)

  /** The operation at the front of `s`, and where it ends. */
  function DecodeOp(s: Bytes): (r: Option<Decoded>)
    ensures r.Some? ==> OPERATION_HEADER_SIZE <= r.value.end <= |s|
  {
    if |s| < OPERATION_HEADER_SIZE then None
    else
      var keyLen := U32At(s, 1);
      var valueLen := U32At(s, 5);
      var keyEnd := OPERATION_HEADER_SIZE + keyLen;
      var end := keyEnd + valueLen;
      if (s[0] != PUT && s[0] != DELETE) || (s[0] == DELETE && valueLen != 0) || keyLen > MAX_KEY_SIZE then None
      else if end > |s| then None
      else
        var key := s[OPERATION_HEADER_SIZE..keyEnd];
        Some(Decoded(if s[0] == PUT then Put(key, s[keyEnd..end]) else Delete(key), end))
  }

  /** Splits `s` into exactly `count` operations, as `apply_batch_payload` does. */
  function DecodeOps(s: Bytes, count: nat): (r: Option<seq<Op>>)
    decreases count
  {
    if count == 0 then
      if s == [] then Some([]) else None
    else
      var first := DecodeOp(s);
      if first.None? then None
      else
        var rest := DecodeOps(s[first.value.end..], count - 1);
        if rest.None? then None else Some([first.value.op] + rest.value)
  }

  function DecodePayload(payload: Bytes): Option<seq<Op>> {
    if |payload| < 4 then None
    else
      var count := U32At(payload, 0);
      if count > MAX_BATCH_OPERATIONS then None else DecodeOps(payload[4..], count)
  }

  datatype Step = Stop | Fail(error: ScanError) | Record(ops: seq<Op>, end: nat)

  /** One turn of the scan loop: what stands at the front of `s`. */
  function ReadRecord(d: Digests, s: Bytes): (r: Step)
    ensures r.Record? ==> HEADER_SIZE <= r.end <= |s|
  {
    if |s| < HEADER_SIZE then Stop
    else if d.crc(s[..HEADER_CHECKSUM_OFFSET]) != U32At(s, HEADER_CHECKSUM_OFFSET) then Fail(HeaderChecksum)
    else
      var marker := s[0];
      var keyLen := U32At(s, 1);
      var valueLen := U32At(s, 5);
      var checksum := U32At(s, 9);
      var end := HEADER_SIZE + keyLen + valueLen;
      if end > |s| then Stop
      else if marker < PUT || marker > BATCH then Fail(InvalidMarker)
      else if marker == COMPACT && keyLen == 0 && valueLen == 0 then
        if checksum == RecordChecksum(d, COMPACT, 0, 0, []) then Stop else Fail(CompactChecksum)
      else if marker != BATCH || keyLen != 0 then Fail(UnexpectedMarker)
      else
        var payload := s[HEADER_SIZE..end];
        if checksum != RecordChecksum(d, BATCH, 0, valueLen, payload) then Fail(PayloadChecksum)
        else
          var ops := DecodePayload(payload);
          if ops.None? then Fail(MalformedBatch) else Record(ops.value, end)
  }

  function Prepend(ops: seq<Op>, len: nat, r: ScanResult): ScanResult {
    match r
    case Rejected(error) => Rejected(error)
    case Scanned(batches, validLen) => Scanned([ops] + batches, len + validLen)
  }

  /** Reads whole batches from the front of `s` until a torn record or a compact marker. */
  function Scan(d: Digests, s: Bytes): ScanResult
    decreases |s|
  {
    match ReadRecord(d, s)
    case Stop => Scanned([], 0)
    case Fail(error) => Rejected(error)
    case Record(ops, end) => Prepend(ops, end, Scan(d, s[end..]))
  }

  /** Bytes at which a scan stops at once without an error. */
  predicate Quiet(d: Digests, tail: Bytes) {
    Scan(d, tail) == Scanned([], 0)
  }

  // -------------------------------------------------------- writer vs. scanner

  lemma DecodeOfOpBytes(op: Op, rest: Bytes)
    requires Loggable(op)
    ensures DecodeOp(OpBytes(op) + rest) == Some(Decoded(op, |OpBytes(op)|))
  {
    hide U32At, LittleEndian;
    var s := OpBytes(op) + rest;
    assert s[1..5] == LittleEndian(|op.key|, 4);
    assert s[5..9] == LittleEndian(|Carried(op)|, 4);
    U32AtEncoded(s, 1, |op.key|);
    U32AtEncoded(s, 5, |Carried(op)|);
    assert s[9..9 + |op.key|] == op.key;
    assert s[9 + |op.key|..|OpBytes(op)|] == Carried(op);
  }

  lemma DecodedOpIsCanonical(s: Bytes)
    requires DecodeOp(s).Some?
    ensures Loggable(DecodeOp(s).value.op)
    ensures OpBytes(DecodeOp(s).value.op) == s[..DecodeOp(s).value.end]
  {
    hide U32At, LittleEndian;
    var Decoded(op, end) := DecodeOp(s).value;
    var keyEnd := OPERATION_HEADER_SIZE + U32At(s, 1);
    U32AtCanonical(s, 1);
    U32AtCanonical(s, 5);
    TwoFields(s);
    assert s[..9] == OpHeader(Tag(op), |op.key|, |Carried(op)|);
    ThreeParts(s, 9, keyEnd, end);
  }

  lemma TwoFields(s: Bytes)
    requires 9 <= |s|
    ensures s[..9] == [s[0]] + s[1..5] + s[5..9]
  {
  }

  lemma ThreeParts(s: Bytes, i: nat, j: nat, k: nat)
    requires i <= j <= k <= |s|
    ensures s[..k] == s[..i] + s[i..j] + s[j..k]
  {
  }

  lemma {:induction false} DecodeOfOpsBytes(ops: seq<Op>)
    requires forall i :: 0 <= i < |ops| ==> Loggable(ops[i])
    ensures DecodeOps(OpsBytes(ops), |ops|) == Some(ops)
  {
    hide OpBytes, DecodeOp;
    if ops != [] {
      DecodeOfOpsBytes(ops[1..]);
      DecodeOfOpBytes(ops[0], OpsBytes(ops[1..]));
      assert OpsBytes(ops)[|OpBytes(ops[0])|..] == OpsBytes(ops[1..]);
      assert [ops[0]] + ops[1..] == ops;
    }
  }

  lemma {:induction false} DecodedOpsAreCanonical(s: Bytes, count: nat)
    requires DecodeOps(s, count).Some?
    ensures var ops := DecodeOps(s, count).value;
            |ops| == count && OpsBytes(ops) == s && forall i :: 0 <= i < |ops| ==> Loggable(ops[i])
    decreases count
  {
    hide OpBytes, DecodeOp, Loggable;
    if count > 0 {
      var ops := DecodeOps(s, count).value;
      var end := DecodeOp(s).value.end;
      DecodedOpsAreCanonical(s[end..], count - 1);
      DecodedOpIsCanonical(s);
      assert ops[1..] == DecodeOps(s[end..], count - 1).value;
      assert s == s[..end] + s[end..];
    }
  }

  lemma DecodeOfPayload(ops: seq<Op>)
    requires StorableBatch(ops)
    ensures DecodePayload(Payload(ops)) == Some(ops)
  {
    var p := Payload(ops);
    assert p[0..4] == LittleEndian(|ops|, 4);
    U32AtEncoded(p, 0, |ops|);
    assert p[4..] == OpsBytes(ops);
    DecodeOfOpsBytes(ops);
  }

  lemma DecodedPayloadIsCanonical(p: Bytes)
    requires DecodePayload(p).Some? && |p| < U32_LIMIT
    ensures Payload(DecodePayload(p).value) == p && StorableBatch(DecodePayload(p).value)
  {
    DecodedOpsAreCanonical(p[4..], U32At(p, 0));
    U32AtCanonical(p, 0);
    assert p == p[0..4] + p[4..];
  }

  lemma HeaderSlices(d: Digests, marker: Byte, keyLen: nat, valueLen: nat, checksum: nat)
    ensures var h, fields := RecordHeader(d, marker, keyLen, valueLen, checksum),
                             HeaderFields(marker, keyLen, valueLen, checksum);
            && h[0] == marker && h[0..13] == fields && h[1..5] == LittleEndian(keyLen, 4)
            && h[5..9] == LittleEndian(valueLen, 4) && h[9..13] == LittleEndian(checksum, 4)
            && h[13..17] == LittleEndian(d.crc(fields), 4)
  {
    hide LittleEndian;
    var h, fields := RecordHeader(d, marker, keyLen, valueLen, checksum),
                     HeaderFields(marker, keyLen, valueLen, checksum);
    assert h[0..13] == fields;
    assert h[1..5] == fields[1..5] && h[5..9] == fields[5..9] && h[9..13] == fields[9..13];
  }

  /** What the scan reads back from the front of any record header. */
  lemma HeaderReadsBack(d: Digests, s: Bytes, marker: Byte, keyLen: U32, valueLen: U32, checksum: U32)
    requires RecordHeader(d, marker, keyLen, valueLen, checksum) <= s
    ensures s[0] == marker && U32At(s, 1) == keyLen && U32At(s, 5) == valueLen && U32At(s, 9) == checksum
    ensures d.crc(s[..HEADER_CHECKSUM_OFFSET]) == U32At(s, HEADER_CHECKSUM_OFFSET)
  {
    hide U32At, LittleEndian, RecordHeader, HeaderFields;
    var fields := HeaderFields(marker, keyLen, valueLen, checksum);
    HeaderSlices(d, marker, keyLen, valueLen, checksum);
    assert s[0..17] == RecordHeader(d, marker, keyLen, valueLen, checksum);
    SubSlice(s, 0, 17, 0, 13);
    SubSlice(s, 0, 17, 1, 5);
    SubSlice(s, 0, 17, 5, 9);
    SubSlice(s, 0, 17, 9, 13);
    SubSlice(s, 0, 17, 13, 17);
    assert s[0] == s[0..17][0] && s[0..13] == s[..13];
    U32AtEncoded(s, 1, keyLen);
    U32AtEncoded(s, 5, valueLen);
    U32AtEncoded(s, 9, checksum);
    U32AtEncoded(s, 13, d.crc(fields));
  }

  /** A header that passes its checksum is the one the writer would produce. */
  lemma HeaderIsCanonical(d: Digests, s: Bytes)
    requires |s| >= HEADER_SIZE
    requires d.crc(s[..HEADER_CHECKSUM_OFFSET]) == U32At(s, HEADER_CHECKSUM_OFFSET)
    ensures s[..HEADER_SIZE] == RecordHeader(d, s[0], U32At(s, 1), U32At(s, 5), U32At(s, 9))
  {
    hide U32At, LittleEndian;
    U32AtCanonical(s, 1);
    U32AtCanonical(s, 5);
    U32AtCanonical(s, 9);
    U32AtCanonical(s, 13);
    TwoFields(s);
    assert s[..13] == s[..9] + s[9..13];
    assert s[..17] == s[..13] + s[13..17];
  }

  lemma ReadOfRecord(d: Digests, ops: seq<Op>, rest: Bytes)
    requires StorableBatch(ops)
    ensures ReadRecord(d, BatchRecord(d, ops) + rest) == Record(ops, |BatchRecord(d, ops)|)
  {
    var p := Payload(ops);
    var s := BatchRecord(d, ops) + rest;
    HeaderReadsBack(d, s, BATCH, 0, |p|, RecordChecksum(d, BATCH, 0, |p|, p));
    assert s[HEADER_SIZE..HEADER_SIZE + |p|] == p;
    DecodeOfPayload(ops);
  }

  lemma ReadRecordIsCanonical(d: Digests, s: Bytes)
    requires ReadRecord(d, s).Record?
    ensures StorableBatch(ReadRecord(d, s).ops)
    ensures BatchRecord(d, ReadRecord(d, s).ops) == s[..ReadRecord(d, s).end]
  {
    hide U32At;
    var end := ReadRecord(d, s).end;
    var payload := s[HEADER_SIZE..end];
    HeaderIsCanonical(d, s);
    DecodedPayloadIsCanonical(payload);
    assert s[..end] == s[..HEADER_SIZE] + payload;
  }

  lemma ScanOfRecord(d: Digests, ops: seq<Op>, rest: Bytes)
    requires StorableBatch(ops)
    ensures Scan(d, BatchRecord(d, ops) + rest) == Prepend(ops, |BatchRecord(d, ops)|, Scan(d, rest))
  {
    hide BatchRecord, ReadRecord, StorableBatch, Prepend;
    ReadOfRecord(d, ops, rest);
    assert (BatchRecord(d, ops) + rest)[|BatchRecord(d, ops)|..] == rest;
  }

  /** Whole batches are read back in order whatever follows them. */
  lemma {:induction false} ScanOfLog(d: Digests, batches: seq<seq<Op>>, rest: Bytes)
    requires forall i :: 0 <= i < |batches| ==> StorableBatch(batches[i])
    ensures Scan(d, LogBytes(d, batches) + rest) ==
            match Scan(d, rest)
            case Rejected(error) => Rejected(error)
            case Scanned(more, validLen) => Scanned(batches + more, |LogBytes(d, batches)| + validLen)
  {
    hide BatchRecord, Scan, StorableBatch;
    if batches == [] {
      assert LogBytes(d, batches) + rest == rest;
      assert Scan(d, rest).Scanned? ==> batches + Scan(d, rest).batches == Scan(d, rest).batches;
    } else {
      ScanOfRecord(d, batches[0], LogBytes(d, batches[1..]) + rest);
      ScanOfLog(d, batches[1..], rest);
      Associative(BatchRecord(d, batches[0]), LogBytes(d, batches[1..]), rest);
      assert Scan(d, rest).Scanned? ==>
          [batches[0]] + (batches[1..] + Scan(d, rest).batches) == batches + Scan(d, rest).batches;
    }
  }

  /** An append cut at any byte short of its end is discarded, never reported as corruption. */
  lemma TornRecordIsQuiet(d: Digests, ops: seq<Op>, cut: nat)
    requires StorableBatch(ops) && cut < |BatchRecord(d, ops)|
    ensures Quiet(d, BatchRecord(d, ops)[..cut])
  {
    var p := Payload(ops);
    var s := BatchRecord(d, ops)[..cut];
    if cut >= HEADER_SIZE {
      HeaderReadsBack(d, s, BATCH, 0, |p|, RecordChecksum(d, BATCH, 0, |p|, p));
    }
  }

  /** A compact marker ends the log whatever bytes follow it. */
  lemma MarkerIsQuiet(d: Digests, junk: Bytes)
    ensures Quiet(d, CompactMarker(d) + junk)
  {
    HeaderReadsBack(d, CompactMarker(d) + junk, COMPACT, 0, 0, RecordChecksum(d, COMPACT, 0, 0, []));
  }

  /** Bytes at which the scan stops stay such bytes however much of their end is cut off. */
  lemma QuietPrefix(d: Digests, tail: Bytes, n: nat)
    requires Quiet(d, tail) && n <= |tail|
    ensures Quiet(d, tail[..n])
  {
    hide Value, RecordChecksum, DecodePayload;
    var s := tail[..n];
    if n >= HEADER_SIZE {
      StopsAtOnce(d, tail);
      assert s[..HEADER_CHECKSUM_OFFSET] == tail[..HEADER_CHECKSUM_OFFSET];
      assert s[13..17] == tail[13..17] && s[1..5] == tail[1..5] && s[5..9] == tail[5..9] && s[9..13] == tail[9..13];
    }
  }

  lemma StopsAtOnce(d: Digests, tail: Bytes)
    requires Quiet(d, tail) && tail != []
    ensures ReadRecord(d, tail).Stop?
  {
    hide ReadRecord;
  }

  /** Every accepted prefix is exactly what the writer produces for the batches read from it. */
  lemma {:induction false} ScanIsCanonical(d: Digests, s: Bytes)
    requires Scan(d, s).Scanned?
    ensures Scan(d, s).validLen <= |s|
    ensures s[..Scan(d, s).validLen] == LogBytes(d, Scan(d, s).batches)
    ensures Quiet(d, s[Scan(d, s).validLen..])
    ensures forall i :: 0 <= i < |Scan(d, s).batches| ==> StorableBatch(Scan(d, s).batches[i])
    decreases |s|
  {
    hide BatchRecord, ReadRecord, StorableBatch;
    var r := Scan(d, s);
    if r.batches == [] {
      assert s[0..] == s;
    } else {
      var end := ReadRecord(d, s).end;
      ScanIsCanonical(d, s[end..]);
      ReadRecordIsCanonical(d, s);
      assert r.batches[1..] == Scan(d, s[end..]).batches;
      assert s[..r.validLen] == s[..end] + s[end..][..r.validLen - end];
      assert s[end..][r.validLen - end..] == s[r.validLen..];
    }
  }

  /** Recovery is idempotent: a scan of the truncated log accepts all of it. */
  lemma RescanAfterTruncation(d: Digests, s: Bytes)
    requires Scan(d, s).Scanned?
    ensures Scan(d, s).validLen <= |s|
    ensures Scan(d, s[..Scan(d, s).validLen]) == Scan(d, s)
  {
    var r := Scan(d, s);
    ScanIsCanonical(d, s);
    ScanOfLog(d, r.batches, []);
    assert LogBytes(d, r.batches) + [] == s[..r.validLen];
    assert r.batches + [] == r.batches;
  }

  // ------------------------------------------------------- what a scan must refuse

  /**
   * The tails a scan may pass over in silence, told from their bytes alone: too short for a header, a
   * sound header whose record does not fit, or a compact marker.
   */
  predicate Ends(d: Digests, tail: Bytes) {
    || |tail| < HEADER_SIZE
    || (d.crc(tail[..13]) == U32At(tail, 13) && HEADER_SIZE + U32At(tail, 1) + U32At(tail, 5) > |tail|)
    || CompactMarker(d) <= tail
  }

  /** The scan stops without an error at exactly these tails: anything else is reported. */
  lemma QuietExactly(d: Digests, tail: Bytes)
    ensures Quiet(d, tail) <==> Ends(d, tail)
  {
    hide U32At, DecodePayload, RecordChecksum;
    if |tail| >= HEADER_SIZE {
      if CompactMarker(d) <= tail {
        MarkerIsQuiet(d, tail[HEADER_SIZE..]);
        assert CompactMarker(d) + tail[HEADER_SIZE..] == tail;
      }
      if Quiet(d, tail) {
        StopsAtOnce(d, tail);
        HeaderIsCanonical(d, tail);
      }
    }
  }

  /** `s` is whole batches and then one of those tails. */
  ghost predicate Splits(d: Digests, s: Bytes, batches: seq<seq<Op>>, tail: Bytes) {
    && s == LogBytes(d, batches) + tail && Ends(d, tail)
    && forall i :: 0 <= i < |batches| ==> StorableBatch(batches[i])
  }

  /** A log is accepted if and only if it is whole batches and such a tail, and then as exactly those. */
  lemma ScanExactly(d: Digests, s: Bytes)
    ensures Scan(d, s).Scanned? <==> exists batches, tail :: Splits(d, s, batches, tail)
    ensures forall batches, tail :: Splits(d, s, batches, tail) ==>
              Scan(d, s) == Scanned(batches, |LogBytes(d, batches)|)
  {
    hide Scan, LogBytes, Ends, StorableBatch;
    if Scan(d, s).Scanned? {
      var r := Scan(d, s);
      ScanIsCanonical(d, s);
      QuietExactly(d, s[r.validLen..]);
      assert s == s[..r.validLen] + s[r.validLen..];
      assert Splits(d, s, r.batches, s[r.validLen..]);
    }
    forall batches, tail | Splits(d, s, batches, tail)
      ensures Scan(d, s) == Scanned(batches, |LogBytes(d, batches)|)
    {
      QuietExactly(d, tail);
      ScanOfLog(d, batches, tail);
      assert batches + [] == batches;
    }
  }

  /** Damage to a record that one of its two checksums notices. */
  predicate Noticeable(d: Digests, record: Bytes, damaged: Bytes) {
    && |damaged| == |record| >= HEADER_SIZE
    && (|| d.crc(damaged[..13]) != U32At(damaged, 13)
        || (damaged[..17] == record[..17] && d.crc(damaged[..9] + damaged[17..]) != U32At(damaged, 9)))
  }

  /** A damaged batch is never passed over: whatever precedes and follows it, the log is refused. */
  lemma DamageIsRejected(d: Digests, before: seq<seq<Op>>, ops: seq<Op>, damaged: Bytes, rest: Bytes)
    requires (forall i :: 0 <= i < |before| ==> StorableBatch(before[i])) && StorableBatch(ops)
    requires Noticeable(d, BatchRecord(d, ops), damaged)
    ensures Scan(d, LogBytes(d, before) + damaged + rest).Rejected?
  {
    hide LogBytes, Scan, StorableBatch, BatchRecord, Noticeable;
    ScanOfLog(d, before, damaged + rest);
    Associative(LogBytes(d, before), damaged, rest);
    DamageIsRead(d, ops, damaged, rest);
    RejectedAtOnce(d, damaged + rest);
  }

  lemma RejectedAtOnce(d: Digests, s: Bytes)
    requires ReadRecord(d, s).Fail?
    ensures Scan(d, s).Rejected?
  {
    hide ReadRecord;
  }

  lemma DamageIsRead(d: Digests, ops: seq<Op>, damaged: Bytes, rest: Bytes)
    requires StorableBatch(ops) && Noticeable(d, BatchRecord(d, ops), damaged)
    ensures ReadRecord(d, damaged + rest).Fail?
  {
    hide U32At, DecodePayload, LittleEndian, OpsBytes;
    var s, p := damaged + rest, Payload(ops);
    assert s[..13] == damaged[..13] && s[13..17] == damaged[13..17];
    SameWord(s, damaged, 13);
    if d.crc(damaged[..13]) == U32At(damaged, 13) {
      var record := BatchRecord(d, ops);
      HeaderReadsBack(d, s, BATCH, 0, |p|, RecordChecksum(d, BATCH, 0, |p|, p));
      assert s[9..13] == damaged[9..13];
      SameWord(s, damaged, 9);
      assert |record| == HEADER_SIZE + |p|;
      assert s[HEADER_SIZE..HEADER_SIZE + |p|] == damaged[17..];
      assert damaged[..9] == damaged[..17][..9] == record[..17][..9];
      assert record[..9] == [BATCH] + LittleEndian(0, 4) + LittleEndian(|p|, 4);
      assert damaged[..9] == [BATCH] + LittleEndian(0, 4) + LittleEndian(|p|, 4);
      assert RecordChecksum(d, BATCH, 0, |p|, damaged[17..]) == d.crc(damaged[..9] + damaged[17..]);
      assert U32At(s, 5) == |p| && s[0] == BATCH && U32At(s, 1) == 0;
    }
  }

  lemma SameWord(s: Bytes, t: Bytes, offset: nat)
    requires offset + 4 <= |s| && offset + 4 <= |t| && s[offset..offset + 4] == t[offset..offset + 4]
    ensures U32At(s, offset) == U32At(t, offset)
  {
  }
}
