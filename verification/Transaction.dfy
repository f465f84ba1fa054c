/** Write transactions: staging, cached value checksums, and the record checksum computed from them. */
module Transaction {
  import opened Bytes
  import opened Log
  import opened Overlay
  import opened Crc32c
  import opened Images
  import opened Lookup
  import opened Database
  import opened Verifier
  import opened Device
  import opened CrashSafety
  import opened Storage
  import Visible
  import Segment

  const VALUE_COPY_CHUNK_SIZE: nat := 256 * 1024

  /** The digests with CRC32C as the checksum and any hash function. */
  function Castagnoli(hash: Bytes -> U64): Digests {
    Digests(data => Checksum(data) as int, hash)
  }

  // -------------------------------------------------------- the record checksum

  /** The bytes a batch record's checksum covers, up to the first `n` operations. */
  function Covered(ops: seq<Op>, payloadLen: nat, n: nat): Bytes
    requires n <= |ops|
  {
    [BATCH] + LittleEndian(0, 4) + LittleEndian(payloadLen, 4) + (LittleEndian(|ops|, 4) + OpsBytes(ops[..n]))
  }

  /** Every cached checksum is that of the value staged under the key. */
  ghost predicate CacheHolds(ops: seq<Op>, cache: map<Bytes, bv32>) {
    forall i :: 0 <= i < |ops| && ops[i].Put? && ops[i].key in cache ==> cache[ops[i].key] == Checksum(ops[i].value)
  }

  /** One more operation: its header, its key, and its value or the cached checksum of the value. */
  method AppendOp(checksum: bv32, op: Op, cache: map<Bytes, bv32>, ghost before: Bytes) returns (r: bv32)
    requires checksum == Checksum(before)
    requires op.Put? && op.key in cache ==> cache[op.key] == Checksum(op.value)
    ensures r == Checksum(before + OpBytes(op))
  {
    hide Append, LittleEndian;
    var key, value := op.key, Carried(op);
    r := Append(checksum, [Tag(op)]);
    AppendConcat(0, before, [Tag(op)]);
    r := Append(r, LittleEndian(|key|, 4));
    AppendConcat(0, before + [Tag(op)], LittleEndian(|key|, 4));
    r := Append(r, LittleEndian(|value|, 4));
    AppendConcat(0, before + [Tag(op)] + LittleEndian(|key|, 4), LittleEndian(|value|, 4));
    r := Append(r, key);
    ghost var upToKey := before + [Tag(op)] + LittleEndian(|key|, 4) + LittleEndian(|value|, 4);
    AppendConcat(0, upToKey, key);
    AppendConcat(0, upToKey + key, value);
    assert upToKey + key + value == before + OpBytes(op);
    if op.Put? {
      if key in cache {
        CombineIsAppend(r, value);
        r := Combine(r, cache[key], |value|);
      } else {
        r := Append(r, value);
      }
    } else {
      AppendNothing(r);
    }
  }

  lemma AppendNothing(c: bv32)
    ensures Append(c, []) == c
  {
    XorCancels(c, ONES);
  }

  /** `batch_record_checksum`: with or without cached checksums, it is the checksum recovery recomputes. */
  method BatchRecordChecksum(hash: Bytes -> U64, ops: seq<Op>, cache: map<Bytes, bv32>, payloadLen: U32)
    returns (checksum: bv32)
    requires payloadLen == |Payload(ops)| && CacheHolds(ops, cache)
    ensures checksum as int == RecordChecksum(Castagnoli(hash), BATCH, 0, payloadLen, Payload(ops))
  {
    hide Append, LittleEndian, OpBytes, OpsBytes;
    checksum := Append(0, [BATCH]);
    checksum := Append(checksum, LittleEndian(0, 4));
    AppendConcat(0, [BATCH], LittleEndian(0, 4));
    checksum := Append(checksum, LittleEndian(payloadLen, 4));
    AppendConcat(0, [BATCH] + LittleEndian(0, 4), LittleEndian(payloadLen, 4));
    ghost var front := [BATCH] + LittleEndian(0, 4) + LittleEndian(payloadLen, 4);
    AppendNothing(checksum);
    checksum := Append(Append(checksum, []), []);
    checksum := Append(checksum, LittleEndian(|ops|, 4));
    AppendConcat(0, front, LittleEndian(|ops|, 4));
    NoneCovered(ops, payloadLen);
    for i := 0 to |ops|
      invariant checksum == Checksum(Covered(ops, payloadLen, i))
    {
      CoverOne(ops, payloadLen, i);
      checksum := AppendOp(checksum, ops[i], cache, Covered(ops, payloadLen, i));
    }
    assert ops[..|ops|] == ops;
  }

  lemma NoneCovered(ops: seq<Op>, payloadLen: nat)
    ensures Covered(ops, payloadLen, 0)
            == [BATCH] + LittleEndian(0, 4) + LittleEndian(payloadLen, 4) + LittleEndian(|ops|, 4)
  {
    hide LittleEndian;
    OpsBytesCons(Delete([]), []);
    assert LittleEndian(|ops|, 4) + OpsBytes(ops[..0]) == LittleEndian(|ops|, 4);
  }

  lemma CoverOne(ops: seq<Op>, payloadLen: nat, n: nat)
    requires n < |ops|
    ensures Covered(ops, payloadLen, n + 1) == Covered(ops, payloadLen, n) + OpBytes(ops[n])
  {
    hide LittleEndian, OpBytes, OpsBytes;
    OpsBytesAppend(ops[..n], [ops[n]]);
    OpsBytesOne(ops[n]);
    assert ops[..n + 1] == ops[..n] + [ops[n]];
  }

  // ------------------------------------------------------------ values being written

  /** A reservation of an exact length that is filled by successive writes. */
  class ReservedValue {
    const bytes: array<Byte>
    var position: nat
    var checksum: Option<bv32>

    ghost predicate Valid()
      reads this, bytes
    {
      && position <= bytes.Length
      && (checksum.Some? ==> checksum.value == Checksum(bytes[..position]))
    }

    constructor (bytes: array<Byte>, withChecksum: bool)
      ensures this.bytes == bytes && position == 0 && Valid() && checksum.Some? == withChecksum
    {
      this.bytes, position := bytes, 0;
      checksum := if withChecksum then Some(0) else None;
      new;
      AppendNothing(0);
      assert bytes[..0] == [];
    }

    /** Takes the whole input, or refuses it without effect when it does not fit. */
    method Write(input: Bytes) returns (r: Option<nat>)
      requires Valid()
      modifies this, bytes
      ensures Valid() && (checksum.Some? <==> old(checksum).Some?)
      ensures r.Some? <==> old(position) + |input| <= bytes.Length
      ensures r.Some? ==> r.value == |input| && position == old(position) + |input|
      ensures r.Some? ==> bytes[..position] == old(bytes[..position]) + input
      ensures r.None? ==> position == old(position) && bytes[..] == old(bytes[..])
    {
      hide Append;
      if input == [] {
        return Some(0);
      }
      var remaining := if bytes.Length < position then 0 else bytes.Length - position;
      if |input| > remaining {
        return None;
      }
      ghost var before := bytes[..position];
      for k := 0 to |input|
        invariant bytes[..position + k] == before + input[..k]
        modifies bytes
      {
        bytes[position + k] := input[k];
        assert bytes[..position + k + 1] == bytes[..position + k] + [input[k]];
      }
      assert input[..|input|] == input;
      if checksum.Some? {
        AppendConcat(0, before, input);
        checksum := Some(Append(checksum.value, input));
      }
      position := position + |input|;
      r := Some(|input|);
    }
  }

  /** Copies a value chunk by chunk and checksums it on the way. */
  method CopyValue(value: Bytes) returns (copy: Bytes, checksum: bv32)
    ensures copy == value && checksum == Checksum(value)
  {
    hide Append;
    copy, checksum := [], 0;
    AppendNothing(0);
    var at := 0;
    while at < |value|
      invariant 0 <= at <= |value|
      invariant copy == value[..at] && checksum == Checksum(value[..at])
    {
      var end := if at + VALUE_COPY_CHUNK_SIZE <= |value| then at + VALUE_COPY_CHUNK_SIZE else |value|;
      var chunk := value[at..end];
      AppendConcat(0, value[..at], chunk);
      assert value[..at] + chunk == value[..end];
      copy, checksum := copy + chunk, Append(checksum, chunk);
      at := end;
    }
  }

  /** What successive writes leave in a reservation: each is taken whole if it fits, and refused otherwise. */
  function Taken(chunks: seq<Bytes>, room: nat): (taken: Bytes)
    ensures |taken| <= room
  {
    if chunks == [] then []
    else
      var before, last := Taken(chunks[..|chunks| - 1], room), chunks[|chunks| - 1];
      if |before| + |last| <= room then before + last else before
  }

  /** None of the writes is refused. */
  predicate AllTaken(chunks: seq<Bytes>, room: nat) {
    forall i :: 0 <= i < |chunks| ==> |Taken(chunks[..i], room)| + |chunks[i]| <= room
  }

  // ----------------------------------------------------------------- staging

  /** What the length checks of `put`, `put_reserved` and `delete` admit. */
  predicate Admissible(key: Bytes, valueLen: nat) {
    |key| <= MAX_KEY_SIZE && valueLen < U32_LIMIT && 4 + OPERATION_HEADER_SIZE + |key| + valueLen < U32_LIMIT
  }

  class WriteTransaction {
    const inMemory: bool
    var staged: map<Bytes, Change>
    var checksums: map<Bytes, bv32>

    /** Large values of a file database have a cached checksum, and every cached checksum is right. */
    ghost predicate Valid()
      reads this
    {
      && (forall k :: k in staged ==> Loggable(OpOf(k, staged[k])))
      && (forall k :: k in checksums ==> k in staged && staged[k].Some? && checksums[k] == Checksum(staged[k].value))
      && (forall k :: k in staged && staged[k].Some? && Cached(|staged[k].value|) ==> k in checksums)
    }

    predicate Cached(valueLen: nat) {
      valueLen >= MAPPED_VALUE_THRESHOLD && !inMemory
    }

    constructor (inMemory: bool)
      ensures Valid() && staged == map[] && this.inMemory == inMemory
    {
      this.inMemory, staged, checksums := inMemory, map[], map[];
    }

    /** Records a value and its cached checksum, replacing whatever was cached for the key. */
    method Stage(key: Bytes, value: Bytes, checksum: Option<bv32>)
      requires Valid() && Admissible(key, |value|)
      requires checksum.Some? <==> Cached(|value|)
      requires checksum.Some? ==> checksum.value == Checksum(value)
      modifies this
      ensures Valid() && staged == old(staged)[key := Some(value)]
    {
      hide Append;
      if checksum.Some? {
        checksums := checksums[key := checksum.value];
      } else {
        checksums := checksums - {key};
      }
      staged := staged[key := Some(value)];
    }

    method Put(key: Bytes, value: Bytes) returns (ok: bool)
      requires Valid()
      modifies this
      ensures Valid() && (ok <==> Admissible(key, |value|))
      ensures staged == if ok then old(staged)[key := Some(value)] else old(staged)
    {
      hide Append;
      if !Admissible(key, |value|) {
        return false;
      }
      if Cached(|value|) {
        var copy, checksum := CopyValue(value);
        Stage(key, copy, Some(checksum));
      } else {
        Stage(key, value, None);
      }
      ok := true;
    }

    /**
     * Reserves `valueLen` bytes and lets the caller fill them with successive writes. A careful caller
     * passes a refused write on as its own failure; any other carries on. `fails` is the caller's verdict.
     */
    method PutReserved(key: Bytes, valueLen: nat, chunks: seq<Bytes>, careful: bool, fails: bool) returns (ok: bool)
      requires Valid()
      modifies this
      ensures Valid()
      ensures ok <==>
                Admissible(key, valueLen) && !fails && (careful ==> AllTaken(chunks, valueLen)) &&
                |Taken(chunks, valueLen)| == valueLen
      ensures staged == if ok then old(staged)[key := Some(Taken(chunks, valueLen))] else old(staged)
    {
      hide Append, Taken;
      if !Admissible(key, valueLen) {
        return false;
      }
      var bytes := new Byte[valueLen](_ => 0);
      var reserved := new ReservedValue(bytes, Cached(valueLen));
      NoneTaken(chunks, valueLen);
      for i := 0 to |chunks|
        invariant reserved.Valid() && (reserved.checksum.Some? <==> Cached(valueLen))
        invariant reserved.bytes == bytes && bytes.Length == valueLen
        invariant bytes[..reserved.position] == Taken(chunks[..i], valueLen)
        invariant careful ==> forall j :: 0 <= j < i ==> |Taken(chunks[..j], valueLen)| + |chunks[j]| <= valueLen
        invariant fresh(reserved) && fresh(bytes)
        modifies reserved, bytes
      {
        ghost var whole, position := bytes[..], reserved.position;
        var written := reserved.Write(chunks[i]);
        TakeNext(chunks, i, valueLen);
        if written.None? {
          assert bytes[..position] == whole[..position];
          if careful {
            return false;
          }
        }
      }
      assert chunks[..|chunks|] == chunks;
      if fails || reserved.position != bytes.Length {
        return false;
      }
      assert bytes[..] == bytes[..reserved.position];
      Stage(key, bytes[..], reserved.checksum);
      ok := true;
    }

    method Delete(key: Bytes) returns (ok: bool)
      requires Valid()
      modifies this
      ensures Valid() && (ok <==> |key| <= MAX_KEY_SIZE)
      ensures staged == if ok then old(staged)[key := None] else old(staged)
    {
      hide Append;
      if |key| > MAX_KEY_SIZE {
        return false;
      }
      checksums := checksums - {key};
      staged := staged[key := None];
      ok := true;
    }
  }

  lemma NoneTaken(chunks: seq<Bytes>, room: nat)
    ensures Taken(chunks[..0], room) == []
  {
  }

  lemma TakeNext(chunks: seq<Bytes>, i: nat, room: nat)
    requires i < |chunks|
    ensures var before := Taken(chunks[..i], room);
            Taken(chunks[..i + 1], room) == if |before| + |chunks[i]| <= room then before + chunks[i] else before
  {
    assert chunks[..i + 1][..i] == chunks[..i];
  }

  // -------------------------------------------------------------- committing

  /** The operations are the staged changes, each once, in some order. */
  ghost predicate Enumerates(ops: seq<Op>, staged: map<Bytes, Change>) {
    && DistinctKeys(ops)
    && (forall i :: 0 <= i < |ops| ==> ops[i].key in staged && ops[i] == OpOf(ops[i].key, staged[ops[i].key]))
    && (forall k :: k in staged ==> Mentions(ops, k))
  }

  ghost predicate Mentions(ops: seq<Op>, key: Bytes) {
    exists i :: 0 <= i < |ops| && ops[i].key == key
  }

  /** Iteration over the staging map, in whatever order the map has. */
  method Enumerate(staged: map<Bytes, Change>) returns (ops: seq<Op>)
    ensures Enumerates(ops, staged)
  {
    ops := [];
    var left := staged.Keys;
    while left != {}
      invariant left <= staged.Keys
      invariant DistinctKeys(ops)
      invariant forall i :: 0 <= i < |ops| ==>
                  ops[i].key in staged && ops[i].key !in left && ops[i] == OpOf(ops[i].key, staged[ops[i].key])
      invariant forall k :: k in staged && k !in left ==> Mentions(ops, k)
      decreases left
    {
      var key :| key in left;
      var op := OpOf(key, staged[key]);
      MentionsMore(ops, op);
      ops := ops + [op];
      left := left - {key};
    }
  }

  lemma MentionsMore(ops: seq<Op>, op: Op)
    ensures Mentions(ops + [op], op.key)
    ensures forall k :: Mentions(ops, k) ==> Mentions(ops + [op], k)
  {
    assert (ops + [op])[|ops|].key == op.key;
    forall k | Mentions(ops, k)
      ensures Mentions(ops + [op], k)
    {
      var i :| 0 <= i < |ops| && ops[i].key == k;
      assert (ops + [op])[i].key == k;
    }
  }

  /** What a batch with distinct keys leaves under one key. */
  lemma {:induction false} UpdatedAt(m: map<Bytes, Bytes>, ops: seq<Op>, key: Bytes)
    requires DistinctKeys(ops)
    ensures forall i :: 0 <= i < |ops| && ops[i].key == key ==> MapGet(Updated(m, ops), key) == ChangeOf(ops[i])
    ensures !Mentions(ops, key) ==> MapGet(Updated(m, ops), key) == MapGet(m, key)
  {
    if ops != [] {
      var n := |ops| - 1;
      UpdatedAt(m, ops[..n], key);
      assert ops[..n] + [ops[n]] == ops;
      MentionsMore(ops[..n], ops[n]);
      assert forall i :: 0 <= i < n ==> ops[..n][i] == ops[i];
    }
  }

  lemma StagedAt(m: map<Bytes, Bytes>, ops: seq<Op>, staged: map<Bytes, Change>, key: Bytes)
    requires Enumerates(ops, staged)
    ensures MapGet(Updated(m, ops), key) == MapGet(Overlaid(m, staged), key)
  {
    hide Updated, Overlaid;
    UpdatedAt(m, ops, key);
    AnswerIsOverlaid(m, staged, key);
    if key in staged {
      assert Mentions(ops, key);
      var i :| 0 <= i < |ops| && ops[i].key == key;
    }
  }

  /** The order in which the staging map is iterated does not matter. */
  lemma OrderIsIrrelevant(m: map<Bytes, Bytes>, ops: seq<Op>, staged: map<Bytes, Change>)
    requires Enumerates(ops, staged)
    ensures Updated(m, ops) == Overlaid(m, staged)
  {
    hide Updated, Overlaid, Enumerates;
    forall k: Bytes
      ensures MapGet(Updated(m, ops), k) == MapGet(Overlaid(m, staged), k)
    {
      StagedAt(m, ops, staged, k);
    }
    SameMaps(Updated(m, ops), Overlaid(m, staged));
  }

  lemma SameMaps(a: map<Bytes, Bytes>, b: map<Bytes, Bytes>)
    requires forall k :: MapGet(a, k) == MapGet(b, k)
    ensures a == b
  {
    forall k: Bytes
      ensures k in a <==> k in b
      ensures k in a ==> k in b && a[k] == b[k]
    {
      assert MapGet(a, k) == MapGet(b, k);
    }
  }

  /** `write_batch_record_inner`: the bytes are those of the record, whatever checksums were cached. */
  method EncodeBatch(hash: Bytes -> U64, ops: seq<Op>, cache: map<Bytes, bv32>) returns (r: Option<Bytes>)
    requires CacheHolds(ops, cache)
    ensures r.Some? <==> |ops| <= MAX_BATCH_OPERATIONS && |Payload(ops)| < U32_LIMIT
    ensures r.Some? ==> r.value == BatchRecord(Castagnoli(hash), ops)
  {
    hide LittleEndian, OpBytes, OpsBytes, Castagnoli, RecordHeader, RecordChecksum, CacheHolds;
    var payloadLen := BatchPayloadLen(ops);
    if payloadLen.None? {
      return None;
    }
    var checksum := BatchRecordChecksum(hash, ops, cache, payloadLen.value);
    ChecksumFits(checksum);
    var header := RecordHeader(Castagnoli(hash), BATCH, 0, payloadLen.value, checksum as int);
    var payload := LittleEndian(|ops|, 4);
    OpsBytesCons(Log.Delete([]), []);
    for i := 0 to |ops|
      invariant payload == LittleEndian(|ops|, 4) + OpsBytes(ops[..i])
    {
      OpsBytesAppend(ops[..i], [ops[i]]);
      OpsBytesOne(ops[i]);
      assert ops[..i + 1] == ops[..i] + [ops[i]];
      payload := payload + OpBytes(ops[i]);
    }
    assert ops[..|ops|] == ops;
    r := Some(header + payload);
  }

  lemma ChecksumFits(checksum: bv32)
    ensures 0 <= checksum as int < U32_LIMIT
  {
  }

  /** A staged batch is ready to be committed with the checksums cached for it. */
  lemma StagedIsCommittable(staged: map<Bytes, Change>, checksums: map<Bytes, bv32>, ops: seq<Op>)
    requires Enumerates(ops, staged)
    requires forall k :: k in staged ==> Loggable(OpOf(k, staged[k]))
    requires forall k :: k in checksums ==> k in staged && staged[k].Some? && checksums[k] == Checksum(staged[k].value)
    ensures Staged(ops) && CacheHolds(ops, checksums)
  {
    hide Append, Mentions;
  }

  /** Reads the staged change first, then the database: a transaction sees its own writes. */
  method ReadThrough(tx: WriteTransaction, h: Handle, key: Bytes, onRead: bool, verifier: SegmentVerifier)
    returns (r: Option<ReadResult>)
    requires h.Valid() && verifier.dataSize == Segment.DataSize(h.content.base) && verifier.Valid(h.d, h.mapping)
    modifies verifier
    ensures h.state != Unavailable ==> r == Some(Answered(MapGet(Overlaid(h.Contents(), tx.staged), key)))
  {
    hide Meaning, Overlaid, Serves, Ready, Settled, BackedBy, Image;
    AnswerIsOverlaid(h.Contents(), tx.staged, key);
    if key in tx.staged {
      return Some(Answered(tx.staged[key]));
    }
    r := h.Get(key, onRead, verifier);
  }

  /**
   * Commits everything staged as one record, encoded with the cached checksums; the map becomes the
   * old one with all staged changes, or stays. What is appended is what recovery reads back.
   */
  method CommitTransaction(tx: WriteTransaction, h: Handle, hash: Bytes -> U64)
    returns (r: Result, ghost ops: seq<Op>)
    requires tx.Valid() && h.Valid() && h.d == Castagnoli(hash)
    modifies h`state, h`content, h.file, h.overlay
    ensures h.Valid()
    ensures r.Ok? ==> h.Contents() == Overlaid(old(h.Contents()), tx.staged)
    ensures r.Err? ==> h.Contents() == old(h.Contents())
    ensures Enumerates(ops, tx.staged)
    ensures if old(h.state) == Healthy then r == Err(Io) || r == Verdict(ops, old(h.file.Length()), h.maxBytes)
            else r == Err(Poisoned)
    ensures r == Err(Io) ==> Fault(h.file.plan, old(h.file.clock), h.file.clock)
  {
    hide Meaning, Overlaid, Serves, Ready, Settled, BackedBy, Standing, Told, Image, Updated, Append, Throughout,
         Enumerates, Castagnoli, BatchRecord, Payload, CacheHolds, Staged;
    var batch := Enumerate(tx.staged);
    ops := batch;
    StagedIsCommittable(tx.staged, tx.checksums, batch);
    var record := EncodeBatch(hash, batch, tx.checksums);
    ghost var before := h.content;
    r := h.CommitWith(batch, if record.Some? then record.value else []);
    OrderIsIrrelevant(Meaning(before), ops, tx.staged);
    Visible.BatchMeaning(before, ops);
    Visible.NoBatch(Meaning(before), ops);
  }
}
