/** The file format, field by field and in plain numbers: where every byte stands. */
module Format {
  import opened Bytes
  import opened Log
  import opened Overlay
  import opened Roots
  import opened Segment
  import opened Lookup
  import opened Layout
  import opened Records
  import opened Verifier
  import Transaction

  // ------------------------------------------------------------------- log

  /** A batch record: tag, lengths, both checksums, the operation count, and the operations. */
  lemma RecordFormat(d: Digests, ops: seq<Op>)
    requires StorableBatch(ops)
    ensures var r := BatchRecord(d, ops);
            && |r| == 21 + |OpsBytes(ops)|
            && r[0] == 4 && U32At(r, 1) == 0 && U32At(r, 5) == |r| - 17
            && U32At(r, 9) == d.crc(r[..9] + r[17..]) && U32At(r, 13) == d.crc(r[..13])
            && U32At(r, 17) == |ops| && r[21..] == OpsBytes(ops)
  {
    hide U32At, LittleEndian, OpsBytes;
    var r, p := BatchRecord(d, ops), Payload(ops);
    Log.HeaderReadsBack(d, r, BATCH, 0, |p|, RecordChecksum(d, BATCH, 0, |p|, p));
    assert r[..9] == [BATCH] + LittleEndian(0, 4) + LittleEndian(|p|, 4);
    assert r[17..] == p;
    assert r[17..21] == LittleEndian(|ops|, 4);
    U32AtEncoded(r, 17, |ops|);
  }

  /** A compact marker: the same header with nothing behind it. */
  lemma MarkerFormat(d: Digests)
    ensures var r := CompactMarker(d);
            && |r| == 17 && r[0] == 3 && U32At(r, 1) == 0 && U32At(r, 5) == 0
            && U32At(r, 9) == d.crc(r[..9]) && U32At(r, 13) == d.crc(r[..13])
  {
    hide U32At, LittleEndian;
    var r := CompactMarker(d);
    Log.HeaderReadsBack(d, r, COMPACT, 0, 0, RecordChecksum(d, COMPACT, 0, 0, []));
    assert r[..9] == [COMPACT] + LittleEndian(0, 4) + LittleEndian(0, 4) + [];
  }

  /** An operation: tag, both lengths, key, value. */
  lemma OperationFormat(op: Op)
    requires Loggable(op)
    ensures var r, k := OpBytes(op), |op.key|;
            && r[0] == (if op.Put? then 1 else 2) && U32At(r, 1) == k && U32At(r, 5) == |r| - 9 - k
            && |r| >= 9 + k && r[9..9 + k] == op.key && r[9 + k..] == if op.Put? then op.value else []
  {
    hide U32At, LittleEndian;
    OpSlices(op);
    U32AtEncoded(OpBytes(op), 1, |op.key|);
    U32AtEncoded(OpBytes(op), 5, |Carried(op)|);
  }

  /** What may be staged and logged. */
  lemma Limits(key: Bytes, valueLen: nat, ops: seq<Op>)
    ensures Transaction.Admissible(key, valueLen) <==>
            |key| <= 0x10_0000 && valueLen <= 0xFFFF_FFFF && 13 + |key| + valueLen <= 0xFFFF_FFFF
    ensures StorableBatch(ops) <==>
            && |ops| <= 1_000_000 && |Payload(ops)| <= 0xFFFF_FFFF
            && forall i :: 0 <= i < |ops| ==> |ops[i].key| <= 0x10_0000 && |Carried(ops[i])| <= 0xFFFF_FFFF
  {
    hide Payload;
  }

  // ------------------------------------------------------------------ roots

  /** A root page: magic, version, header size, six fields, two checksums, zeros. */
  lemma PageFormat(d: Digests, sb: Superblock)
    ensures var p := EncodePage(d, sb);
            && |p| == 4096 && p[..8] == [0x4c, 0x4b, 0x56, 0, 0, 0, 0, 0]
            && U32At(p, 8) == 1 && U32At(p, 12) == 72
            && U64At(p, 16) == sb.generation && U64At(p, 24) == sb.baseOffset && U64At(p, 32) == sb.baseSize
            && U64At(p, 40) == sb.baseSlots && U64At(p, 48) == sb.baseLen && U64At(p, 56) == sb.logStart
            && U32At(p, 64) == sb.baseChecksum && U32At(p, 68) == d.crc(p[..68])
            && forall i :: 72 <= i < 4096 ==> p[i] == 0
  {
    hide LittleEndian, Three, EncodePage, Roots.HeaderFields, U64At, U32At;
    var page := EncodePage(d, sb);
    PageSlices(d, sb);
    assert page[..8] == page[..16][..8];
    assert page[8..12] == page[..16][8..12];
    assert page[12..16] == page[..16][12..16];
    U32AtEncoded(page, 8, 1);
    U32AtEncoded(page, 12, 72);
    ThreeReadsBack(page, 16, sb.generation, sb.baseOffset, sb.baseSize);
    ThreeReadsBack(page, 40, sb.baseSlots, sb.baseLen, sb.logStart);
    U32AtEncoded(page, 64, sb.baseChecksum);
    U32AtEncoded(page, 68, d.crc(Roots.HeaderFields(sb)));
    PageRest(d, sb);
  }

  /** Even generations go to the first page and odd ones to the second. */
  lemma PagePlace(generation: nat)
    ensures PageOf(2 * generation) == 0 && PageOf(2 * generation + 1) == 1
  {
  }

  lemma PageRest(d: Digests, sb: Superblock)
    ensures forall i :: 72 <= i < 4096 ==> EncodePage(d, sb)[i] == 0
    ensures EncodePage(d, sb)[..68] == Roots.HeaderFields(sb)
  {
    hide Roots.HeaderFields, LittleEndian;
  }

  // ------------------------------------------------------------------- Base

  /** A Base starts with its name, its header size and its two counts. */
  lemma BaseFormat(d: Digests, b: Base)
    requires Valid(d, b)
    ensures var m := BaseBytes(d, b);
            && |m| >= 24 && m[..4] == [0x48, 0x41, 0x53, 0x48] && U32At(m, 4) == 24
            && U64At(m, 8) == |b.owner| && U64At(m, 16) == |b.entries|
  {
    hide U32At, U64At, LittleEndian, SlotsBytes, RecordsBytes, Metadata, Index, Indexed, Distinct, Size;
    var m, h := BaseBytes(d, b), HeaderBytes(|b.owner|, |b.entries|);
    assert m[..24] == h;
    assert m[4..8] == h[4..8] && m[8..16] == h[8..16] && m[16..24] == h[16..24];
    EntriesFit(d, b);
    U32AtEncoded(m, 4, 24);
    U64AtEncoded(m, 8, |b.owner|);
    U64AtEncoded(m, 16, |b.entries|);
  }

  lemma EntriesFit(d: Digests, b: Base)
    requires Valid(d, b)
    ensures |b.entries| < U64_LIMIT && |b.owner| < U64_LIMIT
  {
    HeaderOfBase(d, b);
  }

  /** Slots of twelve bytes: the upper half of the hash and the absolute offset of the record; zeros if free. */
  lemma SlotFormat(d: Digests, b: Base, s: nat)
    requires Valid(d, b) && s < |b.owner|
    ensures var m, at := BaseBytes(d, b), 24 + 12 * s;
            && at + 12 <= |m|
            && match b.owner[s]
               case None => U32At(m, at) == 0 && U64At(m, at + 4) == 0
               case Some(i) =>
                 && i < |b.entries|
                 && U32At(m, at) == d.hash(b.entries[i].key) / 0x1_0000_0000
                 && U64At(m, at + 4) == b.start + RecordOffset(b.entries, |b.owner|, i)
  {
    hide U32At, U64At, BaseBytes, Valid, SlotIn, RecordOffset, DataSize;
    SlotOfBase(d, b, s);
    BaseFacts(d, b);
    SlotInData(b, s);
    if b.owner[s].Some? {
      OwnerInRange(d, b, s);
    } else {
      FreeSlot(d, b, s);
    }
  }

  lemma FreeSlot(d: Digests, b: Base, s: nat)
    requires Valid(d, b) && s < |b.owner| && b.owner[s].None?
    ensures SlotIn(d, b, s) == Slot(0, 0)
  {
    hide Valid;
  }

  /** Records stand one behind the other after the slots: both lengths, key, value. */
  lemma RecordPlaces(d: Digests, b: Base, i: nat)
    requires Valid(d, b) && i < |b.entries|
    ensures RecordOffset(b.entries, |b.owner|, 0) == 24 + 12 * |b.owner|
    ensures var m, e, at := BaseBytes(d, b), b.entries[i], RecordOffset(b.entries, |b.owner|, i);
            var end := at + 8 + |e.key| + |e.value|;
            && RecordOffset(b.entries, |b.owner|, i + 1) == end <= DataSize(b) <= |m|
            && U32At(m, at) == |e.key| && U32At(m, at + 4) == |e.value|
            && m[at + 8..at + 8 + |e.key|] == e.key && m[at + 8 + |e.key|..end] == e.value
    ensures i + 1 == |b.entries| ==> RecordOffset(b.entries, |b.owner|, i + 1) == DataSize(b)
  {
    hide *;
    RecordOfBase(d, b, i);
    BaseFacts(d, b);
    RecordReadsBack(BaseBytes(d, b), RecordOffset(b.entries, |b.owner|, i), b.entries[i]);
    RecordsSpan(b);
  }

  lemma RecordsSpan(b: Base)
    ensures RecordOffset(b.entries, |b.owner|, 0) == 24 + 12 * |b.owner|
    ensures RecordOffset(b.entries, |b.owner|, |b.entries|) == DataSize(b)
  {
    assert b.entries[..|b.entries|] == b.entries;
    assert RecordsBytes(b.entries[..0]) == [];
  }

  /** Behind the data: one checksum for every 65536 bytes or part of them, and a footer about the table. */
  lemma ChecksumFormat(d: Digests, data: Bytes, i: nat)
    requires |data| < U64_LIMIT && 65536 * i < |data|
    ensures var m, end := data + Metadata(d, data), if 65536 * (i + 1) <= |data| then 65536 * (i + 1) else |data|;
            && |data| + 4 * i + 4 <= |m| && U32At(m, |data| + 4 * i) == d.crc(data[65536 * i..end])
    ensures var m := data + Metadata(d, data);
            var at := |m| - 24;
            && at == |data| + 4 * BlockCount(|data|)
            && m[at..at + 4] == [0x43, 0x52, 0x43, 0x33] && U32At(m, at + 4) == 24 && U64At(m, at + 8) == |data|
            && U32At(m, at + 16) == 65536 && U32At(m, at + 20) == d.crc(m[|data|..at])
  {
    hide LittleEndian, Footer, U32At, U64At, BlockTable;
    var m := data + Metadata(d, data);
    var table, at := BlockTable(d, data, BlockCount(|data|)), |m| - 24;
    assert m[|data|..at] == table;
    assert m[at..] == Footer(d, |data|, table);
    FooterReadsBack(d, m, at, |data|, table);
    StoredChecksumOfBytes(d, data, i);
  }
}
