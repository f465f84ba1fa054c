/** What opening checks about the bytes of a Base. */
module Layout {
  import opened Bytes
  import opened PowersOfTwo
  import opened Segment
  import opened Lookup

  /** `segment_layout`: the data size, when the footer and the checksum table are intact. */
  function DataLength(d: Digests, m: Bytes): (r: Option<nat>)
    ensures r.Some? ==> SegmentSize(r.value) == |m|
  {
    if |m| < FOOTER_SIZE then None
    else
      var footer := |m| - FOOTER_SIZE;
      var dataSize := U64At(m, footer + 8);
      if m[footer..footer + 4] != CHECKSUM_SECTION_ID then None
      else if U32At(m, footer + 4) != FOOTER_SIZE then None
      else if U32At(m, footer + 16) != BLOCK_SIZE then None
      else if SegmentSize(dataSize) != |m| then None
      else if d.crc(m[dataSize..footer]) != U32At(m, footer + 20) then None
      else Some(dataSize)
  }

  /** `read_base_header`: slot and entry counts. */
  function ReadHeader(data: Bytes): (r: Option<(U64, U64)>)
    ensures r.Some? ==> RecordsStart(r.value.0) <= |data|
  {
    if |data| < BASE_HEADER || data[..4] != HASH_SECTION_ID then None
    else if U32At(data, 4) != BASE_HEADER then None
    else
      var slots := U64At(data, 8);
      if slots != 0 && !IsPowerOfTwo(slots) then None
      else if RecordsStart(slots) > |data| then None
      else Some((slots, U64At(data, 16)))
  }

  /** The stored checksum of block `i`. */
  function StoredChecksum(m: Bytes, dataSize: nat, i: nat): U32
    requires SegmentSize(dataSize) == |m| && i < BlockCount(dataSize)
  {
    U32At(m, dataSize + 4 * i)
  }

  /** `verify_segment_blocks`: every block matches its stored checksum. */
  predicate BlocksMatch(d: Digests, m: Bytes, dataSize: nat)
    requires SegmentSize(dataSize) == |m|
  {
    forall i :: 0 <= i < BlockCount(dataSize) ==> d.crc(Block(m[..dataSize], i)) == StoredChecksum(m, dataSize, i)
  }

  // ----------------------------------------------- a written Base passes every check

  lemma FooterSlices(d: Digests, dataSize: nat, table: Bytes)
    ensures var f := Footer(d, dataSize, table);
            && f[0..4] == CHECKSUM_SECTION_ID
            && f[4..8] == LittleEndian(FOOTER_SIZE, 4)
            && f[8..16] == LittleEndian(dataSize, 8)
            && f[16..20] == LittleEndian(BLOCK_SIZE, 4)
            && f[20..24] == LittleEndian(d.crc(table), 4)
  {
    hide LittleEndian;
    var f := Footer(d, dataSize, table);
    assert f[20..24] == f[20..];
  }

  lemma FooterReadsBack(d: Digests, m: Bytes, at: nat, dataSize: U64, table: Bytes)
    requires at + FOOTER_SIZE == |m| && m[at..] == Footer(d, dataSize, table)
    ensures m[at..at + 4] == CHECKSUM_SECTION_ID
    ensures U32At(m, at + 4) == FOOTER_SIZE
    ensures U64At(m, at + 8) == dataSize
    ensures U32At(m, at + 16) == BLOCK_SIZE
    ensures U32At(m, at + 20) == d.crc(table)
  {
    hide LittleEndian, Footer, U32At, U64At;
    FooterSlices(d, dataSize, table);
    SubSlice(m, at, |m|, 0, 4);
    SubSlice(m, at, |m|, 4, 8);
    SubSlice(m, at, |m|, 8, 16);
    SubSlice(m, at, |m|, 16, 20);
    SubSlice(m, at, |m|, 20, 24);
    U32AtEncoded(m, at + 4, FOOTER_SIZE);
    U64AtEncoded(m, at + 8, dataSize);
    U32AtEncoded(m, at + 16, BLOCK_SIZE);
    U32AtEncoded(m, at + 20, d.crc(table));
  }

  lemma LayoutOfBytes(d: Digests, data: Bytes)
    requires |data| < U64_LIMIT
    ensures DataLength(d, data + Metadata(d, data)) == Some(|data|)
  {
    hide LittleEndian, Footer, U32At, U64At, BlockTable, BlockCount;
    var m := data + Metadata(d, data);
    var table := BlockTable(d, data, BlockCount(|data|));
    var footer := |m| - FOOTER_SIZE;
    assert m[|data|..footer] == table;
    assert m[footer..] == Footer(d, |data|, table);
    FooterReadsBack(d, m, footer, |data|, table);
  }

  lemma {:induction false} BlockTableAt(d: Digests, data: Bytes, n: nat, i: nat)
    requires i < n <= BlockCount(|data|)
    ensures BlockTable(d, data, n)[4 * i..4 * (i + 1)] == LittleEndian(d.crc(Block(data, i)), 4)
  {
    hide LittleEndian, Block, BlockCount;
    if i < n - 1 {
      BlockTableAt(d, data, n - 1, i);
      assert BlockTable(d, data, n)[..4 * (n - 1)] == BlockTable(d, data, n - 1);
      SubSlice(BlockTable(d, data, n), 0, 4 * (n - 1), 4 * i, 4 * (i + 1));
    }
  }

  lemma StoredChecksumOfBytes(d: Digests, data: Bytes, i: nat)
    requires i < BlockCount(|data|)
    ensures StoredChecksum(data + Metadata(d, data), |data|, i) == d.crc(Block(data, i))
  {
    hide LittleEndian, Footer, U32At, Block, BlockTable, BlockCount;
    var m := data + Metadata(d, data);
    var n := BlockCount(|data|);
    BlockTableAt(d, data, n, i);
    assert m[|data|..|data| + 4 * n] == BlockTable(d, data, n);
    SubSlice(m, |data|, |data| + 4 * n, 4 * i, 4 * (i + 1));
    U32AtEncoded(m, |data| + 4 * i, d.crc(Block(data, i)));
  }

  lemma BlocksOfBytes(d: Digests, data: Bytes)
    ensures BlocksMatch(d, data + Metadata(d, data), |data|)
  {
    hide Metadata, Block, BlockCount, StoredChecksum;
    assert (data + Metadata(d, data))[..|data|] == data;
    forall i | 0 <= i < BlockCount(|data|)
      ensures d.crc(Block(data, i)) == StoredChecksum(data + Metadata(d, data), |data|, i)
    {
      StoredChecksumOfBytes(d, data, i);
    }
  }

  lemma HeaderSlices(slots: nat, len: nat)
    ensures var h := HeaderBytes(slots, len);
            && h[0..4] == HASH_SECTION_ID && h[4..8] == LittleEndian(BASE_HEADER, 4)
            && h[8..16] == LittleEndian(slots, 8) && h[16..24] == LittleEndian(len, 8)
  {
    hide LittleEndian;
    var h := HeaderBytes(slots, len);
    var front := HASH_SECTION_ID + LittleEndian(BASE_HEADER, 4);
    assert h == front + LittleEndian(slots, 8) + LittleEndian(len, 8);
    assert h[0..4] == front[0..4] && h[4..8] == front[4..8];
    assert h[16..24] == h[16..];
  }

  lemma HeaderReadsBack(data: Bytes, slots: U64, len: U64)
    requires HeaderBytes(slots, len) <= data
    requires slots == 0 || IsPowerOfTwo(slots)
    requires RecordsStart(slots) <= |data|
    ensures ReadHeader(data) == Some((slots, len))
  {
    hide LittleEndian, U32At, U64At, IsPowerOfTwo, HeaderBytes;
    HeaderSlices(slots, len);
    assert data[0..24] == HeaderBytes(slots, len);
    SubSlice(data, 0, 24, 0, 4);
    SubSlice(data, 0, 24, 4, 8);
    SubSlice(data, 0, 24, 8, 16);
    SubSlice(data, 0, 24, 16, 24);
    U32AtEncoded(data, 4, BASE_HEADER);
    U64AtEncoded(data, 8, slots);
    U64AtEncoded(data, 16, len);
  }

  lemma HeaderOfBase(d: Digests, b: Base)
    requires Valid(d, b)
    ensures |b.entries| < U64_LIMIT
    ensures ReadHeader(Data(d, b)) == Some((|b.owner|, |b.entries|))
  {
    hide IsPowerOfTwo, HeaderBytes, SlotsBytes, RecordsBytes, ReadHeader, Index;
    HeaderReadsBack(Data(d, b), |b.owner|, |b.entries|);
  }

  /** The bytes the builder writes are accepted with the builder's own sizes. */
  lemma WrittenBaseAccepted(d: Digests, b: Base)
    requires Valid(d, b)
    ensures var m := BaseBytes(d, b);
            && DataLength(d, m) == Some(DataSize(b))
            && m[..DataSize(b)] == Data(d, b)
            && m[DataSize(b)..] == Metadata(d, Data(d, b))
            && ReadHeader(Data(d, b)) == Some((|b.owner|, |b.entries|))
            && BlocksMatch(d, m, DataSize(b))
  {
    BaseFits(d, b);
    hide *;
    LayoutOfBytes(d, Data(d, b));
    BlocksOfBytes(d, Data(d, b));
    HeaderOfBase(d, b);
  }

  lemma BaseFits(d: Digests, b: Base)
    requires Valid(d, b)
    ensures |Data(d, b)| == DataSize(b) < U64_LIMIT
    ensures BaseBytes(d, b) == Data(d, b) + Metadata(d, Data(d, b))
    ensures BaseBytes(d, b)[..DataSize(b)] == Data(d, b)
    ensures BaseBytes(d, b)[DataSize(b)..] == Metadata(d, Data(d, b))
  {
  }

  // ------------------------------------------------------------- reading any bytes

  /** The last bytes are a checksum table for `n` bytes of data and the footer that goes with it. */
  predicate HasLayout(d: Digests, m: Bytes, n: nat) {
    && n < U64_LIMIT && SegmentSize(n) == |m|
    && m[|m| - FOOTER_SIZE..] == Footer(d, n, m[n..|m| - FOOTER_SIZE])
  }

  /** A data size is accepted exactly when the bytes end in the table and footer for it. */
  lemma LayoutIsCanonical(d: Digests, m: Bytes, n: nat)
    ensures DataLength(d, m) == Some(n) <==> HasLayout(d, m, n)
  {
    hide LittleEndian, U32At, U64At, SegmentSize;
    if DataLength(d, m) == Some(n) {
      var at := |m| - FOOTER_SIZE;
      DataEnds(m, n);
      U32AtCanonical(m, at + 4);
      U64AtCanonical(m, at + 8);
      U32AtCanonical(m, at + 16);
      U32AtCanonical(m, at + 20);
      Joined(m, at, at + 4, at + 8);
      Joined(m, at, at + 8, at + 16);
      Joined(m, at, at + 16, at + 20);
      Joined(m, at, at + 20, at + 24);
      assert m[at..] == m[at..at + 24];
    }
    if HasLayout(d, m, n) {
      DataEnds(m, n);
      FooterReadsBack(d, m, |m| - FOOTER_SIZE, n, m[n..|m| - FOOTER_SIZE]);
    }
  }

  lemma DataEnds(m: Bytes, n: nat)
    requires SegmentSize(n) == |m|
    ensures n <= |m| - FOOTER_SIZE
  {
  }

  /** A Base header is accepted exactly when it is the header of a table that fits the data. */
  lemma BaseHeaderIsCanonical(data: Bytes, slots: U64, len: U64)
    ensures ReadHeader(data) == Some((slots, len)) <==>
            && HeaderBytes(slots, len) <= data && RecordsStart(slots) <= |data|
            && (slots == 0 || IsPowerOfTwo(slots))
  {
    hide LittleEndian, U32At, U64At, IsPowerOfTwo;
    if ReadHeader(data) == Some((slots, len)) {
      U32AtCanonical(data, 4);
      U64AtCanonical(data, 8);
      U64AtCanonical(data, 16);
      Joined(data, 0, 4, 8);
      Joined(data, 0, 8, 16);
      Joined(data, 0, 16, 24);
      assert data[0..4] == data[..4] && data[0..24] == data[..24];
    }
    if HeaderBytes(slots, len) <= data && RecordsStart(slots) <= |data| && (slots == 0 || IsPowerOfTwo(slots)) {
      HeaderReadsBack(data, slots, len);
    }
  }
}
