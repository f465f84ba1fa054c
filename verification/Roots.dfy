/** The two root pages: encoding, and selection of the newest valid one. */
module Roots {
  import opened Bytes

  const MAGIC: Bytes := [0x4c, 0x4b, 0x56, 0, 0, 0, 0, 0]
  const FORMAT_VERSION: nat := 1
  const PAGE_SIZE: nat := 4096
  const HEADER_SIZE: nat := 72
  const DATA_START: nat := 8192
  const ENVELOPE_MIN_SIZE: nat := 28

  datatype Superblock = Superblock(
    generation: U64,
    baseOffset: U64,
    baseSize: U64,
    baseSlots: U64,
    baseLen: U64,
    logStart: U64,
    baseChecksum: U32)

  function Envelope(): (r: Bytes)
    ensures |r| == 16
  {
    MAGIC + LittleEndian(FORMAT_VERSION, 4) + LittleEndian(HEADER_SIZE, 4)
  }

  function Three(a: nat, b: nat, c: nat): (r: Bytes)
    ensures |r| == 24
  {
    LittleEndian(a, 8) + LittleEndian(b, 8) + LittleEndian(c, 8)
  }

  /** The part of the header covered by its checksum. */
  function HeaderFields(sb: Superblock): (r: Bytes)
    ensures |r| == 68
  {
    Envelope() + Three(sb.generation, sb.baseOffset, sb.baseSize)
    + Three(sb.baseSlots, sb.baseLen, sb.logStart) + LittleEndian(sb.baseChecksum, 4)
  }

  function EncodePage(d: Digests, sb: Superblock): (r: Bytes)
    ensures |r| == PAGE_SIZE
  {
    HeaderFields(sb) + LittleEndian(d.crc(HeaderFields(sb)), 4) + Zeros(PAGE_SIZE - HEADER_SIZE)
  }

  /** Generation parity picks the page a root is written to. */
  function PageOf(generation: nat): (slot: nat)
    ensures slot == 0 || slot == 1
  {
    generation % 2
  }

  /** What a page says, before its ranges are compared with the file. */
  datatype Root = Invalid | Unsupported(version: U32) | Fields(sb: Superblock)

  /** The version-independent envelope: magic, header size and checksum. */
  predicate ValidEnvelope(d: Digests, page: Bytes)
    requires |page| == PAGE_SIZE
  {
    && page[..8] == MAGIC
    && var headerSize := U32At(page, 12);
    && ENVELOPE_MIN_SIZE <= headerSize <= PAGE_SIZE
    && U32At(page, headerSize - 4) == d.crc(page[..headerSize - 4])
  }

  function ReadRoot(d: Digests, page: Bytes): Root
    requires |page| == PAGE_SIZE
  {
    if !ValidEnvelope(d, page) then Invalid
    else if U32At(page, 8) != FORMAT_VERSION then Unsupported(U32At(page, 8))
    else if U32At(page, 12) != HEADER_SIZE then Invalid
    else Fields(Superblock(U64At(page, 16), U64At(page, 24), U64At(page, 32), U64At(page, 40),
                           U64At(page, 48), U64At(page, 56), U32At(page, 64)))
  }

  /** Whether the ranges a root names lie inside a file of the given length. */
  predicate Fits(sb: Superblock, fileLen: nat) {
    && DATA_START <= sb.baseOffset
    && BASE_HEADER <= sb.baseSize
    && sb.baseOffset + sb.baseSize <= fileLen
    && sb.baseOffset + sb.baseSize < U64_LIMIT
    && sb.baseOffset + sb.baseSize <= sb.logStart <= fileLen
  }

  /** The root in one slot of the file; a page the file is too short for is skipped. */
  function RootAt(d: Digests, file: Bytes, slot: nat): Root
    requires slot < 2
  {
    if (slot + 1) * PAGE_SIZE > |file| then Invalid
    else ReadRoot(d, file[slot * PAGE_SIZE..(slot + 1) * PAGE_SIZE])
  }

  datatype RootResult = Found(sb: Superblock) | NoRoot | NewerFormat(version: U32)

  /** The page names a Base behind the pages and a log start behind the Base, all inside the file. */
  ghost predicate Candidate(d: Digests, file: Bytes, slot: nat, sb: Superblock)
    requires slot < 2
  {
    && RootAt(d, file, slot) == Fields(sb)
    && 8192 <= sb.baseOffset && 24 <= sb.baseSize && sb.baseOffset + sb.baseSize < 0x1_0000_0000_0000_0000
    && sb.baseOffset + sb.baseSize <= sb.logStart <= |file|
  }

  /**
   * What opening is to select, whatever the order of the pages: a newer format in either page refuses
   * the file, else a candidate of highest generation wins.
   */
  ghost predicate Selects(d: Digests, file: Bytes, r: RootResult) {
    match r
    case NewerFormat(version) =>
      RootAt(d, file, 0) == Unsupported(version) || RootAt(d, file, 1) == Unsupported(version)
    case NoRoot =>
      && (forall slot :: 0 <= slot < 2 ==> !RootAt(d, file, slot).Unsupported?)
      && forall slot, sb :: 0 <= slot < 2 ==> !Candidate(d, file, slot, sb)
    case Found(newest) =>
      && (forall slot :: 0 <= slot < 2 ==> !RootAt(d, file, slot).Unsupported?)
      && (Candidate(d, file, 0, newest) || Candidate(d, file, 1, newest))
      && forall slot, sb :: 0 <= slot < 2 && Candidate(d, file, slot, sb) ==> sb.generation <= newest.generation
  }

  /** Reads both pages in order and keeps the newest candidate. */
  method ReadLatest(d: Digests, file: Bytes) returns (r: RootResult)
    ensures Selects(d, file, r)
    ensures r == Latest(d, file)
  {
    hide ReadRoot, Fits;
    LatestIsNewest(d, file);
    var latest: Option<Superblock> := None;
    var unsupported: Option<U32> := None;
    var slot := 0;
    while slot < 2
      invariant 0 <= slot <= 2
      invariant slot == 0 ==> unsupported == None && latest == None
      invariant slot == 1 ==> unsupported == UnsupportedIn(RootAt(d, file, 0), None)
      invariant slot == 1 ==> latest == Newer(RootAt(d, file, 0), |file|, None)
      invariant slot == 2 ==> unsupported == UnsupportedIn(RootAt(d, file, 1), UnsupportedIn(RootAt(d, file, 0), None))
      invariant slot == 2 ==> latest == Newer(RootAt(d, file, 1), |file|, Newer(RootAt(d, file, 0), |file|, None))
    {
      var root := RootAt(d, file, slot);
      match root {
        case Invalid =>
        case Unsupported(version) => unsupported := Some(version);
        case Fields(sb) =>
          if Fits(sb, |file|) && (latest.None? || sb.generation > latest.value.generation) {
            latest := Some(sb);
          }
      }
      slot := slot + 1;
    }
    r := if unsupported.Some? then NewerFormat(unsupported.value)
         else if latest.Some? then Found(latest.value)
         else NoRoot;
  }

  function UnsupportedIn(root: Root, seen: Option<U32>): Option<U32> {
    if root.Unsupported? then Some(root.version) else seen
  }

  function Newer(root: Root, fileLen: nat, latest: Option<Superblock>): Option<Superblock> {
    if root.Fields? && Fits(root.sb, fileLen) && (latest.None? || root.sb.generation > latest.value.generation)
    then Some(root.sb) else latest
  }

  /** The root that opening selects. */
  function Latest(d: Digests, file: Bytes): RootResult {
    var first := RootAt(d, file, 0);
    var second := RootAt(d, file, 1);
    var unsupported := UnsupportedIn(second, UnsupportedIn(first, None));
    var latest := Newer(second, |file|, Newer(first, |file|, None));
    if unsupported.Some? then NewerFormat(unsupported.value)
    else if latest.Some? then Found(latest.value)
    else NoRoot
  }

  /** Selection depends only on what the pages say, not on their order. */
  lemma LatestIsNewest(d: Digests, file: Bytes)
    ensures Selects(d, file, Latest(d, file))
  {
    hide RootAt;
  }

  lemma ThreeSlices(a: nat, b: nat, c: nat)
    ensures Three(a, b, c)[0..8] == LittleEndian(a, 8)
    ensures Three(a, b, c)[8..16] == LittleEndian(b, 8)
    ensures Three(a, b, c)[16..24] == LittleEndian(c, 8)
  {
    hide LittleEndian;
  }

  lemma ThreeReadsBack(s: Bytes, offset: nat, a: U64, b: U64, c: U64)
    requires offset + 24 <= |s| && s[offset..offset + 24] == Three(a, b, c)
    ensures U64At(s, offset) == a && U64At(s, offset + 8) == b && U64At(s, offset + 16) == c
  {
    hide LittleEndian, Three, U64At;
    ThreeSlices(a, b, c);
    SubSlice(s, offset, offset + 24, 0, 8);
    SubSlice(s, offset, offset + 24, 8, 16);
    SubSlice(s, offset, offset + 24, 16, 24);
    U64AtEncoded(s, offset, a);
    U64AtEncoded(s, offset + 8, b);
    U64AtEncoded(s, offset + 16, c);
  }

  lemma PageSlices(d: Digests, sb: Superblock)
    ensures var page := EncodePage(d, sb);
      && page[..16] == Envelope()
      && page[16..40] == Three(sb.generation, sb.baseOffset, sb.baseSize)
      && page[40..64] == Three(sb.baseSlots, sb.baseLen, sb.logStart)
      && page[64..68] == LittleEndian(sb.baseChecksum, 4)
      && page[..68] == HeaderFields(sb)
      && page[68..72] == LittleEndian(d.crc(HeaderFields(sb)), 4)
  {
    hide LittleEndian, Three, Envelope;
  }

  /** A written page reads back as the root that was written. */
  lemma PageReadsBack(d: Digests, sb: Superblock)
    ensures ReadRoot(d, EncodePage(d, sb)) == Fields(sb)
  {
    hide LittleEndian, Three, EncodePage, HeaderFields, U64At, U32At;
    var page := EncodePage(d, sb);
    PageSlices(d, sb);
    assert page[..8] == page[..16][..8] == MAGIC;
    assert page[8..12] == page[..16][8..12] == LittleEndian(FORMAT_VERSION, 4);
    assert page[12..16] == page[..16][12..16] == LittleEndian(HEADER_SIZE, 4);
    U32AtEncoded(page, 8, FORMAT_VERSION);
    U32AtEncoded(page, 12, HEADER_SIZE);
    ThreeReadsBack(page, 16, sb.generation, sb.baseOffset, sb.baseSize);
    ThreeReadsBack(page, 40, sb.baseSlots, sb.baseLen, sb.logStart);
    U32AtEncoded(page, 64, sb.baseChecksum);
    U32AtEncoded(page, 68, d.crc(HeaderFields(sb)));
  }

  // ---------------------------------------------------------- reading any page

  /** The header of a root page, as the writer would produce it. */
  predicate HasHeader(d: Digests, page: Bytes, sb: Superblock) {
    |page| == PAGE_SIZE && page[..68] == HeaderFields(sb) && page[68..72] == LittleEndian(d.crc(page[..68]), 4)
  }

  /** A page reads as a root exactly when it starts with the header of that root. */
  lemma RootIsCanonical(d: Digests, page: Bytes, sb: Superblock)
    requires |page| == PAGE_SIZE
    ensures ReadRoot(d, page) == Fields(sb) <==> HasHeader(d, page, sb)
  {
    hide ReadRoot, HeaderFields, LittleEndian;
    if ReadRoot(d, page).Fields? {
      FieldsAreCanonical(d, page);
    }
    if HasHeader(d, page, sb) {
      PageHeaderReadsBack(d, page, sb);
    }
  }

  lemma FieldsAreCanonical(d: Digests, page: Bytes)
    requires |page| == PAGE_SIZE && ReadRoot(d, page).Fields?
    ensures HasHeader(d, page, ReadRoot(d, page).sb)
  {
    hide LittleEndian, U64At, U32At;
    U32AtCanonical(page, 8);
    U32AtCanonical(page, 12);
    U64AtCanonical(page, 16);
    U64AtCanonical(page, 24);
    U64AtCanonical(page, 32);
    U64AtCanonical(page, 40);
    U64AtCanonical(page, 48);
    U64AtCanonical(page, 56);
    U32AtCanonical(page, 64);
    U32AtCanonical(page, 68);
    assert page[..16] == page[..8] + page[8..12] + page[12..16];
    assert page[16..40] == page[16..24] + page[24..32] + page[32..40];
    assert page[40..64] == page[40..48] + page[48..56] + page[56..64];
    assert page[..68] == page[..16] + page[16..40] + page[40..64] + page[64..68];
  }

  lemma PageHeaderReadsBack(d: Digests, page: Bytes, sb: Superblock)
    requires HasHeader(d, page, sb)
    ensures ReadRoot(d, page) == Fields(sb)
  {
    hide LittleEndian, Three, U64At, U32At;
    var h := HeaderFields(sb);
    assert page[..8] == h[..8] == MAGIC;
    assert page[8..12] == h[8..12] == LittleEndian(FORMAT_VERSION, 4);
    assert page[12..16] == h[12..16] == LittleEndian(HEADER_SIZE, 4);
    assert page[16..40] == h[16..40] == Three(sb.generation, sb.baseOffset, sb.baseSize);
    assert page[40..64] == h[40..64] == Three(sb.baseSlots, sb.baseLen, sb.logStart);
    assert page[64..68] == h[64..68] == LittleEndian(sb.baseChecksum, 4);
    U32AtEncoded(page, 8, FORMAT_VERSION);
    U32AtEncoded(page, 12, HEADER_SIZE);
    ThreeReadsBack(page, 16, sb.generation, sb.baseOffset, sb.baseSize);
    ThreeReadsBack(page, 40, sb.baseSlots, sb.baseLen, sb.logStart);
    U32AtEncoded(page, 64, sb.baseChecksum);
    U32AtEncoded(page, 68, d.crc(page[..68]));
  }

  /** A newer format is recognised by its envelope alone, however long its header is. */
  lemma NewerIsRecognised(d: Digests, page: Bytes, headerSize: nat, version: U32)
    requires |page| == PAGE_SIZE && 28 <= headerSize <= 4096 && version != 1
    requires page[..8] == [0x4c, 0x4b, 0x56, 0, 0, 0, 0, 0] && U32At(page, 8) == version
    requires U32At(page, 12) == headerSize
    ensures ReadRoot(d, page) ==
            if d.crc(page[..headerSize - 4]) == U32At(page, headerSize - 4) then Unsupported(version) else Invalid
  {
    hide U32At, U64At;
  }
}
