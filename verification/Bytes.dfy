/** Bytes, little-endian integers and the two digests used by the file format. */
module Bytes {

  type Byte = b: int | 0 <= b < 256
  type Bytes = seq<Byte>

  const U32_LIMIT: int := 0x1_0000_0000
  const U64_LIMIT: int := 0x1_0000_0000_0000_0000

  /** Format constants that several sections of the file share. */
  const MAX_KEY_SIZE: nat := 1024 * 1024
  const BASE_HEADER: nat := 24

  type U32 = n: int | 0 <= n < U32_LIMIT
  type U64 = n: int | 0 <= n < U64_LIMIT

  /** CRC32C and XXH3-64. Every property holds for any two functions of these types. */
  datatype Digests = Digests(crc: Bytes -> U32, hash: Bytes -> U64)

  datatype Option<+T> = None | Some(value: T)

  /** The low `width` bytes of `n`, least significant byte first. */
  function LittleEndian(n: nat, width: nat): (r: Bytes)
    ensures |r| == width
    decreases width
  {
    if width == 0 then [] else [n % 256] + LittleEndian(n / 256, width - 1)
  }

  /** The integer a little-endian byte string stands for. */
  function Value(s: Bytes): nat {
    if s == [] then 0 else s[0] + 256 * Value(s[1..])
  }

  function Pow256(width: nat): (p: nat)
    ensures p > 0
  {
    if width == 0 then 1 else 256 * Pow256(width - 1)
  }

  /** Decoding undoes encoding for every integer that fits the width. */
  lemma {:induction false} ValueOfLittleEndian(n: nat, width: nat)
    requires n < Pow256(width)
    ensures Value(LittleEndian(n, width)) == n
    decreases width
  {
    if width > 0 {
      ValueOfLittleEndian(n / 256, width - 1);
      assert LittleEndian(n, width)[1..] == LittleEndian(n / 256, width - 1);
    }
  }

  /** Encoding undoes decoding, so a little-endian field has one byte representation. */
  lemma {:induction false} LittleEndianOfValue(s: Bytes)
    ensures Value(s) < Pow256(|s|)
    ensures LittleEndian(Value(s), |s|) == s
  {
    if s != [] {
      var rest := Value(s[1..]);
      LittleEndianOfValue(s[1..]);
      assert Value(s) % 256 == s[0] && Value(s) / 256 == rest;
      assert [s[0]] + s[1..] == s;
    }
  }

  lemma FieldWidths()
    ensures Pow256(1) == 256
    ensures Pow256(4) == U32_LIMIT
    ensures Pow256(8) == U64_LIMIT
  {
    assert Pow256(2) == 0x1_0000;
    assert Pow256(4) == 256 * Pow256(3) == 65536 * Pow256(2);
    assert Pow256(6) == 256 * Pow256(5) == 65536 * Pow256(4);
    assert Pow256(8) == 256 * Pow256(7) == 65536 * Pow256(6);
  }

  function U32At(s: Bytes, offset: nat): U32
    requires offset + 4 <= |s|
  {
    FieldWidths();
    LittleEndianOfValue(s[offset..offset + 4]);
    Value(s[offset..offset + 4])
  }

  function U64At(s: Bytes, offset: nat): U64
    requires offset + 8 <= |s|
  {
    FieldWidths();
    LittleEndianOfValue(s[offset..offset + 8]);
    Value(s[offset..offset + 8])
  }

  lemma U32AtEncoded(s: Bytes, offset: nat, n: nat)
    requires offset + 4 <= |s|
    requires n < U32_LIMIT
    requires s[offset..offset + 4] == LittleEndian(n, 4)
    ensures U32At(s, offset) == n
  {
    FieldWidths();
    ValueOfLittleEndian(n, 4);
  }

  lemma U64AtEncoded(s: Bytes, offset: nat, n: nat)
    requires offset + 8 <= |s|
    requires n < U64_LIMIT
    requires s[offset..offset + 8] == LittleEndian(n, 8)
    ensures U64At(s, offset) == n
  {
    FieldWidths();
    ValueOfLittleEndian(n, 8);
  }

  lemma U32AtCanonical(s: Bytes, offset: nat)
    requires offset + 4 <= |s|
    ensures s[offset..offset + 4] == LittleEndian(U32At(s, offset), 4)
  {
    LittleEndianOfValue(s[offset..offset + 4]);
  }

  lemma U64AtCanonical(s: Bytes, offset: nat)
    requires offset + 8 <= |s|
    ensures s[offset..offset + 8] == LittleEndian(U64At(s, offset), 8)
  {
    LittleEndianOfValue(s[offset..offset + 8]);
  }

  lemma Joined<T>(s: seq<T>, i: nat, j: nat, k: nat)
    requires i <= j <= k <= |s|
    ensures s[i..j] + s[j..k] == s[i..k]
  {
  }

  lemma Associative<T>(a: seq<T>, b: seq<T>, c: seq<T>)
    ensures (a + b) + c == a + (b + c)
  {
  }

  lemma SubSlice<T>(s: seq<T>, lo: nat, hi: nat, from: nat, to: nat)
    requires lo <= hi <= |s| && from <= to <= hi - lo
    ensures s[lo..hi][from..to] == s[lo + from..lo + to]
  {
    var inner, outer := s[lo..hi][from..to], s[lo + from..lo + to];
    assert |inner| == |outer|;
    forall i | 0 <= i < |inner|
      ensures inner[i] == outer[i]
    {
      assert inner[i] == s[lo..hi][from + i] == s[lo + from + i];
    }
  }

  function Zeros(n: nat): (r: Bytes)
    ensures |r| == n
    ensures forall i :: 0 <= i < n ==> r[i] == 0
  {
    seq(n, i => 0)
  }
}
