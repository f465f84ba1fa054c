/** CRC32C (Castagnoli, section 12.1 of RFC 3720) bit by bit, and why cached checksums may be combined. */
module Crc32c {
  import opened Bytes

  /** The generator polynomial, bit-reversed. */
  const POLYNOMIAL: bv32 := 0x82F63B78
  const ONES: bv32 := 0xFFFF_FFFF

  function Xor(a: bv32, b: bv32): bv32 {
    a ^ b
  }

  function Half(s: bv32): bv32 {
    s >> 1
  }

  predicate Odd(s: bv32) {
    s & 1 == 1
  }

  function Shift(s: bv32): bv32 {
    if Odd(s) then Xor(Half(s), POLYNOMIAL) else Half(s)
  }

  function ShiftBits(s: bv32, n: nat): bv32 {
    if n == 0 then s else Shift(ShiftBits(s, n - 1))
  }

  function ByteBits(b: Byte): bv32 {
    b as bv32
  }

  /** The register after feeding the bytes. */
  function Feed(s: bv32, data: Bytes): bv32 {
    if data == [] then s
    else ShiftBits(Xor(Feed(s, data[..|data| - 1]), ByteBits(data[|data| - 1])), 8)
  }

  /** `crc32c_append`: continues a checksum over more bytes. */
  function Append(crc: bv32, data: Bytes): bv32 {
    Xor(Feed(Xor(crc, ONES), data), ONES)
  }

  function Checksum(data: Bytes): bv32 {
    Append(0, data)
  }

  /** `crc32c_combine`: the checksum of a concatenation, from the checksums of its parts. */
  function Combine(first: bv32, second: bv32, secondLen: nat): bv32 {
    Xor(ShiftBits(first, 8 * secondLen), second)
  }

  // --------------------------------------------------------------- the bit level

  lemma XorLaws(a: bv32, b: bv32, c: bv32)
    ensures Xor(a, b) == Xor(b, a)
    ensures Xor(Xor(a, b), c) == Xor(a, Xor(b, c))
  {
  }

  lemma XorCancels(a: bv32, b: bv32)
    ensures Xor(Xor(a, b), b) == a
    ensures Xor(0, a) == a
  {
  }

  lemma HalfLinear(a: bv32, b: bv32)
    ensures Half(Xor(a, b)) == Xor(Half(a), Half(b))
    ensures Odd(Xor(a, b)) <==> Odd(a) != Odd(b)
  {
  }

  /** One division step is linear over exclusive or. */
  lemma ShiftLinear(a: bv32, b: bv32)
    ensures Shift(Xor(a, b)) == Xor(Shift(a), Shift(b))
  {
    HalfLinear(a, b);
    var x, y := Half(a), Half(b);
    hide Xor, Half, Odd;
    XorLaws(x, POLYNOMIAL, y);
    XorLaws(x, y, POLYNOMIAL);
    XorLaws(POLYNOMIAL, y, x);
    XorLaws(y, POLYNOMIAL, x);
    XorLaws(Xor(x, POLYNOMIAL), y, POLYNOMIAL);
    XorCancels(Xor(x, y), POLYNOMIAL);
    XorCancels(x, POLYNOMIAL);
  }

  lemma {:induction false} ShiftBitsLinear(a: bv32, b: bv32, n: nat)
    ensures ShiftBits(Xor(a, b), n) == Xor(ShiftBits(a, n), ShiftBits(b, n))
  {
    hide Xor, Shift;
    if n > 0 {
      ShiftBitsLinear(a, b, n - 1);
      ShiftLinear(ShiftBits(a, n - 1), ShiftBits(b, n - 1));
    }
  }

  lemma {:induction false} ShiftBitsAdd(s: bv32, m: nat, n: nat)
    ensures ShiftBits(ShiftBits(s, m), n) == ShiftBits(s, m + n)
  {
    hide Shift;
    if n > 0 {
      ShiftBitsAdd(s, m, n - 1);
    }
  }

  // -------------------------------------------------------------- the byte level

  /** Feeding is affine in the register: a difference only travels through zero bits. */
  lemma {:induction false} FeedLinear(s: bv32, t: bv32, data: Bytes)
    ensures Feed(Xor(s, t), data) == Xor(Feed(s, data), ShiftBits(t, 8 * |data|))
  {
    hide Xor, ShiftBits, ByteBits;
    if data == [] {
      NoShift(t);
    } else {
      var n := |data| - 1;
      FeedLinear(s, t, data[..n]);
      var x, y, last := Feed(s, data[..n]), ShiftBits(t, 8 * n), ByteBits(data[n]);
      XorLaws(x, y, last);
      XorLaws(y, last, x);
      XorLaws(x, last, y);
      ShiftBitsLinear(Xor(x, last), y, 8);
      ShiftBitsAdd(t, 8 * n, 8);
    }
  }

  lemma NoShift(t: bv32)
    ensures ShiftBits(t, 0) == t
  {
  }

  lemma {:induction false} FeedConcat(s: bv32, a: Bytes, b: Bytes)
    ensures Feed(s, a + b) == Feed(Feed(s, a), b)
  {
    hide Xor, ShiftBits, ByteBits;
    if b == [] {
      assert a + b == a;
    } else {
      var n := |b| - 1;
      FeedConcat(s, a, b[..n]);
      assert (a + b)[..|a| + n] == a + b[..n];
    }
  }

  /** A checksum may be computed piece by piece. */
  lemma AppendConcat(c: bv32, a: Bytes, b: Bytes)
    ensures Append(Append(c, a), b) == Append(c, a + b)
  {
    hide Xor, Feed;
    XorCancels(Feed(Xor(c, ONES), a), ONES);
    FeedConcat(Xor(c, ONES), a, b);
  }

  /** Combining with the checksum of the second part is the same as reading the second part. */
  lemma CombineIsAppend(first: bv32, data: Bytes)
    ensures Combine(first, Checksum(data), |data|) == Append(first, data)
  {
    hide Xor, Feed, ShiftBits;
    var n := 8 * |data|;
    XorCancels(ONES, 0);
    XorLaws(first, ONES, 0);
    FeedLinear(ONES, first, data);
    XorLaws(Feed(ONES, data), ShiftBits(first, n), ONES);
    XorLaws(ShiftBits(first, n), ONES, Feed(ONES, data));
    XorLaws(ShiftBits(first, n), Feed(ONES, data), ONES);
    XorLaws(Feed(ONES, data), ONES, ShiftBits(first, n));
  }

  // ------------------------------------------------------------- the check value

  /** The register after one more byte, step by step. */
  function Octet(s: bv32, b: Byte): bv32 {
    Shift(Shift(Shift(Shift(Shift(Shift(Shift(Shift(Xor(s, ByteBits(b))))))))))
  }

  lemma OctetFed(data: Bytes, n: nat, before: bv32, after: bv32)
    requires n < |data| && Feed(ONES, data[..n]) == before && Octet(before, data[n]) == after
    ensures Feed(ONES, data[..n + 1]) == after
  {
    hide Shift, Xor, ByteBits;
    var s := Xor(before, ByteBits(data[n]));
    assert data[..n + 1][..n] == data[..n];
    assert ShiftBits(s, 1) == Shift(s);
    assert ShiftBits(s, 3) == Shift(Shift(ShiftBits(s, 1)));
    assert ShiftBits(s, 5) == Shift(Shift(ShiftBits(s, 3)));
    assert ShiftBits(s, 7) == Shift(Shift(ShiftBits(s, 5)));
  }

  lemma Octets()
    ensures Octet(ONES, 0x31) == 0x6F0A_661C
    ensures Octet(0x6F0A_661C, 0x32) == 0x8CAA_3B9F
    ensures Octet(0x8CAA_3B9F, 0x33) == 0xEF84_D04D
    ensures Octet(0xEF84_D04D, 0x34) == 0x09C5_0B11
    ensures Octet(0x09C5_0B11, 0x35) == 0xE72E_DCCA
    ensures Octet(0xE72E_DCCA, 0x36) == 0xBECA_8E79
    ensures Octet(0xBECA_8E79, 0x37) == 0xEDBD_6815
    ensures Octet(0xEDBD_6815, 0x38) == 0x9F78_7F65
    ensures Octet(0x9F78_7F65, 0x39) == 0x1CF9_6D7C
  {
  }

  lemma NothingFed(data: Bytes)
    ensures Feed(ONES, data[..0]) == ONES
  {
  }

  lemma DigitsFed(data: Bytes)
    requires |data| == 9 && data[0] == 0x31 && data[1] == 0x32 && data[2] == 0x33 && data[3] == 0x34
    requires data[4] == 0x35 && data[5] == 0x36 && data[6] == 0x37 && data[7] == 0x38 && data[8] == 0x39
    ensures Feed(ONES, data) == 0x1CF9_6D7C
  {
    hide *;
    Octets();
    NothingFed(data);
    OctetFed(data, 0, ONES, 0x6F0A_661C);
    OctetFed(data, 1, 0x6F0A_661C, 0x8CAA_3B9F);
    OctetFed(data, 2, 0x8CAA_3B9F, 0xEF84_D04D);
    OctetFed(data, 3, 0xEF84_D04D, 0x09C5_0B11);
    OctetFed(data, 4, 0x09C5_0B11, 0xE72E_DCCA);
    OctetFed(data, 5, 0xE72E_DCCA, 0xBECA_8E79);
    OctetFed(data, 6, 0xBECA_8E79, 0xEDBD_6815);
    OctetFed(data, 7, 0xEDBD_6815, 0x9F78_7F65);
    OctetFed(data, 8, 0x9F78_7F65, 0x1CF9_6D7C);
    assert data[..9] == data;
  }

  /** The check value published for CRC32C: that of the digits one to nine. */
  lemma CheckValue()
    ensures Checksum([0x31, 0x32, 0x33, 0x34, 0x35, 0x36, 0x37, 0x38, 0x39]) == 0xE306_9283
  {
    hide Feed;
    DigitsFed([0x31, 0x32, 0x33, 0x34, 0x35, 0x36, 0x37, 0x38, 0x39]);
    assert Xor(0, ONES) == ONES;
  }
}
