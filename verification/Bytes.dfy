/** Octets, and the big-endian length fields of src/ws/common.cpp. */
module Bytes {
  type byte = x: int | 0 <= x < 256
  type bytes = seq<byte>

  /** The range of the source's 32-bit `unsigned int` and `uint`. */
  const UINT_LIMIT: nat := 0x1_0000_0000

  /** A value as 32 bits hold it. */
  function Uint(n: nat): (r: nat)
    ensures n < UINT_LIMIT ==> r == n
  {
    n % UINT_LIMIT
  }

  /** The value of a big-endian octet string. */
  function BigEndian(s: bytes): (n: nat) {
    if s == [] then 0 else BigEndian(s[..|s| - 1]) * 256 + s[|s| - 1]
  }

  /** `k` octets of `n`, most significant first: what htons (k = 2) and htonl (k = 4) leave in memory. */
  function LengthField(n: nat, k: nat): (r: bytes)
    ensures |r| == k
  {
    if k == 0 then [] else LengthField(n / 256, k - 1) + [n % 256]
  }

  function Pow256(k: nat): nat {
    if k == 0 then 1 else Pow256(k - 1) * 256
  }

  /** `read_*_byte_length` undoes `write_*_byte_length` on every length that fits the field. */
  lemma {:induction false} LengthFieldRoundTrip(n: nat, k: nat)
    requires n < Pow256(k)
    ensures BigEndian(LengthField(n, k)) == n
  {
    if k > 0 {
      LengthFieldRoundTrip(n / 256, k - 1);
      assert LengthField(n, k)[..k - 1] == LengthField(n / 256, k - 1);
    }
  }

  /** And `write_*_byte_length` restores every field: the octets and their order are determined by the length. */
  lemma {:induction false} FieldRoundTrip(s: bytes)
    ensures LengthField(BigEndian(s), |s|) == s
  {
    if s != [] {
      FieldRoundTrip(s[..|s| - 1]);
    }
  }

  lemma {:induction false} BigEndianBound(s: bytes)
    ensures BigEndian(s) < Pow256(|s|)
  {
    if s != [] {
      BigEndianBound(s[..|s| - 1]);
    }
  }

  lemma FieldSizes()
    ensures Pow256(2) == 0x1_0000 && Pow256(4) == 0x1_0000_0000
  {
    assert Pow256(1) == 256;
    assert Pow256(3) == 0x100_0000;
  }

  /** Exclusive or of the low `width` bits. */
  function XorBits(a: nat, b: nat, width: nat): (r: nat) {
    if width == 0 then 0
    else 2 * XorBits(a / 2, b / 2, width - 1) + (if a % 2 == b % 2 then 0 else 1)
  }

  lemma {:induction false} XorBitsCancels(a: nat, b: nat, width: nat)
    ensures XorBits(XorBits(a, b, width), b, width) == XorBits(a, 0, width)
  {
    if width > 0 {
      var r := XorBits(a, b, width);
      assert r / 2 == XorBits(a / 2, b / 2, width - 1);
      XorBitsCancels(a / 2, b / 2, width - 1);
    }
  }

  function Pow2(k: nat): nat {
    if k == 0 then 1 else 2 * Pow2(k - 1)
  }

  lemma {:induction false} Pow2Grows(a: nat, b: nat)
    requires a <= b
    ensures 1 <= Pow2(a) <= Pow2(b)
  {
    if a < b {
      Pow2Grows(a, b - 1);
    } else if a > 0 {
      Pow2Grows(a - 1, a - 1);
    }
  }

  lemma {:induction false} XorBitsBound(a: nat, b: nat, width: nat)
    ensures XorBits(a, b, width) < Pow2(width)
  {
    if width > 0 {
      XorBitsBound(a / 2, b / 2, width - 1);
    }
  }

  lemma {:induction false} XorBitsZero(a: nat, width: nat)
    requires a < Pow2(width)
    ensures XorBits(a, 0, width) == a
  {
    if width > 0 {
      XorBitsZero(a / 2, width - 1);
    }
  }

  lemma OctetWidth()
    ensures Pow2(8) == 256
  {
    assert Pow2(4) == 16;
  }

  function Xor(a: byte, k: byte): byte {
    OctetWidth();
    XorBitsBound(a, k, 8);
    XorBits(a, k, 8)
  }

  lemma XorCancels(a: byte, k: byte)
    ensures Xor(Xor(a, k), k) == a
  {
    XorBitsCancels(a, k, 8);
    OctetWidth();
    XorBitsZero(a, 8);
  }

  function Value(x: bv8): byte {
    x as int
  }

  lemma LowBit(x: bv8)
    ensures Value(x) % 2 == if x & 1 == 0 then 0 else 1
  {
  }

  lemma HighBits(x: bv8)
    ensures Value(x >> 1) == Value(x) / 2
  {
  }

  lemma CaretBits(x: bv8, y: bv8)
    ensures (x ^ y) >> 1 == (x >> 1) ^ (y >> 1)
    ensures (x ^ y) & 1 == 0 <==> x & 1 == y & 1
    ensures x & 1 == 0 || x & 1 == 1
  {
  }

  lemma NoWord(x: bv8)
    requires Value(x) == 0
    ensures x == 0
  {
  }

  lemma CaretStep(x: bv8, y: bv8)
    ensures Value(x ^ y) % 2 == if Value(x) % 2 == Value(y) % 2 then 0 else 1
    ensures Value(x ^ y) / 2 == Value((x >> 1) ^ (y >> 1))
  {
    hide Value;
    LowBit(x);
    LowBit(y);
    LowBit(x ^ y);
    CaretBits(x, y);
    CaretBits(y, x);
    HighBits(x ^ y);
  }

  lemma {:induction false} XorBitsCaret(x: bv8, y: bv8, width: nat)
    requires Value(x) < Pow2(width) && Value(y) < Pow2(width)
    ensures XorBits(Value(x), Value(y), width) == Value(x ^ y)
  {
    hide Value;
    if width == 0 {
      NoWord(x);
      NoWord(y);
    } else {
      CaretStep(x, y);
      HighBits(x);
      HighBits(y);
      XorBitsCaret(x >> 1, y >> 1, width - 1);
    }
  }

  /** Masking is the machine's exclusive or. */
  lemma XorIsCaret(x: bv8, y: bv8)
    ensures Xor(x as int, y as int) == (x ^ y) as int
  {
    OctetWidth();
    XorBitsCaret(x, y, 8);
  }

  /** `do_mask`: every octet xor-ed with the key octet at its index modulo 4. */
  function Masked(s: bytes, key: bytes): (r: bytes)
    requires |key| == 4
    ensures |r| == |s|
    ensures forall i :: 0 <= i < |s| ==> r[i] == Xor(s[i], key[i % 4])
  {
    seq(|s|, i requires 0 <= i < |s| => Xor(s[i], key[i % 4]))
  }

  /** Masking twice with one key restores the octets (RFC 6455 section 5.3). */
  lemma MaskIsInvolution(s: bytes, key: bytes)
    requires |key| == 4
    ensures Masked(Masked(s, key), key) == s
  {
    forall i | 0 <= i < |s|
      ensures Masked(Masked(s, key), key)[i] == s[i]
    {
      XorCancels(s[i], key[i % 4]);
    }
  }
}
