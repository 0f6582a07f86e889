/** SHA-1 as FIPS 180-4 defines it, and the streaming implementation of src/ws/sha1.cpp. */
module Sha1 {
  import opened Bytes
  import opened Sequences

  type octet = bv8
  type word = bv32

  // ----- FIPS 180-4, sections 4.1.1, 4.2.1 and 6.1.2 -----

  function Rotl1(x: word): word {
    (x << 1) | (x >> 31)
  }

  function Rotl5(x: word): word {
    (x << 5) | (x >> 27)
  }

  function Rotl30(x: word): word {
    (x << 30) | (x >> 2)
  }

  function Ch(x: word, y: word, z: word): word {
    (x & y) ^ (!x & z)
  }

  function Maj(x: word, y: word, z: word): word {
    (x & y) ^ (x & z) ^ (y & z)
  }

  function F(t: nat, x: word, y: word, z: word): word {
    if t < 20 then Ch(x, y, z) else if t < 40 then x ^ y ^ z else if t < 60 then Maj(x, y, z) else x ^ y ^ z
  }

  function K(t: nat): word {
    if t < 20 then 0x5A827999 else if t < 40 then 0x6ED9EBA1 else if t < 60 then 0x8F1BBCDC else 0xCA62C1D6
  }

  function Mix(p: word, q: word, r: word, s: word): word {
    Rotl1(p ^ q ^ r ^ s)
  }

  /** The message schedule. */
  function W(block: seq<word>, t: nat): word
    requires |block| == 16
  {
    if t < 16 then block[t] else Mix(W(block, t - 3), W(block, t - 8), W(block, t - 14), W(block, t - 16))
  }

  /** Each rotation by `n` is `x * 2^n` modulo 2^32, plus `x / 2^(32 - n)`. */
  lemma RotationsAreNumbers(x: word)
    ensures Rotl1(x) as bv64 == (x as bv64 * 2) % 0x1_0000_0000 + x as bv64 / 0x8000_0000
    ensures Rotl5(x) as bv64 == (x as bv64 * 32) % 0x1_0000_0000 + x as bv64 / 0x800_0000
    ensures Rotl30(x) as bv64 == (x as bv64 * 0x4000_0000) % 0x1_0000_0000 + x as bv64 / 4
  {
    hide Rotl1, Rotl5, Rotl30;
    ByOne(x);
    ByFive(x);
    ByThirty(x);
  }

  lemma ByOne(x: word)
    ensures Rotl1(x) as bv64 == (x as bv64 * 2) % 0x1_0000_0000 + x as bv64 / 0x8000_0000
  {
  }

  lemma ByFive(x: word)
    ensures Rotl5(x) as bv64 == (x as bv64 * 32) % 0x1_0000_0000 + x as bv64 / 0x800_0000
  {
  }

  lemma ByThirty(x: word)
    ensures Rotl30(x) as bv64 == (x as bv64 * 0x4000_0000) % 0x1_0000_0000 + x as bv64 / 4
  {
  }

  /** The constants are the integer parts of 2^30 times the square roots of 2, 3, 5 and 10. */
  lemma ConstantsAreRoots(t: nat)
    ensures var k, n := K(t) as nat, if t < 20 then 2 else if t < 40 then 3 else if t < 60 then 5 else 10;
            k * k <= n * 0x1000_0000_0000_0000 < (k + 1) * (k + 1)
  {
  }

  /** Whether bit `j` of a word is set; the lowest is bit 0. */
  predicate BitSet(x: word, j: bv6)
    requires j < 32
  {
    (x >> j) & 1 == 1
  }

  /** Whether bit `i` is set in an odd number of four words. */
  predicate Odd(p: word, q: word, r: word, s: word, i: bv6)
    requires i < 32
  {
    (BitSet(p, i) != BitSet(q, i)) != (BitSet(r, i) != BitSet(s, i))
  }

  lemma MixBits(p: word, q: word, r: word, s: word, j: bv6, i: bv6)
    requires j < 32 && i == (j + 31) % 32
    ensures i < 32 && (BitSet(Mix(p, q, r, s), j) <==> Odd(p, q, r, s, i))
  {
  }

  lemma Scheduled(block: seq<word>, t: nat)
    requires |block| == 16 && t >= 16
    ensures W(block, t) == Mix(W(block, t - 3), W(block, t - 8), W(block, t - 14), W(block, t - 16))
  {
  }

  /** The schedule bit by bit: from word 16 on, the parity of the bit one lower of four earlier words. */
  lemma ScheduleBits(block: seq<word>, t: nat, j: bv6, i: bv6)
    requires |block| == 16 && t >= 16 && j < 32 && i == (j + 31) % 32
    ensures i < 32
    ensures BitSet(W(block, t), j) <==> Odd(W(block, t - 3), W(block, t - 8), W(block, t - 14), W(block, t - 16), i)
  {
    hide W, Mix, BitSet, Odd;
    Scheduled(block, t);
    MixBits(W(block, t - 3), W(block, t - 8), W(block, t - 14), W(block, t - 16), j, i);
  }

  datatype Regs = Regs(a: word, b: word, c: word, d: word, e: word)

  function Sum(r: word, f: word, e: word, k: word, w: word): word {
    r + f + e + k + w
  }

  function Round(r: Regs, t: nat, w: word): Regs {
    Regs(Sum(Rotl5(r.a), F(t, r.b, r.c, r.d), r.e, K(t), w), r.a, Rotl30(r.b), r.c, r.d)
  }

  function Rounds(r: Regs, block: seq<word>, t: nat): Regs
    requires |block| == 16
  {
    if t == 0 then r else Round(Rounds(r, block, t - 1), t - 1, W(block, t - 1))
  }

  function Word(data: seq<octet>, i: nat): word
    requires 4 * i + 3 < |data|
  {
    ((data[4 * i] as word) << 24) | ((data[4 * i + 1] as word) << 16) | ((data[4 * i + 2] as word) << 8) |
    (data[4 * i + 3] as word)
  }

  function Block(data: seq<octet>): (b: seq<word>)
    requires |data| == 64
    ensures |b| == 16
  {
    seq(16, i requires 0 <= i < 16 => Word(data, i))
  }

  function Plus(x: word, y: word): word {
    x + y
  }

  function Add(h: Regs, r: Regs): Regs {
    Regs(Plus(h.a, r.a), Plus(h.b, r.b), Plus(h.c, r.c), Plus(h.d, r.d), Plus(h.e, r.e))
  }

  function Compress(h: Regs, data: seq<octet>): Regs
    requires |data| == 64
  {
    Add(h, Rounds(h, Block(data), 80))
  }

  const INITIAL := Regs(0x67452301, 0xefcdab89, 0x98badcfe, 0x10325476, 0xc3d2e1f0)

  /** The hash value after the first `n` blocks. */
  function Hashed(message: seq<octet>, n: nat): Regs
    requires 64 * n <= |message|
  {
    if n == 0 then INITIAL else Compress(Hashed(message, n - 1), message[64 * (n - 1)..64 * n])
  }

  // ----- hash1_transform -----

  function F1(x: word, y: word, z: word): word {
    z ^ (x & (y ^ z))
  }

  function F3(x: word, y: word, z: word): word {
    (x & y) | (z & (x | y))
  }

  function Code(t: nat, x: word, y: word, z: word): word {
    if t < 20 then F1(x, y, z) else if 40 <= t < 60 then F3(x, y, z) else x ^ y ^ z
  }

  /** The source's functions are those of the standard. */
  lemma CodeIsF(t: nat, x: word, y: word, z: word)
    ensures Code(t, x, y, z) == F(t, x, y, z)
  {
    ChIsF1(x, y, z);
    MajIsF3(x, y, z);
    hide Ch, Maj, F1, F3;
  }

  lemma ChIsF1(x: word, y: word, z: word)
    ensures F1(x, y, z) == Ch(x, y, z)
  {
    Choose(x, y, z);
  }

  lemma Choose(x: word, y: word, z: word)
    ensures z ^ (x & (y ^ z)) == (x & y) ^ (!x & z)
  {
  }

  lemma MajIsF3(x: word, y: word, z: word)
    ensures F3(x, y, z) == Maj(x, y, z)
  {
    Majority(x, y, z);
  }

  lemma Majority(x: word, y: word, z: word)
    ensures (x & y) | (z & (x | y)) == (x & y) ^ (x & z) ^ (y & z)
  {
  }

  /** The sixteen words hold the schedule's last sixteen before `t`, each at its index modulo 16. */
  ghost predicate Window(x: seq<word>, block: seq<word>, t: nat) {
    |x| == 16 && |block| == 16 && t >= 16 && forall k :: t - 16 <= k < t ==> x[k % 16] == W(block, k)
  }

  lemma Slots(t: nat, k: nat)
    requires t - 16 <= k < t
    ensures k % 16 == t % 16 <==> k == t - 16
  {
  }

  lemma MixTurned(p: word, q: word, r: word, s: word)
    ensures Mix(p, q, r, s) == Mix(s, r, q, p)
  {
    Xor(p, q, r, s);
  }

  lemma Xor(p: word, q: word, r: word, s: word)
    ensures p ^ q ^ r ^ s == s ^ r ^ q ^ p
  {
  }

  lemma WindowMoves(x: seq<word>, block: seq<word>, t: nat)
    requires Window(x, block, t)
    ensures var tm := Mix(x[t % 16], x[(t - 14) % 16], x[(t - 8) % 16], x[(t - 3) % 16]);
            tm == W(block, t) && Window(x[t % 16 := tm], block, t + 1)
  {
    hide Mix;
    var tm := Mix(x[t % 16], x[(t - 14) % 16], x[(t - 8) % 16], x[(t - 3) % 16]);
    Slots(t, t - 16);
    MixTurned(W(block, t - 16), W(block, t - 14), W(block, t - 8), W(block, t - 3));
    forall k | t + 1 - 16 <= k < t
      ensures k % 16 != t % 16
    {
      Slots(t, k);
    }
  }

  /** `M(i)`. */
  method M(x: array<word>, i: nat, ghost block: seq<word>) returns (tm: word)
    requires Window(x[..], block, i)
    modifies x
    ensures tm == W(block, i) && Window(x[..], block, i + 1)
  {
    WindowMoves(x[..], block, i);
    hide Mix, Window, W;
    tm := Mix(x[i % 16], x[(i - 14) % 16], x[(i - 8) % 16], x[(i - 3) % 16]);
    ghost var was := x[..];
    x[i % 16] := tm;
    assert x[..] == was[i % 16 := tm];
  }

  function Later(t: nat): nat {
    if t < 16 then 16 else t
  }

  /** The word for round `t`: one of the block's own first, then from the schedule. */
  method Fetch(x: array<word>, t: nat, ghost block: seq<word>) returns (m: word)
    requires Window(x[..], block, Later(t))
    modifies x
    ensures m == W(block, t) && Window(x[..], block, Later(t + 1))
  {
    if t < 16 {
      m := x[t];
      assert W(block, t) == x[..][t % 16];
    } else {
      m := M(x, t, block);
    }
  }

  method Accumulate(e: word, r: word, f: word, k: word, m: word) returns (s: word)
    ensures s == Sum(r, f, e, k, m)
  {
    Commute(e, r, f, k, m);
    s := e + (r + f + k + m);
  }

  lemma Commute(e: word, r: word, f: word, k: word, m: word)
    ensures e + (r + f + k + m) == r + f + e + k + m
  {
  }

  /** `R`, with the round number for its function and constant. */
  method R(a: word, b: word, c: word, d: word, e: word, t: nat, m: word) returns (b': word, e': word)
    ensures Regs(e', a, b', c, d) == Round(Regs(a, b, c, d, e), t, m)
  {
    CodeIsF(t, b, c, d);
    hide Code, F, K, Rotl5, Rotl30, Sum;
    e' := Accumulate(e, Rotl5(a), Code(t, b, c, d), K(t), m);
    b' := Rotl30(b);
  }

  /** Five rounds, with the registers in turn: the text that the source repeats sixteen times. */
  method FiveRounds(x: array<word>, t: nat, a0: word, b0: word, c0: word, d0: word, e0: word, ghost block: seq<word>,
                    ghost h: Regs) returns (a: word, b: word, c: word, d: word, e: word)
    requires Window(x[..], block, Later(t)) && Regs(a0, b0, c0, d0, e0) == Rounds(h, block, t)
    modifies x
    ensures Window(x[..], block, Later(t + 5)) && Regs(a, b, c, d, e) == Rounds(h, block, t + 5)
  {
    hide Window, W, Round, Later;
    a, b, c, d, e := a0, b0, c0, d0, e0;
    var m := Fetch(x, t, block);
    b, e := R(a, b, c, d, e, t, m);
    m := Fetch(x, t + 1, block);
    a, d := R(e, a, b, c, d, t + 1, m);
    m := Fetch(x, t + 2, block);
    e, c := R(d, e, a, b, c, t + 2, m);
    m := Fetch(x, t + 3, block);
    d, b := R(c, d, e, a, b, t + 3, m);
    m := Fetch(x, t + 4, block);
    c, a := R(b, c, d, e, a, t + 4, m);
    FiveMore(h, block, t);
  }

  lemma FiveMore(h: Regs, block: seq<word>, t: nat)
    requires |block| == 16
    ensures var r := Rounds(h, block, t);
            Rounds(h, block, t + 5) ==
            Round(Round(Round(Round(Round(r, t, W(block, t)), t + 1, W(block, t + 1)), t + 2, W(block, t + 2)),
                        t + 3, W(block, t + 3)), t + 4, W(block, t + 4))
  {
    hide Round, W;
    assert Rounds(h, block, t + 1) == Round(Rounds(h, block, t), t, W(block, t));
    assert Rounds(h, block, t + 2) == Round(Rounds(h, block, t + 1), t + 1, W(block, t + 1));
    assert Rounds(h, block, t + 3) == Round(Rounds(h, block, t + 2), t + 2, W(block, t + 2));
    assert Rounds(h, block, t + 4) == Round(Rounds(h, block, t + 3), t + 3, W(block, t + 3));
  }

  // ----- padding, FIPS 180-4, section 5.1.1 -----

  const TWO_38: nat := 0x40_0000_0000

  function Octet(n: nat): octet {
    (n % 256) as bv8
  }

  /** The octets of a 64-bit length, as numbers. */
  function LengthValues(n: nat): seq<nat> {
    [n / 0x100_0000_0000_0000 % 256, n / 0x1_0000_0000_0000 % 256, n / 0x100_0000_0000 % 256, n / 0x1_0000_0000 % 256,
     n / 0x100_0000 % 256, n / 0x1_0000 % 256, n / 0x100 % 256, n % 256]
  }

  function Octets8(n: nat): (r: seq<octet>)
    ensures |r| == 8
  {
    var v := LengthValues(n);
    [Octet(v[0]), Octet(v[1]), Octet(v[2]), Octet(v[3]), Octet(v[4]), Octet(v[5]), Octet(v[6]), Octet(v[7])]
  }

  /** How many zero octets fill up the last block before the length. */
  function Fill(n: nat): (k: nat)
    ensures (n + 1 + k + 8) % 64 == 0 && k < 64
  {
    if n % 64 < 56 then 55 - n % 64 else 119 - n % 64
  }

  function Padded(message: seq<octet>, bits: nat): (r: seq<octet>)
    ensures |r| % 64 == 0
  {
    message + [0x80] + Repeat<octet>(0, Fill(|message|)) + Octets8(bits)
  }

  function Octets4(x: word): (r: seq<octet>)
    ensures |r| == 4
  {
    [((x >> 24) & 0xff) as bv8, ((x >> 16) & 0xff) as bv8, ((x >> 8) & 0xff) as bv8, (x & 0xff) as bv8]
  }

  lemma FourOctets(a: octet, b: octet, c: octet, d: octet)
    ensures Octets4(((a as word) << 24) | ((b as word) << 16) | ((c as word) << 8) | (d as word)) == [a, b, c, d]
  {
  }

  /** A word of a block is its four octets, most significant first, wherever it is. */
  lemma WordIsOctets(data: seq<octet>, i: nat)
    requires |data| == 64 && i < 16
    ensures Octets4(Block(data)[i]) == data[4 * i..4 * i + 4]
  {
    hide Octets4;
    FourOctets(data[4 * i], data[4 * i + 1], data[4 * i + 2], data[4 * i + 3]);
  }

  function Octets20(h: Regs): (r: seq<octet>)
    ensures |r| == 20
  {
    Octets4(h.a) + Octets4(h.b) + Octets4(h.c) + Octets4(h.d) + Octets4(h.e)
  }

  function DigestWith(message: seq<octet>, bits: nat): seq<octet> {
    Octets20(Hashed(Padded(message, bits), |Padded(message, bits)| / 64))
  }

  /** The SHA-1 digest. */
  function Digest(message: seq<octet>): seq<octet> {
    DigestWith(message, 8 * |message|)
  }

  lemma {:induction false} HashedPrefix(message: seq<octet>, more: seq<octet>, n: nat)
    requires 64 * n <= |message|
    ensures Hashed(message + more, n) == Hashed(message, n)
  {
    if n > 0 {
      HashedPrefix(message, more, n - 1);
      assert (message + more)[64 * (n - 1)..64 * n] == message[64 * (n - 1)..64 * n];
    }
  }

  /** The bit count put together from two halves of 32 bits. */
  method BitCount(nblocks: nat, count: nat) returns (msb: nat, lsb: nat)
    requires nblocks < UINT_LIMIT && count < 64
    ensures msb < UINT_LIMIT && lsb < UINT_LIMIT && msb * UINT_LIMIT + lsb == 8 * (64 * nblocks + count)
  {
    hide Uint;
    var t := nblocks;
    TimesBlock(t);
    lsb := Uint(t * 64);
    var high: int := t / 0x400_0000;
    t := lsb;
    lsb := Uint(lsb + count);
    if lsb < t {
      high := high + 1;
    }
    t := lsb;
    TimesEight(t);
    lsb := Uint(lsb * 8);
    msb := Uint(high * 8);
    // the three low bits of `msb` are clear, so that `|=` adds
    msb := msb + t / 0x2000_0000;
  }

  lemma TimesBlock(n: nat)
    requires n < UINT_LIMIT
    ensures n * 64 == n / 0x400_0000 * UINT_LIMIT + Uint(n * 64) && n / 0x400_0000 < 64
    ensures Uint(n * 64) <= UINT_LIMIT - 64
  {
    var q, r := n / 0x400_0000, n % 0x400_0000;
    assert n * 64 == q * UINT_LIMIT + r * 64 && 0 <= r * 64 < UINT_LIMIT;
    Remainder(n * 64, q, r * 64);
  }

  lemma TimesEight(t: nat)
    requires t < UINT_LIMIT
    ensures t * 8 == t / 0x2000_0000 * UINT_LIMIT + Uint(t * 8) && t / 0x2000_0000 < 8 && Uint(t * 8) < UINT_LIMIT
  {
    var q, r := t / 0x2000_0000, t % 0x2000_0000;
    assert t * 8 == q * UINT_LIMIT + r * 8 && 0 <= r * 8 < UINT_LIMIT;
    Remainder(t * 8, q, r * 8);
  }

  lemma Remainder(n: nat, q: nat, r: nat)
    requires n == q * UINT_LIMIT + r && r < UINT_LIMIT
    ensures n % UINT_LIMIT == r && n / UINT_LIMIT == q
  {
  }

  lemma LengthHalves(msb: nat, lsb: nat)
    requires msb < UINT_LIMIT && lsb < UINT_LIMIT
    ensures Octets8(msb * UINT_LIMIT + lsb) ==
            [Octet(msb / 0x100_0000), Octet(msb / 0x1_0000), Octet(msb / 0x100), Octet(msb),
             Octet(lsb / 0x100_0000), Octet(lsb / 0x1_0000), Octet(lsb / 0x100), Octet(lsb)]
  {
    hide Octet, Octets8;
    var n := msb * UINT_LIMIT + lsb;
    EightOctets(n);
    HighHalf(n, msb, lsb);
    Quotients(n, msb, lsb);
    LowOctet(msb, lsb / 0x100_0000);
    LowOctet(msb * 0x100, lsb / 0x1_0000);
    LowOctet(msb * 0x1_0000, lsb / 0x100);
    LowOctet(msb * 0x100_0000, lsb);
  }

  lemma EightOctets(n: nat)
    ensures Octets8(n) ==
            [Octet(n / 0x100_0000_0000_0000), Octet(n / 0x1_0000_0000_0000), Octet(n / 0x100_0000_0000),
             Octet(n / 0x1_0000_0000), Octet(n / 0x100_0000), Octet(n / 0x1_0000), Octet(n / 0x100), Octet(n)]
  {
    hide Octet;
    LowOctets(n / 0x100_0000_0000_0000);
    LowOctets(n / 0x1_0000_0000_0000);
    LowOctets(n / 0x100_0000_0000);
    LowOctets(n / 0x1_0000_0000);
    LowOctets(n / 0x100_0000);
    LowOctets(n / 0x1_0000);
    LowOctets(n / 0x100);
    LowOctets(n);
  }

  lemma LowOctets(n: nat)
    ensures Octet(n % 256) == Octet(n)
  {
    LowOctet(n / 256, n % 256);
    assert n == 256 * (n / 256) + n % 256;
  }

  lemma HighHalf(n: nat, msb: nat, lsb: nat)
    requires n == msb * UINT_LIMIT + lsb && lsb < UINT_LIMIT
    ensures n / 0x100_0000_0000_0000 == msb / 0x100_0000 && n / 0x1_0000_0000_0000 == msb / 0x1_0000
    ensures n / 0x100_0000_0000 == msb / 0x100 && n / 0x1_0000_0000 == msb
  {
  }

  lemma Quotients(n: nat, msb: nat, lsb: nat)
    requires n == msb * UINT_LIMIT + lsb && lsb < UINT_LIMIT
    ensures n / 0x100_0000 == 256 * msb + lsb / 0x100_0000
    ensures n / 0x1_0000 == 256 * (msb * 0x100) + lsb / 0x1_0000
    ensures n / 0x100 == 256 * (msb * 0x1_0000) + lsb / 0x100
    ensures n == 256 * (msb * 0x100_0000) + lsb
  {
  }

  lemma LowOctet(c: nat, b: nat)
    ensures Octet(256 * c + b) == Octet(b)
  {
    SameRemainder(c, b);
  }

  lemma SameRemainder(c: nat, b: nat)
    ensures (256 * c + b) % 256 == b % 256
  {
  }

  // ----- hash1_reset, hash1_write, hash1_final and hash1_get -----

  class Context {
    var h0: word
    var h1: word
    var h2: word
    var h3: word
    var h4: word
    var nblocks: nat
    var count: nat
    var bFinal: bool
    const buf: array<octet>
    /** All octets written since the last reset, and how many whole blocks of them are hashed. */
    ghost var message: seq<octet>
    ghost var blocks: nat

    ghost predicate Valid()
      reads this, buf
    {
      && buf.Length == 64
      && if bFinal then buf[..20] == DigestWith(message, 8 * (|message| % TWO_38)) else Open()
    }

    ghost predicate Open()
      requires buf.Length == 64
      reads this, buf
    {
      && count <= 64 && nblocks == blocks % UINT_LIMIT && |message| == 64 * blocks + count
      && State() == Hashed(message, blocks) && buf[..count] == message[64 * blocks..]
    }

    function State(): Regs
      reads this`h0, this`h1, this`h2, this`h3, this`h4
    {
      Regs(h0, h1, h2, h3, h4)
    }

    constructor ()
      ensures Valid() && !bFinal && message == [] && fresh(buf)
      ensures buf.Length == 64 && forall i :: 0 <= i < 64 ==> buf[i] == 0
    {
      h0, h1, h2, h3, h4 := 0x67452301, 0xefcdab89, 0x98badcfe, 0x10325476, 0xc3d2e1f0;
      nblocks, count, bFinal := 0, 0, false;
      buf := new octet[64](_ => 0);
      message, blocks := [], 0;
    }

    method Reset()
      requires buf.Length == 64
      modifies this, buf
      ensures Valid() && !bFinal && message == []
      ensures forall i :: 0 <= i < 64 ==> buf[i] == 0
    {
      hide Hashed, DigestWith, State;
      HashedNone([]);
      bFinal := false;
      SetChain();
      nblocks, count := 0, 0;
      ClearBuffer(64);
      message, blocks := [], 0;
    }

    method SetChain()
      modifies this`h0, this`h1, this`h2, this`h3, this`h4
      ensures State() == INITIAL
    {
      h0, h1, h2, h3, h4 := 0x67452301, 0xefcdab89, 0x98badcfe, 0x10325476, 0xc3d2e1f0;
    }

    /** memset on the buffer. */
    method ClearBuffer(n: nat)
      requires n <= buf.Length
      modifies buf
      ensures forall i :: 0 <= i < n ==> buf[i] == 0
      ensures buf[n..] == old(buf[n..])
    {
      forall i | 0 <= i < n {
        buf[i] := 0;
      }
    }

    method Transform(data: seq<octet>)
      requires |data| == 64
      modifies this`h0, this`h1, this`h2, this`h3, this`h4
      ensures State() == Compress(old(State()), data)
    {
      hide Window, W, Round, Later, Word, Rounds, Add;
      ghost var h, block := State(), Block(data);
      var a, b, c, d, e := h0, h1, h2, h3, h4;
      var x := new word[16](i requires 0 <= i < 16 => Word(data, i));
      assert x[..] == block;
      StartOfSchedule(h, block);
      var t := 0;
      while t < 80
        invariant t % 5 == 0 && t <= 80 && fresh(x) && State() == h
        invariant Window(x[..], block, Later(t)) && Regs(a, b, c, d, e) == Rounds(h, block, t)
      {
        a, b, c, d, e := FiveRounds(x, t, a, b, c, d, e, block, h);
        t := t + 5;
      }
      assert t == 80;
      UpdateChain(a, b, c, d, e);
    }

    method UpdateChain(a: word, b: word, c: word, d: word, e: word)
      modifies this`h0, this`h1, this`h2, this`h3, this`h4
      ensures State() == Add(old(State()), Regs(a, b, c, d, e))
    {
      hide Plus;
      h0 := Plus(h0, a);
      h1 := Plus(h1, b);
      h2 := Plus(h2, c);
      h3 := Plus(h3, d);
      h4 := Plus(h4, e);
    }

    /** `hash1_write` without a buffer: starts anew after a digest, and empties a full buffer. */
    method Flush()
      requires Valid()
      modifies this, buf
      ensures Valid() && !bFinal && count < 64
      ensures message == if old(bFinal) then [] else old(message)
      ensures !old(bFinal) ==> count == if old(count) == 64 then 0 else old(count)
    {
      hide Hashed, Compress, DigestWith;
      if bFinal {
        Reset();
      }
      if count == 64 {
        assert buf[..64] == buf[..] == message[64 * blocks..64 * (blocks + 1)];
        Transform(buf[..]);
        EndBlock();
        count := 0;
      }
    }

    /** Octets go into the buffer while there are any and it has room. */
    method Store(inbuf: seq<octet>) returns (k: nat)
      requires Valid() && !bFinal
      modifies this`count, this`message, buf
      ensures Valid() && k == (if 64 - old(count) <= |inbuf| then 64 - old(count) else |inbuf|)
      ensures count == old(count) + k && message == old(message) + inbuf[..k]
    {
      hide Hashed, DigestWith;
      ghost var m := message;
      k := 0;
      while k < |inbuf| && count < 64
        invariant Valid() && k <= |inbuf| && count == old(count) + k && message == m + inbuf[..k] && blocks == old(blocks)
      {
        HashedPrefix(message, [inbuf[k]], blocks);
        StoreOne(inbuf[k]);
        assert m + inbuf[..k] + [inbuf[k]] == m + inbuf[..k + 1];
        k := k + 1;
      }
    }

    method StoreOne(b: octet)
      requires Valid() && !bFinal && count < 64 && Hashed(message + [b], blocks) == Hashed(message, blocks)
      modifies this`count, this`message, buf
      ensures Valid() && count == old(count) + 1 && message == old(message) + [b]
    {
      hide Hashed, DigestWith;
      ghost var rest := message[64 * blocks..];
      buf[count] := b;
      count := count + 1;
      assert (message + [b])[64 * blocks..] == rest + [b];
      assert buf[..count] == rest + [b];
      message := message + [b];
    }

    /** Whole blocks are hashed where they are. */
    method Whole(inbuf: seq<octet>) returns (k: nat)
      requires Valid() && !bFinal && count == 0
      modifies this
      ensures Valid() && !bFinal && count == 0 && k <= |inbuf| < k + 64 && message == old(message) + inbuf[..k]
    {
      hide Hashed, DigestWith, Compress;
      k := 0;
      ghost var m := message;
      assert m + inbuf[..0] == m;
      while k + 64 <= |inbuf|
        invariant Valid() && !bFinal && count == 0 && k <= |inbuf| && message == m + inbuf[..k]
        decreases |inbuf| - k
      {
        ghost var block := inbuf[k..k + 64];
        HashedPrefix(message, block, blocks);
        assert m + inbuf[..k] + block == m + inbuf[..k + 64];
        assert (message + block)[64 * blocks..64 * (blocks + 1)] == block;
        message := message + block;
        Transform(inbuf[k..k + 64]);
        EndBlock();
        k := k + 64;
      }
    }

    /** `hash1_write`. */
    method Write(inbuf: seq<octet>)
      requires Valid()
      modifies this, buf
      ensures Valid() && !bFinal
      ensures message == (if old(bFinal) then [] else old(message)) + inbuf
    {
      hide Hashed, DigestWith, Open;
      Flush();
      ghost var m := message;
      var rest := inbuf;
      if count != 0 {
        var k := Store(inbuf);
        Flush();
        rest := inbuf[k..];
        assert m + inbuf == m + inbuf[..k] + rest;
        if rest == [] {
          return;
        }
      }
      ghost var n := message;
      var k := Whole(rest);
      assert n + rest == n + rest[..k] + rest[k..];
      var _ := Store(rest[k..]);
    }

    /** The padding octets from `count` up to position `end`, the first being 0x80. */
    method Pad(end: nat)
      requires buf.Length == 64 && count < end <= 64
      modifies this`count, buf
      ensures count == end && buf[..end] == old(buf[..count]) + [0x80] + Repeat<octet>(0, end - old(count) - 1)
    {
      buf[count] := 0x80;
      count := count + 1;
      while count < end
        invariant old(count) < count <= end
        invariant buf[..count] == old(buf[..count]) + [0x80] + Repeat<octet>(0, count - old(count) - 1)
      {
        buf[count] := 0;
        count := count + 1;
      }
    }

    /** The bit count goes to the end of the buffer. */
    method AppendCount(msb: nat, lsb: nat)
      requires buf.Length == 64 && msb < UINT_LIMIT && lsb < UINT_LIMIT
      modifies buf
      ensures buf[..] == old(buf[..56]) + Octets8(msb * UINT_LIMIT + lsb)
    {
      hide Octet, Octets8;
      LengthHalves(msb, lsb);
      buf[56], buf[57], buf[58], buf[59] := Octet(msb / 0x100_0000), Octet(msb / 0x1_0000), Octet(msb / 0x100), Octet(msb);
      buf[60], buf[61], buf[62], buf[63] := Octet(lsb / 0x100_0000), Octet(lsb / 0x1_0000), Octet(lsb / 0x100), Octet(lsb);
      assert buf[..56] == old(buf[..56]);
    }

    /** `hash1_final`. */
    method Final()
      requires Valid()
      modifies this, buf
      ensures Valid() && bFinal && message == if old(bFinal) then [] else old(message)
    {
      hide Hashed, Compress, DigestWith, Octets8, Octets20, Open;
      Flush();
      var msb, lsb := OpenCount();
      if count < 56 {
        PadOnce(msb * UINT_LIMIT + lsb);
      } else {
        PadTwice(msb * UINT_LIMIT + lsb);
      }
      Close(msb, lsb);
    }

    method Close(msb: nat, lsb: nat)
      requires buf.Length == 64 && msb < UINT_LIMIT && lsb < UINT_LIMIT
      modifies this`bFinal, this`h0, this`h1, this`h2, this`h3, this`h4, buf
      ensures bFinal && buf[..20] == Octets20(Compress(old(State()), old(buf[..56]) + Octets8(msb * UINT_LIMIT + lsb)))
    {
      hide Compress, Octets8, Octets20, State;
      AppendCount(msb, lsb);
      Transform(buf[..]);
      PutDigest();
      bFinal := true;
    }

    method OpenCount() returns (msb: nat, lsb: nat)
      requires buf.Length == 64 && Open() && count < 64
      ensures msb < UINT_LIMIT && lsb < UINT_LIMIT && msb * UINT_LIMIT + lsb == 8 * (|message| % TWO_38)
    {
      hide Hashed;
      ByteCount(blocks, count);
      msb, lsb := BitCount(nblocks, count);
    }

    /** There is room for the padding and the length. */
    method PadOnce(ghost bits: nat)
      requires buf.Length == 64 && Open() && count < 56
      modifies this`count, buf
      ensures DigestWith(message, bits) == Octets20(Compress(State(), buf[..56] + Octets8(bits)))
    {
      hide Hashed, Compress, DigestWith, Octets8, Octets20;
      OneMoreBlock(message, blocks, message[64 * blocks..], bits);
      Pad(56);
    }

    /** The padding needs a block more. */
    method PadTwice(ghost bits: nat)
      requires buf.Length == 64 && Open() && 56 <= count < 64
      modifies this`count, this`nblocks, buf, this`h0, this`h1, this`h2, this`h3, this`h4
      ensures DigestWith(message, bits) == Octets20(Compress(State(), buf[..56] + Octets8(bits)))
    {
      hide Hashed, Compress, DigestWith, Octets8, Octets20;
      TwoMoreBlocks(message, blocks, message[64 * blocks..], bits);
      Pad(64);
      assert buf[..] == buf[..64];
      Transform(buf[..]);
      count := 0;
      nblocks := (nblocks + 1) % UINT_LIMIT;
      ClearBuffer(56);
      assert buf[..56] == Repeat<octet>(0, 56);
    }

    /** `hash1_get`: the digest, finished first if need be. */
    method Get() returns (digest: seq<octet>)
      requires Valid()
      modifies this, buf
      ensures Valid() && bFinal && message == old(message)
      ensures digest == DigestWith(message, 8 * (|message| % TWO_38))
      ensures |message| < TWO_38 ==> digest == Digest(message)
    {
      hide DigestWith;
      if !bFinal {
        Final();
      }
      digest := buf[..20];
    }

    method PutDigest()
      requires buf.Length == 64
      modifies buf
      ensures buf[..20] == Octets20(State())
    {
      var d := Octets20(State());
      forall i | 0 <= i < 20 {
        buf[i] := d[i];
      }
    }

    /** The bookkeeping behind a transformed block. */
    method EndBlock()
      requires buf.Length == 64 && !bFinal && nblocks == blocks % UINT_LIMIT && 64 * (blocks + 1) <= |message|
      requires State() == Compress(Hashed(message, blocks), message[64 * blocks..64 * (blocks + 1)])
      modifies this`nblocks, this`blocks
      ensures nblocks == blocks % UINT_LIMIT && blocks == old(blocks) + 1 && State() == Hashed(message, blocks)
    {
      HashedNext(message, blocks);
      NextBlock(blocks);
      hide Hashed, Compress;
      nblocks := (nblocks + 1) % UINT_LIMIT;
      blocks := blocks + 1;
    }
  }

  /** Octets that fill up the last block. */
  lemma FullBlock(message: seq<octet>, more: seq<octet>, b: nat)
    requires 64 * b <= |message| && |message| + |more| == 64 * (b + 1)
    ensures Hashed(message + more, b + 1) == Compress(Hashed(message, b), message[64 * b..] + more)
  {
    HashedPrefix(message, more, b);
    HashedNext(message + more, b);
    assert (message + more)[64 * b..64 * (b + 1)] == message[64 * b..] + more;
  }

  /** What is left fits into one block with its padding. */
  lemma OneMoreBlock(message: seq<octet>, blocks: nat, rest: seq<octet>, bits: nat)
    requires 64 * blocks <= |message| && rest == message[64 * blocks..] && |rest| < 56
    ensures DigestWith(message, bits) ==
            Octets20(Compress(Hashed(message, blocks), rest + [0x80] + Repeat<octet>(0, 55 - |rest|) + Octets8(bits)))
  {
    hide Octets8, Hashed, Compress, Octets20, Repeat, Fill, DigestWith;
    var tail := [0x80] + Repeat<octet>(0, 55 - |rest|) + Octets8(bits);
    Filled(blocks, |rest|);
    FullBlock(message, tail, blocks);
    assert Padded(message, bits) == message + tail;
    DigestOf(message, bits, blocks + 1);
    assert rest + tail == rest + [0x80] + Repeat<octet>(0, 55 - |rest|) + Octets8(bits);
  }

  lemma Filled(blocks: nat, c: nat)
    requires c < 64
    ensures Fill(64 * blocks + c) == if c < 56 then 55 - c else 119 - c
  {
    assert (64 * blocks + c) % 64 == c;
  }

  /** Or into two. */
  lemma TwoMoreBlocks(message: seq<octet>, blocks: nat, rest: seq<octet>, bits: nat)
    requires 64 * blocks <= |message| && rest == message[64 * blocks..] && 56 <= |rest| < 64
    ensures DigestWith(message, bits) ==
            Octets20(Compress(Compress(Hashed(message, blocks), rest + [0x80] + Repeat<octet>(0, 63 - |rest|)), Repeat<octet>(0, 56) + Octets8(bits)))
  {
    var first, last := [0x80] + Repeat<octet>(0, 63 - |rest|), Repeat<octet>(0, 56) + Octets8(bits);
    hide Hashed, Compress, Octets8, Octets20, DigestWith, Padded, Repeat;
    TwoBlocksOfPadding(message, blocks, |rest|, bits);
    TwoBlocksDigest(message, first, last, blocks, bits);
    assert rest + first == rest + [0x80] + Repeat<octet>(0, 63 - |rest|);
  }

  lemma TwoBlocksDigest(message: seq<octet>, first: seq<octet>, last: seq<octet>, b: nat, bits: nat)
    requires 64 * b <= |message| && |message| + |first| == 64 * (b + 1) && |last| == 64
    requires Padded(message, bits) == message + first + last
    ensures DigestWith(message, bits) ==
            Octets20(Compress(Compress(Hashed(message, b), message[64 * b..] + first), last))
  {
    hide Hashed, Compress, Octets20, DigestWith, Padded;
    TwoBlocks(message, first, last, b);
    DigestOf(message, bits, b + 2);
  }

  lemma TwoBlocks(message: seq<octet>, first: seq<octet>, last: seq<octet>, b: nat)
    requires 64 * b <= |message| && |message| + |first| == 64 * (b + 1) && |last| == 64
    ensures Hashed(message + first + last, b + 2) ==
            Compress(Compress(Hashed(message, b), message[64 * b..] + first), last)
  {
    hide Hashed, Compress;
    FullBlock(message, first, b);
    FullBlock(message + first, last, b + 1);
    assert (message + first)[64 * (b + 1)..] + last == last;
  }

  lemma DigestOf(message: seq<octet>, bits: nat, n: nat)
    requires |Padded(message, bits)| == 64 * n
    ensures DigestWith(message, bits) == Octets20(Hashed(Padded(message, bits), n))
  {
    hide Padded, Hashed, Octets20;
  }

  lemma TwoBlocksOfPadding(message: seq<octet>, blocks: nat, c: nat, bits: nat)
    requires |message| == 64 * blocks + c && 56 <= c < 64
    ensures Padded(message, bits) == message + ([0x80] + Repeat<octet>(0, 63 - c)) + (Repeat<octet>(0, 56) + Octets8(bits))
  {
    Filled(blocks, c);
    assert Repeat<octet>(0, 119 - c) == Repeat<octet>(0, 63 - c) + Repeat<octet>(0, 56);
  }

  lemma ByteCount(blocks: nat, count: nat)
    requires count < 64
    ensures (64 * blocks + count) % TWO_38 == 64 * (blocks % UINT_LIMIT) + count
  {
    var q, r := blocks / UINT_LIMIT, blocks % UINT_LIMIT;
    assert 64 * blocks + count == q * TWO_38 + (64 * r + count);
    RemainderOf(64 * blocks + count, q, 64 * r + count);
  }

  lemma RemainderOf(n: nat, q: nat, r: nat)
    requires n == q * TWO_38 + r && r < TWO_38
    ensures n % TWO_38 == r
  {
  }

  lemma HashedNext(message: seq<octet>, n: nat)
    requires 64 * (n + 1) <= |message|
    ensures Hashed(message, n + 1) == Compress(Hashed(message, n), message[64 * n..64 * (n + 1)])
    ensures Hashed(message, 0) == INITIAL
  {
    hide Compress;
  }

  lemma HashedNone(message: seq<octet>)
    ensures Hashed(message, 0) == INITIAL
  {
  }

  lemma NextBlock(b: nat)
    ensures (b % UINT_LIMIT + 1) % UINT_LIMIT == (b + 1) % UINT_LIMIT
  {
  }

  lemma StartOfSchedule(h: Regs, block: seq<word>)
    requires |block| == 16
    ensures Window(block, block, Later(0)) && Rounds(h, block, 0) == h
  {
  }

  /** However the message is cut into writes, the digest is that of the whole. */
  method HashChunks(chunks: seq<seq<octet>>) returns (digest: seq<octet>)
    ensures |Concat(chunks)| < TWO_38 ==> digest == Digest(Concat(chunks))
  {
    hide Digest, DigestWith;
    var hd := new Context();
    for i := 0 to |chunks|
      invariant hd.Valid() && !hd.bFinal && hd.message == Concat(chunks[..i]) && fresh(hd) && fresh(hd.buf)
    {
      assert chunks[..i + 1] == chunks[..i] + [chunks[i]];
      ConcatJoin(chunks[..i], [chunks[i]]);
      ConcatOne(chunks[i]);
      hd.Write(chunks[i]);
    }
    assert chunks[..|chunks|] == chunks;
    digest := hd.Get();
  }

  /** A length is determined by its eight octets. */
  lemma SameLength(a: nat, b: nat)
    requires a < 0x1_0000_0000_0000_0000 && b < 0x1_0000_0000_0000_0000 && LengthValues(a) == LengthValues(b)
    ensures a == b
  {
    SameValues(a, b);
    Nested(a);
    Nested(b);
    SameFrom(Quotients8(a), Quotients8(b), 0);
  }

  function Quotients8(n: nat): (q: seq<nat>)
    ensures |q| == 8
  {
    [n, n / 0x100, n / 0x1_0000, n / 0x100_0000, n / 0x1_0000_0000, n / 0x100_0000_0000, n / 0x1_0000_0000_0000,
     n / 0x100_0000_0000_0000]
  }

  lemma SameValues(a: nat, b: nat)
    requires LengthValues(a) == LengthValues(b)
    ensures forall k :: 0 <= k < 8 ==> Quotients8(a)[k] % 256 == Quotients8(b)[k] % 256
  {
    var r, s := LengthValues(a), LengthValues(b);
    assert r[0] == s[0] && r[1] == s[1] && r[2] == s[2] && r[3] == s[3] && r[4] == s[4] && r[5] == s[5] && r[6] == s[6] && r[7] == s[7];
  }

  lemma {:induction false} SameFrom(a: seq<nat>, b: seq<nat>, k: nat)
    requires |a| == 8 && |b| == 8 && k < 8 && a[7] / 256 == 0 && b[7] / 256 == 0
    requires forall i :: 0 <= i < 7 ==> a[i] / 256 == a[i + 1] && b[i] / 256 == b[i + 1]
    requires forall i :: 0 <= i < 8 ==> a[i] % 256 == b[i] % 256
    ensures a[k] == b[k]
    decreases 8 - k
  {
    if k < 7 {
      SameFrom(a, b, k + 1);
    }
    SameQuotient(a[k], b[k]);
  }

  lemma SameQuotient(a: nat, b: nat)
    requires a % 256 == b % 256 && a / 256 == b / 256
    ensures a == b
  {
  }

  lemma Nested(n: nat)
    requires n < 0x1_0000_0000_0000_0000
    ensures var q := Quotients8(n); q[7] / 256 == 0 && forall i :: 0 <= i < 7 ==> q[i] / 256 == q[i + 1]
  {
  }

  /**
   * The length field holds the standard's 64-bit length if and only if the message has less than 2^38 octets, that is up
   * to 2^32 - 1 whole blocks.
   */
  lemma LengthExact(m: nat)
    requires m < 0x2000_0000_0000_0000
    ensures LengthValues(8 * (m % TWO_38)) == LengthValues(8 * m) <==> m < TWO_38
  {
    hide LengthValues;
    var n := m % TWO_38;
    if LengthValues(8 * n) == LengthValues(8 * m) {
      SameLength(8 * n, 8 * m);
    }
  }
}
