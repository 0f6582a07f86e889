/** `next_power_of_two` (deps/libuv/src/unix/core.c), on unsigned 32-bit values. */
module PowerOfTwo {
  import opened Bytes

  predicate Bit(n: nat, i: nat) {
    if i == 0 then n % 2 == 1 else Bit(n / 2, i - 1)
  }

  function Shr(n: nat, s: nat): nat {
    if s == 0 then n else Shr(n / 2, s - 1)
  }

  function Or(a: nat, b: nat): nat
    decreases a + b
  {
    if a == 0 && b == 0 then 0 else 2 * Or(a / 2, b / 2) + if a % 2 == 1 || b % 2 == 1 then 1 else 0
  }

  lemma {:induction false} OrBit(a: nat, b: nat, i: nat)
    ensures Bit(Or(a, b), i) <==> Bit(a, i) || Bit(b, i)
    decreases i
  {
    if a == 0 && b == 0 {
    } else if i > 0 {
      OrBit(a / 2, b / 2, i - 1);
    }
  }

  lemma {:induction false} ShrBit(n: nat, s: nat, i: nat)
    ensures Bit(Shr(n, s), i) <==> Bit(n, i + s)
    decreases s
  {
    if s > 0 {
      ShrBit(n / 2, s - 1, i);
    }
  }

  lemma {:induction false} HighBits(n: nat, k: nat)
    requires n < Pow2(k)
    ensures forall i :: i >= k ==> !Bit(n, i)
  {
    forall i | i >= k
      ensures !Bit(n, i)
    {
      NoBit(n, k, i);
    }
  }

  lemma {:induction false} NoBit(n: nat, k: nat, i: nat)
    requires n < Pow2(k) && i >= k
    ensures !Bit(n, i)
    decreases i
  {
    if i > 0 {
      NoBit(n / 2, if k == 0 then 0 else k - 1, i - 1);
    }
  }

  lemma {:induction false} TopBit(n: nat, k: nat)
    requires Pow2(k) <= n < Pow2(k + 1)
    ensures Bit(n, k)
  {
    if k > 0 {
      TopBit(n / 2, k - 1);
    }
  }

  /** The top `m` of the bits up to `k` are set, and none above. */
  ghost predicate Smeared(n: nat, k: nat, m: nat) {
    (forall i: nat :: i <= k < i + m ==> Bit(n, i)) && forall i: nat :: i > k ==> !Bit(n, i)
  }

  /** A shift by as many bits as are smeared already doubles their number. */
  lemma SmearStep(n: nat, k: nat, m: nat)
    requires Smeared(n, k, m)
    ensures Smeared(Or(n, Shr(n, m)), k, 2 * m)
  {
    hide Bit, Or, Shr;
    var r := Or(n, Shr(n, m));
    forall i: nat | i <= k < i + 2 * m
      ensures Bit(r, i)
    {
      OrBit(n, Shr(n, m), i);
      ShrBit(n, m, i);
      assert i + m <= k ==> Bit(n, i + m);
    }
    forall i: nat | i > k
      ensures !Bit(r, i)
    {
      OrBit(n, Shr(n, m), i);
      ShrBit(n, m, i);
      assert !Bit(n, i + m);
    }
  }

  lemma {:induction false} AllOnes(n: nat, k: nat)
    requires (forall i: nat :: i <= k ==> Bit(n, i)) && forall i: nat :: i > k ==> !Bit(n, i)
    ensures n == Pow2(k + 1) - 1
  {
    assert Bit(n, 0);
    if k > 0 {
      forall i: nat
        ensures Bit(n / 2, i) == Bit(n, i + 1)
      {
      }
      AllOnes(n / 2, k - 1);
    } else {
      forall i: nat
        ensures Bit(n / 2, i) == Bit(n, i + 1)
      {
      }
      NoBits(n / 2);
    }
  }

  lemma {:induction false} NoBits(n: nat)
    requires forall i: nat :: !Bit(n, i)
    ensures n == 0
    decreases n
  {
    assert !Bit(n, 0);
    if n > 0 {
      forall i: nat
        ensures !Bit(n / 2, i)
      {
        assert !Bit(n, i + 1);
      }
      NoBits(n / 2);
    }
  }

  const TWO_31: nat := 0x8000_0000
  /** The least `k` for which 2^k is not below `n`. */
  function LeastPower(n: nat): (k: nat)
    requires n > 0
    ensures n <= Pow2(k) && (k > 0 ==> Pow2(k - 1) < n)
  {
    if n == 1 then 0 else 1 + LeastPower((n + 1) / 2)
  }

  /** The shifts and ors of lines 767 to 771. */
  method Smear(n: nat, ghost k: nat) returns (r: nat)
    requires k < 32 && (n == 0 || Pow2(k) <= n < Pow2(k + 1))
    ensures r == if n == 0 then 0 else Pow2(k + 1) - 1
  {
    if n > 0 {
      TopBit(n, k);
      HighBits(n, k + 1);
      assert Smeared(n, k, 1);
    }
    hide Bit, Or, Shr, Smeared;
    r := Step(n, 1, k);
    r := Step(r, 2, k);
    r := Step(r, 4, k);
    r := Step(r, 8, k);
    r := Step(r, 16, k);
    if n > 0 {
      AllSmeared(r, k);
    }
  }

  /** `val |= val >> s` */
  method Step(n: nat, s: nat, ghost k: nat) returns (r: nat)
    ensures n == 0 ==> r == 0
    ensures Smeared(n, k, s) ==> Smeared(r, k, 2 * s)
  {
    r := Or(n, Shr(n, s));
    NothingToShift(s);
    if Smeared(n, k, s) {
      SmearStep(n, k, s);
    }
    hide Smeared, Or, Shr;
  }

  lemma AllSmeared(n: nat, k: nat)
    requires Smeared(n, k, 32) && k < 32
    ensures n == Pow2(k + 1) - 1
  {
    hide Bit;
    AllOnes(n, k);
  }

  lemma {:induction false} NothingToShift(s: nat)
    ensures Or(0, Shr(0, s)) == 0
  {
    if s > 0 {
      NothingToShift(s - 1);
    }
  }

  lemma Powers()
    ensures Pow2(31) == TWO_31 && Pow2(32) == UINT_LIMIT
  {
    assert Pow2(8) == 256;
    assert Pow2(16) == 0x1_0000;
    assert Pow2(24) == 0x100_0000;
  }

  lemma Exponent(val: nat)
    requires 1 <= val < UINT_LIMIT
    ensures LeastPower(val) <= 32 && (val <= TWO_31 <==> LeastPower(val) <= 31)
  {
    Bounds(val, LeastPower(val));
  }

  lemma Bounds(val: nat, k: nat)
    requires 1 <= val < UINT_LIMIT && val <= Pow2(k) && (k > 0 ==> Pow2(k - 1) < val)
    ensures k <= 32 && (val <= TWO_31 <==> k <= 31)
  {
    hide Pow2;
    Powers();
    if k > 32 {
      Pow2Grows(32, k - 1);
    } else if k <= 31 {
      Pow2Grows(k, 31);
    }
  }

  lemma OneLess(val: nat, k: nat)
    requires val >= 1 && val <= Pow2(k) && (k > 0 ==> Pow2(k - 1) < val)
    ensures val == 1 ==> k == 0 && Pow2(0) == 1
    ensures val > 1 ==> k > 0 && Pow2(k - 1) <= val - 1 < Pow2(k)
  {
    if k > 0 { Pow2Grows(0, k - 1); }
  }

  /**
   * `next_power_of_two` gives the least power of two that is not below its argument, if and only if that fits into 32
   * bits: above 2^31 the last addition wraps around to 0.
   */
  method NextPowerOfTwo(val: nat) returns (r: nat)
    requires 1 <= val < UINT_LIMIT
    ensures r == if val <= TWO_31 then Pow2(LeastPower(val)) else 0
  {
    hide Pow2, LeastPower;
    ghost var k := LeastPower(val);
    Exponent(val);
    Powers();
    Pow2Grows(k, if k <= 31 then 31 else 32);
    OneLess(val, k);
    var n := Smear(val - 1, if k == 0 then 0 else k - 1);
    r := (n + 1) % UINT_LIMIT;
  }
}
