/** The growable buffer `membuf_t` of src/ws/membuf.cpp. */
module MembufModule {
  import opened Bytes

  /** The largest data size for which the doubling loop never leaves the 32-bit range. */
  const MAX_SIZE: nat := 0x8000_0000

  /** The first of `cap`, `2 * cap`, `4 * cap`, ... that is at least `need`. */
  function LeastDoubling(cap: nat, need: nat): (r: nat)
    requires cap > 0
    decreases need - cap
  {
    if cap >= need then cap else LeastDoubling(2 * cap, need)
  }

  /** `r` is `cap` doubled some number of times. */
  ghost predicate IsDoubling(cap: nat, r: nat)
    requires cap > 0
    decreases r
  {
    r == cap || (r > cap && r % 2 == 0 && IsDoubling(cap, r / 2))
  }

  lemma {:induction false} DoublingTwice(cap: nat, r: nat)
    requires cap > 0 && IsDoubling(2 * cap, r)
    ensures IsDoubling(cap, r)
  {
    if r != 2 * cap {
      DoublingTwice(cap, r / 2);
    }
  }

  /** What the loop computes: sufficient, a doubling of the start, and less than twice what is needed. */
  lemma {:induction false} LeastDoublingIsLeast(cap: nat, need: nat)
    requires cap > 0
    ensures var r := LeastDoubling(cap, need); r >= need && IsDoubling(cap, r) && (r == cap || r < 2 * need)
    decreases need - cap
  {
    if cap < need {
      LeastDoublingIsLeast(2 * cap, need);
      DoublingTwice(cap, LeastDoubling(2 * cap, need));
    }
  }

  // ----- the loop of membuf_reserve in 32 bits -----

  /** `new_buffer_size` before the loop: `buffer_size` has 64 bits, but the doubled value is stored in 32. */
  function LoopStart(cap: nat, extra: nat): (r: nat) {
    Uint(if cap == 0 then extra else 2 * cap)
  }

  /** `new_data_size`, stored in 32 bits too. */
  function LoopGoal(size: nat, extra: nat): (r: nat) {
    Uint(size + extra)
  }

  /** The value of `new_buffer_size` after `k` turns of `new_buffer_size <<= 1`. */
  function Shifted(start: nat, k: nat): (r: nat) {
    if k == 0 then start else Uint(2 * Shifted(start, k - 1))
  }

  /** The loop ends after exactly `k` turns. */
  ghost predicate StopsAfter(start: nat, goal: nat, k: nat) {
    Shifted(start, k) >= goal && forall i: nat :: i < k ==> Shifted(start, i) < goal
  }

  /** `membuf_reserve` returns, and the buffer has room for `extra` octets then. */
  ghost predicate ReserveGivesRoom(cap: nat, size: nat, extra: nat)
    requires size <= cap
  {
    extra <= cap - size ||
    (exists k: nat :: StopsAfter(LoopStart(cap, extra), LoopGoal(size, extra), k) &&
                      size + extra <= Shifted(LoopStart(cap, extra), k))
  }

  lemma {:induction false} ShiftedPowerOfTwo(j: nat, k: nat)
    requires j <= 31
    ensures Shifted(Pow2(j), k) == if j + k <= 31 then Pow2(j + k) else 0
  {
    Pow2At31();
    if k > 0 {
      ShiftedPowerOfTwo(j, k - 1);
      if j + k <= 31 { Pow2Grows(j + k, 31); }
    } else {
      Pow2Grows(j, 31);
    }
  }

  lemma {:induction false} ShiftedZero(k: nat)
    ensures Shifted(0, k) == 0
  {
    if k > 0 {
      ShiftedZero(k - 1);
    }
  }

  lemma Pow2At31()
    ensures Pow2(31) == MAX_SIZE
  {
    assert Pow2(8) == 256 by { OctetWidth(); }
    assert Pow2(12) == 0x1000;
    assert Pow2(16) == 0x1_0000;
    assert Pow2(20) == 0x10_0000;
    assert Pow2(24) == 0x100_0000;
    assert Pow2(28) == 0x1000_0000;
  }

  /** Doubling a power of two of 2^31 or more leaves nothing in 32 bits. */
  lemma {:induction false} StartOfPowerOfTwo(j: nat, extra: nat)
    ensures LoopStart(Pow2(j), extra) == if j <= 30 then Pow2(j + 1) else 0
  {
    Pow2At31();
    if j <= 30 {
      Pow2Grows(j + 1, 31);
    } else if j > 31 {
      StartOfPowerOfTwo(j - 1, extra);
      TwiceMultiple(2 * Pow2(j - 1));
    }
    Pow2Grows(0, j);
  }

  lemma TwiceMultiple(n: nat)
    requires n % UINT_LIMIT == 0
    ensures 2 * n % UINT_LIMIT == 0
  {
  }

  /** From a power of two the loop never gets above 2^31, and gets there if it starts below. */
  lemma LoopValues(j: nat, extra: nat, k: nat)
    ensures Shifted(LoopStart(Pow2(j), extra), k) <= MAX_SIZE
    ensures j <= 30 ==> Shifted(LoopStart(Pow2(j), extra), 30 - j) == MAX_SIZE
  {
    StartOfPowerOfTwo(j, extra);
    Pow2At31();
    if j > 30 {
      ShiftedZero(k);
    } else {
      ShiftedPowerOfTwo(j + 1, k);
      ShiftedPowerOfTwo(j + 1, 30 - j);
      if j + 1 + k <= 31 { Pow2Grows(j + 1 + k, 31); }
    }
  }

  lemma {:induction false} SomewhereFirst(start: nat, goal: nat, k: nat) returns (first: nat)
    requires Shifted(start, k) >= goal
    ensures StopsAfter(start, goal, first)
  {
    first := k;
    if i: nat :| i < k && Shifted(start, i) >= goal {
      first := SomewhereFirst(start, goal, i);
    }
  }

  /**
   * The loop compares two 32-bit values: from a power of two, which is what every buffer created with 128 octets
   * holds, it ends if and only if what is left of the needed size in 32 bits is zero, or can be reached by doubling.
   */
  lemma DoublingStopsIff(j: nat, size: nat, extra: nat)
    ensures (exists k: nat :: StopsAfter(LoopStart(Pow2(j), extra), LoopGoal(size, extra), k)) <==>
            LoopGoal(size, extra) == 0 || (j <= 30 && LoopGoal(size, extra) <= MAX_SIZE)
  {
    var start, goal := LoopStart(Pow2(j), extra), LoopGoal(size, extra);
    StartOfPowerOfTwo(j, extra);
    hide LoopStart, LoopGoal, Pow2, StopsAfter;
    if goal == 0 {
      var _ := SomewhereFirst(start, goal, 0);
    } else if j <= 30 && goal <= MAX_SIZE {
      LoopValues(j, extra, 0);
      var _ := SomewhereFirst(start, goal, 30 - j);
    } else {
      forall k: nat
        ensures !StopsAfter(start, goal, k)
      {
        NeverReached(j, extra, goal, k);
      }
    }
  }

  lemma NeverReached(j: nat, extra: nat, goal: nat, k: nat)
    requires goal > 0 && (j > 30 || goal > MAX_SIZE)
    ensures !StopsAfter(LoopStart(Pow2(j), extra), goal, k)
  {
    StartOfPowerOfTwo(j, extra);
    LoopValues(j, extra, k);
    if j > 30 { ShiftedZero(k); }
  }

  /**
   * From a power of two `membuf_reserve` returns with room for what is asked if and only if there is room already or
   * at most 2^31 octets are needed in all.
   */
  lemma ReserveSucceedsIff(j: nat, size: nat, extra: nat)
    requires size <= Pow2(j)
    ensures ReserveGivesRoom(Pow2(j), size, extra) <==> extra <= Pow2(j) - size || size + extra <= MAX_SIZE
  {
    var cap := Pow2(j);
    var start, goal := LoopStart(cap, extra), LoopGoal(size, extra);
    if extra > cap - size {
      if size + extra <= MAX_SIZE {
        Pow2At31();
        if j > 30 { Pow2Grows(31, j); }
        LoopValues(j, extra, 0);
        hide LoopStart, Pow2, StopsAfter;
        var k := SomewhereFirst(start, goal, 30 - j);
        assert goal == size + extra;
        StopsAbove(start, goal, k);
      } else {
        forall k: nat
          ensures Shifted(start, k) < size + extra
        {
          LoopValues(j, extra, k);
        }
      }
    }
  }

  /** A buffer without any octets gets exactly what is asked for, unless that does not fit into 32 bits. */
  lemma ReserveFromNothing(extra: nat)
    ensures ReserveGivesRoom(0, 0, extra) <==> extra < UINT_LIMIT
  {
    var start, goal := LoopStart(0, extra), LoopGoal(0, extra);
    if extra > 0 {
      var _ := SomewhereFirst(start, goal, 0);
      forall k: nat | k > 0
        ensures !StopsAfter(start, goal, k)
      {
        assert !(Shifted(start, 0) < goal);
      }
      assert StopsAfter(start, goal, 0) && Shifted(start, 0) == start;
    }
  }

  lemma StopsAbove(start: nat, goal: nat, k: nat)
    requires StopsAfter(start, goal, k)
    ensures Shifted(start, k) >= goal
  {
  }

  /** One octet more than 2^31 in a fresh buffer of 128: no number of turns is enough. */
  lemma ReserveSpins(k: nat)
    ensures !StopsAfter(LoopStart(128, MAX_SIZE + 1), LoopGoal(0, MAX_SIZE + 1), k)
    ensures !ReserveGivesRoom(128, 0, MAX_SIZE + 1)
  {
    assert Pow2(7) == 128;
    ReserveSucceedsIff(7, 0, MAX_SIZE + 1);
    NeverReached(7, MAX_SIZE + 1, MAX_SIZE + 1, k);
  }

  /** With 2^32 octets needed nothing is left of them in 32 bits: the loop ends at once, with 256 octets. */
  lemma ReserveFallsShort()
    ensures var start, goal := LoopStart(128, UINT_LIMIT - 1), LoopGoal(1, UINT_LIMIT - 1);
            StopsAfter(start, goal, 0) && Shifted(start, 0) == 256 && !ReserveGivesRoom(128, 1, UINT_LIMIT - 1)
  {
    assert Pow2(7) == 128;
    ReserveSucceedsIff(7, 1, UINT_LIMIT - 1);
  }

  /** The capacity after `membuf_reserve`, when no 32-bit computation wraps. */
  function GrownCapacity(cap: nat, size: nat, extra: nat): (r: nat)
    requires size <= cap
  {
    if extra <= cap - size then cap
    else if cap == 0 then extra
    else LeastDoubling(2 * cap, size + extra)
  }

  /** What is left of `size` octets without `n` of them from `offset` on: where `membuf_remove` stores its zero. */
  function SizeWithout(size: nat, offset: nat, n: nat): (r: nat)
    requires offset < size
  {
    if offset + n >= size then offset else size - n
  }

  /** The store of `membuf_remove` stays inside the buffer, unless nothing is removed from a full one. */
  lemma StoreIndexFits(cap: nat, size: nat, offset: nat, n: nat)
    requires offset < size <= cap
    ensures SizeWithout(size, offset, n) < cap <==> n > 0 || size < cap
    ensures !(n > 0 || size < cap) ==> SizeWithout(size, offset, n) == cap
  {
  }

  lemma MaskedTail(was: bytes, now: bytes, offset: nat, key: bytes)
    requires |key| == 4 && offset <= |was| == |now|
    requires forall j :: 0 <= j < offset ==> now[j] == was[j]
    requires forall j :: 0 <= j < |was| - offset ==> now[offset + j] == Xor(was[offset + j], key[j % 4])
    ensures now == was[..offset] + Masked(was[offset..], key)
  {
    hide Xor;
    assert now[..offset] == was[..offset];
    var tail, masked := now[offset..], Masked(was[offset..], key);
    forall j | 0 <= j < |tail|
      ensures tail[j] == masked[j]
    {
      assert tail[j] == now[offset + j] && was[offset..][j] == was[offset + j];
    }
    assert tail == masked && now == now[..offset] + tail;
  }

  class Membuf {
    /** `data` points to `buffer_size` octets: `data.Length` is `buffer_size`. */
    var data: array<byte>
    var size: nat

    ghost predicate Valid()
      reads this
    {
      size <= data.Length
    }

    function Contents(): (s: bytes)
      requires Valid()
      reads this, data
      ensures |s| == size
    {
      data[..size]
    }

    /** `membuf_init` */
    constructor (initialSize: nat)
      ensures Valid() && fresh(data) && data.Length == initialSize && Contents() == []
      ensures forall i :: 0 <= i < data.Length ==> data[i] == 0
    {
      data := new byte[initialSize](_ => 0);
      size := 0;
    }

    /** `membuf_clear`: with `maxSize` of at most 1 the allocation is kept. */
    method Clear(maxSize: nat)
      requires Valid()
      modifies this, data
      ensures Valid() && Contents() == []
      ensures data == old(data) || fresh(data)
      ensures data.Length == if old(size) > 0 && 1 < maxSize < old(data.Length) then maxSize else old(data.Length)
      ensures old(size) > 0 ==> forall i :: 0 <= i < data.Length ==> data[i] == 0
    {
      if data.Length > 0 && size > 0 {
        if maxSize > 1 && data.Length > maxSize {
          data := new byte[maxSize](_ => 0);
        }
        size := 0;
        forall i | 0 <= i < data.Length { data[i] := 0; }
      }
    }

    /** The 32-bit doubling loop of `membuf_reserve`: no wrap-around below MAX_SIZE. */
    static method DoubleUntil(start: nat, need: nat) returns (capacity: nat)
      requires 0 < start < UINT_LIMIT && (need <= MAX_SIZE || need <= start)
      ensures capacity == LeastDoubling(start, need) && capacity < UINT_LIMIT
    {
      capacity := start;
      while capacity < need
        invariant 0 < capacity < UINT_LIMIT
        invariant LeastDoubling(capacity, need) == LeastDoubling(start, need)
        decreases need - capacity
      {
        capacity := Uint(2 * capacity);
      }
    }

    /** `membuf_reserve` */
    method Reserve(extra: nat)
      requires Valid()
      requires extra <= data.Length - size || size + extra <= MAX_SIZE || (data.Length == 0 && extra < UINT_LIMIT)
      modifies this`data
      ensures Valid() && Contents() == old(Contents())
      ensures data == old(data) || fresh(data)
      ensures data.Length == GrownCapacity(old(data.Length), size, extra) && extra <= data.Length - size
      ensures data != old(data) ==> forall i :: size <= i < data.Length ==> data[i] == 0
    {
      if extra > data.Length - size {
        var capacity := LoopStart(data.Length, extra);
        var need := LoopGoal(size, extra);
        LeastDoublingIsLeast(capacity, need);
        capacity := DoubleUntil(capacity, need);
        var old_data := data;
        data := new byte[capacity](i => 0);
        forall i | 0 <= i < size { data[i] := old_data[i]; }
      }
    }

    /** `membuf_append_data` */
    method Append(s: bytes)
      requires Valid()
      requires |s| <= data.Length - size || size + |s| <= MAX_SIZE || (data.Length == 0 && |s| < UINT_LIMIT)
      modifies this, data
      ensures Valid() && Contents() == old(Contents()) + s
      ensures data == old(data) || fresh(data)
      ensures data.Length == GrownCapacity(old(data.Length), old(size), |s|)
    {
      if |s| == 0 {
        return;
      }
      Reserve(|s|);
      forall i | 0 <= i < |s| { data[size + i] := s[i]; }
      size := size + |s|;
    }

    /** `membuf_remove`, which also stores a zero after the remaining data. */
    method Remove(offset: nat, n: nat)
      requires Valid() && (n > 0 || size < data.Length || offset >= size)
      modifies this`size, data
      ensures Valid()
      ensures Contents() ==
              if offset >= old(size) then old(Contents())
              else old(Contents())[..offset] + old(Contents())[if offset + n < old(size) then offset + n else old(size)..]
      ensures offset < old(size) ==> size < data.Length && data[size] == 0
    {
      if offset >= size {
        return;
      }
      StoreIndexFits(data.Length, size, offset, n);
      if offset + n < size {
        CloseGap(offset, n);
      }
      size := SizeWithout(size, offset, n);
      ghost var left := data[..size];
      if data.Length >= size {
        data[size] := 0;
      }
      assert data[..size] == left;
    }

    /** The octets behind the range move down to its start. */
    method CloseGap(offset: nat, n: nat)
      requires Valid() && offset + n < size
      modifies data
      ensures data[..size - n] == old(data[..offset]) + old(data[offset + n..size])
    {
      ghost var was := data[..];
      forall i | offset <= i < size - n { data[i] := data[i + n]; }
      assert data[..offset] == was[..offset];
      ghost var now, moved := data[offset..size - n], was[offset + n..size];
      forall k | 0 <= k < |now|
        ensures now[k] == moved[k]
      {
        assert data[offset + k] == was[offset + k + n];
      }
      assert now == moved;
      assert data[..size - n] == data[..offset] + data[offset..size - n];
    }

    /** `do_mask` over the tail of the buffer, in place. */
    method MaskFrom(offset: nat, key: bytes)
      requires Valid() && offset <= size && |key| == 4
      modifies data
      ensures Contents() == old(Contents())[..offset] + Masked(old(Contents())[offset..], key)
    {
      var i := 0;
      while i < size - offset
        invariant 0 <= i <= size - offset
        invariant forall j :: 0 <= j < offset ==> data[j] == old(data[j])
        invariant forall j :: 0 <= j < i ==> data[offset + j] == Xor(old(data[offset + j]), key[j % 4])
        invariant forall j :: offset + i <= j < size ==> data[j] == old(data[j])
      {
        data[offset + i] := Xor(data[offset + i], key[i % 4]);
        i := i + 1;
      }
      MaskedTail(old(Contents()), Contents(), offset, key);
    }
  }

  lemma GrowthSuffices(cap: nat, size: nat, extra: nat)
    requires size <= cap
    ensures var r := GrownCapacity(cap, size, extra); r >= size + extra && (r == cap || r >= 2 * cap)
  {
    if cap > 0 {
      LeastDoublingIsLeast(2 * cap, size + extra);
      DoublingGrows(2 * cap, size + extra);
    }
  }

  lemma {:induction false} DoublingGrows(cap: nat, need: nat)
    requires cap > 0
    ensures LeastDoubling(cap, need) >= cap
    decreases need - cap
  {
    if cap < need {
      DoublingGrows(2 * cap, need);
    }
  }

  /** State of an append-only run: capacity, size and octets copied by reallocations so far. */
  datatype Usage = Usage(capacity: nat, size: nat, copied: nat)

  function AppendUsage(u: Usage, n: nat): (r: Usage)
    requires u.size <= u.capacity
    ensures r.size == u.size + n <= r.capacity
  {
    var capacity := GrownCapacity(u.capacity, u.size, n);
    GrowthSuffices(u.capacity, u.size, n);
    Usage(capacity, u.size + n, if capacity == u.capacity then u.copied else u.copied + u.size)
  }

  /** The octets already there are copied exactly when the new ones do not fit. */
  lemma CopiesIff(u: Usage, n: nat)
    requires u.size <= u.capacity
    ensures AppendUsage(u, n).copied == if n > u.capacity - u.size then u.copied + u.size else u.copied
  {
    GrowthSuffices(u.capacity, u.size, n);
  }

  function AppendRun(u: Usage, sizes: seq<nat>): (r: Usage)
    requires u.size <= u.capacity
    ensures r.size <= r.capacity
    decreases |sizes|
  {
    if sizes == [] then u else AppendRun(AppendUsage(u, sizes[0]), sizes[1..])
  }

  /** Growth at least doubles, so the copies stay below the capacity; and below twice the size. */
  ghost predicate Amortized(u: Usage, initial: nat) {
    && u.size <= u.capacity && u.copied < u.capacity
    && initial <= u.capacity
    && (u.copied == 0 || (initial < u.size && u.copied < 2 * u.size))
  }

  lemma AppendKeepsAmortized(u: Usage, n: nat, initial: nat)
    requires Amortized(u, initial)
    ensures Amortized(AppendUsage(u, n), initial)
  {
    GrowthSuffices(u.capacity, u.size, n);
  }

  lemma {:induction false} RunKeepsAmortized(u: Usage, sizes: seq<nat>, initial: nat)
    requires Amortized(u, initial)
    ensures Amortized(AppendRun(u, sizes), initial)
    decreases |sizes|
  {
    if sizes != [] {
      AppendKeepsAmortized(u, sizes[0], initial);
      RunKeepsAmortized(AppendUsage(u, sizes[0]), sizes[1..], initial);
    }
  }

  /** Starting empty with some capacity, reallocations copy less than twice the final size once the buffer grew. */
  lemma AppendsCopyLessThanTwice(initial: nat, sizes: seq<nat>)
    requires initial > 0
    ensures var r := AppendRun(Usage(initial, 0, 0), sizes);
            r.copied == 0 || (r.size > initial && r.copied < 2 * r.size)
  {
    RunKeepsAmortized(Usage(initial, 0, 0), sizes, initial);
  }
}
