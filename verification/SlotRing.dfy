/** The ring of async slots of src/ws/CAsyncs.cpp. */
module SlotRings {
  import opened Sequences

  function Wrap(a: nat, m: nat): nat {
    if a < m then a else a - m
  }

  /** The slots `0..|q|-1` in cyclic order, starting anywhere. */
  ghost predicate IsRing(q: seq<nat>) {
    forall i :: 0 <= i < |q| ==> q[0] < |q| && q[i] == Wrap(q[0] + i, |q|)
  }

  /** The queue after `n` turns of `pop_front` and `push_back`. */
  function Rotate<T>(q: seq<T>, n: nat): (r: seq<T>)
    requires n <= |q|
    ensures |r| == |q|
  {
    q[n..] + q[..n]
  }

  lemma RotateKeepsRing(q: seq<nat>, n: nat)
    requires IsRing(q) && n <= |q|
    ensures IsRing(Rotate(q, n))
  {
    var r := Rotate(q, n);
    forall i | 0 <= i < |r|
      ensures r[0] < |r| && r[i] == Wrap(r[0] + i, |r|)
    {
      assert r[i] == q[Wrap(n + i, |q|)];
      assert r[0] == q[Wrap(n, |q|)];
    }
  }

  /** The test of the inner loop: `k` free slots from position `p` on, with ids that never step back. */
  ghost predicate Window(q: seq<nat>, busy: set<nat>, p: nat, k: nat)
    requires p + k <= |q|
  {
    && (forall i :: p <= i < p + k ==> q[i] !in busy)
    && (forall i :: p < i < p + k ==> q[i - 1] <= q[i])
  }

  /** In a ring a window is a run of consecutive ids, so it does not contain the wrap from the last slot to slot 0. */
  lemma {:induction false} WindowIsContiguous(q: seq<nat>, busy: set<nat>, p: nat, k: nat, i: nat)
    requires IsRing(q) && p + k <= |q| && Window(q, busy, p, k) && p <= i < p + k
    ensures q[i] == q[p] + (i - p) && q[i] < |q|
  {
    NextId(q, i);
    if p < i {
      WindowIsContiguous(q, busy, p, k, i - 1);
      NextId(q, i - 1);
    }
  }

  lemma NextId(q: seq<nat>, i: nat)
    requires IsRing(q) && i < |q|
    ensures q[i] < |q| && (i + 1 < |q| ==> q[i + 1] == if q[i] + 1 == |q| then 0 else q[i] + 1)
  {
  }

  class SlotRing {
    /** `m_asyncQueue`, by slot id. */
    var queue: seq<nat>

    ghost predicate Valid()
      reads this
    {
      IsRing(queue)
    }

    constructor (size: nat)
      ensures Valid() && |queue| == size && forall i :: 0 <= i < size ==> queue[i] == i
    {
      queue := seq(size, i => i);
    }

    /** `acquireOneUvAsync`: only the head is looked at. */
    method AcquireOne(busy: set<nat>) returns (found: bool, id: nat)
      requires Valid()
      modifies this
      ensures Valid()
      ensures found <==> old(queue) != [] && old(queue)[0] !in busy
      ensures found ==> id == old(queue)[0] && queue == Rotate(old(queue), 1)
      ensures !found ==> queue == old(queue)
    {
      if |queue| == 0 {
        return false, 0;
      }
      id := queue[0];
      found := id !in busy;
      if found {
        RotateKeepsRing(queue, 1);
        queue := queue[1..] + [id];
      }
    }

    /** The inner loop of `acquireManyUvAsync`, lines 170 to 177. */
    method HeadIsWindow(k: nat, busy: set<nat>) returns (broken: bool)
      requires k <= |queue|
      ensures broken <==> !Window(queue, busy, 0, k)
    {
      broken := false;
      var previous := 0;
      var i := 0;
      while i < k
        invariant i <= k && Window(queue, busy, 0, i) && (previous == if i == 0 then 0 else queue[i - 1])
      {
        var id := queue[i];
        if id in busy || id < previous {
          return true;
        }
        previous := id;
        i := i + 1;
      }
    }

    /** Lines 178 to 182 and 189 to 195: `k` slots go from the head to the back, one by one. */
    method Take(k: nat) returns (result: seq<nat>)
      requires k <= |queue|
      modifies this
      ensures result == old(queue)[..k] && queue == Rotate(old(queue), k)
    {
      hide Rotate;
      result := [];
      var i := 0;
      ghost var before := queue;
      NoTurn(before);
      while i < k
        invariant i <= k && result == before[..i] && queue == Rotate(before, i)
      {
        NextTurn(before, i);
        var id := queue[0];
        result := result + [id];
        queue := queue[1..] + [id];
        i := i + 1;
      }
    }

    /**
     * `acquireManyUvAsync`: the first window that starts in positions 0 to n-1-k; the `skipped` slots before it, and
     * those it takes, go to the back. Without such a window every start has been tried, and the queue is left turned.
     * `seen(p)` are the slots found in use when the slots from position `p` on are looked at: meanwhile the loop thread
     * frees slots, and senders fill those that they were given before, without the ring's lock.
     */
    method AcquireMany(k: nat, seen: nat -> set<nat>) returns (found: bool, result: seq<nat>, ghost skipped: nat)
      requires Valid()
      modifies this
      ensures Valid() && |queue| == old(|queue|)
      ensures found ==>
                && skipped + k < |queue| && Window(old(queue), seen(skipped), skipped, k)
                && (forall p :: 0 <= p < skipped ==> !Window(old(queue), seen(p), p, k))
                && result == old(queue)[skipped..skipped + k] && queue == Rotate(old(queue), skipped + k)
      ensures !found ==> forall p :: 0 <= p < |queue| - k ==> !Window(old(queue), seen(p), p, k)
      ensures !found ==> skipped == (if k <= |queue| then |queue| - k else 0) && queue == Rotate(old(queue), skipped)
      ensures k > 0 && |queue| > 0 && Steady(seen) ==> (found <==> Obtainable(old(queue)[0], |queue|, seen(0), k))
    {
      hide Window, IsRing, Rotate, Obtainable, Steady;
      found, result, skipped := false, [], 0;
      if |queue| == 0 || k > |queue| {
        NoTurn(queue);
        TooMany(queue, seen(0), k);
        return;
      }
      ghost var before := queue;
      var begin := 0;
      found, begin := Search(k, seen);
      skipped := begin;
      RotateKeepsRing(before, begin);
      FoundIff(before, seen, k, found, begin);
      if found {
        result := TakeWindow(before, begin, k);
      }
    }

    /** The window at the head goes to the back, behind the slots before it. */
    method TakeWindow(ghost before: seq<nat>, ghost begin: nat, k: nat) returns (result: seq<nat>)
      requires IsRing(before) && begin + k <= |before| && queue == Rotate(before, begin)
      modifies this
      ensures result == before[begin..begin + k] && queue == Rotate(before, begin + k) && IsRing(queue)
    {
      hide IsRing, Rotate;
      RotateTwice(before, begin, k);
      RotateKeepsRing(before, begin + k);
      result := Take(k);
    }

    /** The search loop, lines 164 to 186. */
    method Search(k: nat, seen: nat -> set<nat>) returns (found: bool, begin: nat)
      requires 0 < |queue| && k <= |queue|
      modifies this
      ensures begin + k <= |queue| == old(|queue|) && queue == Rotate(old(queue), begin)
      ensures forall p :: 0 <= p < begin ==> !Window(old(queue), seen(p), p, k)
      ensures if found then begin + k < |queue| && Window(old(queue), seen(begin), begin, k) else begin + k == |queue|
    {
      hide Window, Rotate;
      found, begin := false, 0;
      ghost var before := queue;
      NoTurn(queue);
      while begin + k <= |queue| - 1 && !found
        invariant begin + k <= |before| && queue == Rotate(before, begin)
        invariant forall p :: 0 <= p < begin ==> !Window(before, seen(p), p, k)
        invariant found ==> begin + k < |before| && Window(before, seen(begin), begin, k)
        decreases |before| - begin, !found
      {
        var broken := HeadIsWindow(k, seen(begin));
        RotatedWindow(before, seen(begin), begin, k);
        if broken {
          var _ := Take(1);
          RotateTwice(before, begin, 1);
          begin := begin + 1;
        } else {
          found := true;
        }
      }
    }
  }

  // ----- which slots can be obtained -----

  /** The slots `a` to `a + k - 1` are there and free. */
  ghost predicate FreeRun(busy: set<nat>, n: nat, a: nat, k: nat) {
    a + k <= n && forall id :: a <= id < a + k ==> id !in busy
  }

  /** With slot `h` at the head of `n`, the search comes to the run of `k` slots from slot `a` on. */
  predicate Reached(h: nat, n: nat, a: nat, k: nat) {
    if h == 0 then a + k < n else a >= h || a + k < h
  }

  ghost predicate Obtainable(h: nat, n: nat, busy: set<nat>, k: nat) {
    exists a :: FreeRun(busy, n, a, k) && Reached(h, n, a, k)
  }

  /** The slots in use do not change during the search. */
  ghost predicate Steady(seen: nat -> set<nat>) {
    forall p :: seen(p) == seen(0)
  }

  lemma TooMany(q: seq<nat>, busy: set<nat>, k: nat)
    ensures k > |q| > 0 ==> !Obtainable(q[0], |q|, busy, k)
  {
  }

  /** The slot at each position, and the position of each slot. */
  lemma Positions(q: seq<nat>, p: nat, k: nat)
    requires IsRing(q) && k > 0 && p + k <= |q|
    ensures q[p] < |q| && (q[p] + k <= |q| ==> forall i :: p <= i < p + k ==> q[i] == q[p] + (i - p))
  {
  }

  /** A window is a run of free slots. */
  lemma WindowIsRun(q: seq<nat>, busy: set<nat>, p: nat, k: nat)
    requires IsRing(q) && k > 0 && p + k <= |q|
    ensures Window(q, busy, p, k) <==> FreeRun(busy, |q|, q[p], k)
  {
    hide IsRing;
    Positions(q, p, k);
    if Window(q, busy, p, k) {
      WindowIsContiguous(q, busy, p, k, p + k - 1);
      forall id | q[p] <= id < q[p] + k
        ensures id !in busy
      {
        assert q[p + (id - q[p])] == id;
      }
    }
  }

  lemma HeadAndPosition(q: seq<nat>, p: nat, k: nat)
    requires IsRing(q) && k > 0 && p + k < |q|
    ensures q[0] < |q| && (q[p] + k <= |q| ==> Reached(q[0], |q|, q[p], k))
  {
  }

  lemma PositionOf(q: seq<nat>, a: nat, k: nat) returns (p: nat)
    requires IsRing(q) && k > 0 && a + k <= |q| && Reached(q[0], |q|, a, k)
    ensures p + k < |q| && q[p] == a
  {
    p := if a >= q[0] then a - q[0] else a + |q| - q[0];
  }

  /** The search finds slots if and only if it comes to a run of free ones. */
  lemma ObtainableIff(q: seq<nat>, busy: set<nat>, k: nat)
    requires IsRing(q) && 0 < k <= |q|
    ensures (exists p :: 0 <= p < |q| - k && Window(q, busy, p, k)) <==> Obtainable(q[0], |q|, busy, k)
  {
    hide IsRing, Window, Reached;
    if p :| 0 <= p < |q| - k && Window(q, busy, p, k) {
      WindowIsRun(q, busy, p, k);
      HeadAndPosition(q, p, k);
      assert FreeRun(busy, |q|, q[p], k);
    }
    if a :| FreeRun(busy, |q|, a, k) && Reached(q[0], |q|, a, k) {
      var p := PositionOf(q, a, k);
      WindowIsRun(q, busy, p, k);
    }
  }

  lemma FoundIff(q: seq<nat>, seen: nat -> set<nat>, k: nat, found: bool, begin: nat)
    requires IsRing(q) && k <= |q| && begin + k <= |q| && |q| > 0
    requires forall p :: 0 <= p < begin ==> !Window(q, seen(p), p, k)
    requires if found then begin + k < |q| && Window(q, seen(begin), begin, k) else begin + k == |q|
    ensures k > 0 && Steady(seen) ==> (found <==> Obtainable(q[0], |q|, seen(0), k))
  {
    hide IsRing, Window, Obtainable;
    if k > 0 && Steady(seen) {
      ObtainableIff(q, seen(0), k);
      assert seen(begin) == seen(0);
      assert forall p :: 0 <= p < begin ==> !Window(q, seen(0), p, k) by {
        forall p | 0 <= p < begin
          ensures !Window(q, seen(0), p, k)
        {
          assert seen(p) == seen(0);
        }
      }
    }
  }

  /** As many slots as there are can never be obtained, even when all are free. */
  lemma AllSlotsMissed(h: nat, n: nat, busy: set<nat>)
    requires h < n
    ensures !Obtainable(h, n, busy, n) && FreeRun({}, n, 0, n)
  {
  }

  // ----- turning the queue -----

  lemma NoTurn<T>(q: seq<T>)
    ensures Rotate(q, 0) == q
  {
  }

  lemma RotateTwice<T>(q: seq<T>, m: nat, n: nat)
    requires m + n <= |q|
    ensures Rotate(Rotate(q, m), n) == Rotate(q, m + n) && Rotate(q, m)[..n] == q[m..m + n]
  {
    CutInFirst(q[m..], q[..m], n);
    PieceOfBack(q, m, 0, n);
    PieceOfBack(q, m, n, |q| - m);
    PiecesMeet(q, 0, m, m + n);
    Associate(q[m + n..], q[..m], q[m..m + n]);
  }

  /** One more slot from the head to the back. */
  lemma NextTurn<T>(q: seq<T>, i: nat)
    requires i < |q|
    ensures var r := Rotate(q, i);
            r[1..] + [r[0]] == Rotate(q, i + 1) && q[..i] + [r[0]] == q[..i + 1]
  {
    RotateTwice(q, i, 1);
    PiecesMeet(q, 0, i, i + 1);
    var r := Rotate(q, i);
    assert r[..1] == [r[0]] && q[i..i + 1] == [q[i]];
  }

  lemma RotatedWindow(q: seq<nat>, busy: set<nat>, p: nat, k: nat)
    requires p + k <= |q|
    ensures Window(Rotate(q, p), busy, 0, k) <==> Window(q, busy, p, k)
  {
    var r := Rotate(q, p);
    assert forall i :: 0 <= i < k ==> r[i] == q[p + i];
    assert forall i :: p <= i < p + k ==> q[i] == r[i - p];
  }
}
