/**
 * The intrusive circular lists of deps/libuv/src/queue.h. A list is a head and the sequence of the other members; each
 * macro is proved against what it does to these sequences.
 */
module Queues {
  import opened Sequences

  /** A QUEUE, with the flag of the handle it is embedded in. */
  class Link {
    var next: Link
    var prev: Link
    var active: bool

    /** QUEUE_INIT on a new member. */
    constructor ()
      ensures Ring(this, []) && !active
    {
      next, prev, active := this, this, false;
    }
  }

  ghost function Of(s: seq<Link>): set<Link> {
    set x | x in s
  }

  ghost predicate Linked(a: Link, b: Link)
    reads a`next, b`prev
  {
    a.next == b && b.prev == a
  }

  ghost predicate Chain(s: seq<Link>)
    reads Of(s)`next, Of(s)`prev
  {
    forall i :: 0 <= i < |s| - 1 ==> Linked(s[i], s[i + 1])
  }

  /** The circle of `h` and then `s`. */
  ghost predicate Ring(h: Link, s: seq<Link>)
    reads h`next, h`prev, Of(s)`next, Of(s)`prev
  {
    Distinct([h] + s) && Chain([h] + s + [h])
  }

  lemma ChainParts(a: seq<Link>, b: seq<Link>)
    ensures Chain(a + b) <==> Chain(a) && Chain(b) && (a != [] && b != [] ==> Linked(a[|a| - 1], b[0]))
  {
    var s := a + b;
    if Chain(s) {
      forall i | 0 <= i < |a| - 1
        ensures Linked(a[i], a[i + 1])
      {
        assert Linked(s[i], s[i + 1]);
      }
      forall i | 0 <= i < |b| - 1
        ensures Linked(b[i], b[i + 1])
      {
        assert Linked(s[|a| + i], s[|a| + i + 1]);
      }
      if a != [] && b != [] {
        assert Linked(s[|a| - 1], s[|a|]);
      }
    }
  }

  /** The members of a circle next to a place in it. */
  lemma RingParts(h: Link, a: seq<Link>, b: seq<Link>)
    ensures Ring(h, a + b) <==>
            && Distinct([h] + a + b) && Chain([h] + a) && Chain(b + [h])
            && Linked(([h] + a)[|a|], (b + [h])[0])
  {
    assert [h] + (a + b) == [h] + a + b;
    assert [h] + (a + b) + [h] == ([h] + a) + (b + [h]);
    ChainParts([h] + a, b + [h]);
  }

  predicate IsEmpty(h: Link)
    reads h`next
  {
    h == h.next
  }

  lemma EmptyRing(h: Link, s: seq<Link>)
    requires Ring(h, s)
    ensures IsEmpty(h) <==> s == []
    ensures s != [] ==> h.next == s[0] && h.prev == s[|s| - 1]
  {
    var c := [h] + s + [h];
    assert Linked(c[0], c[1]);
    assert Linked(c[|s|], c[|s| + 1]);
    if s != [] {
      assert ([h] + s)[1] == s[0] && ([h] + s)[0] == h;
    }
  }

  method Init(q: Link)
    modifies q`next, q`prev
    ensures Ring(q, [])
  {
    q.next := q;
    q.prev := q;
  }

  lemma DistinctInsert(a: seq<Link>, q: Link, b: seq<Link>)
    requires Distinct(a + b) && q !in a + b
    ensures Distinct(a + [q] + b)
  {
    var s := a + [q] + b;
    forall i, j | 0 <= i < j < |s|
      ensures s[i] != s[j]
    {
      if i != |a| && j != |a| {
        assert s[i] == (a + b)[if i < |a| then i else i - 1];
        assert s[j] == (a + b)[if j < |a| then j else j - 1];
      }
    }
  }

  lemma DistinctDrop(a: seq<Link>, m: seq<Link>, b: seq<Link>)
    requires Distinct(a + m + b)
    ensures Distinct(a + b) && Distinct(a + m) && Distinct(m + b)
    ensures forall x :: x in a ==> x !in m && x !in b
    ensures forall x :: x in m ==> x !in b
  {
    var s := a + m + b;
    forall i, j | 0 <= i < j < |a + b|
      ensures (a + b)[i] != (a + b)[j]
    {
      assert (a + b)[i] == s[if i < |a| then i else i + |m|];
      assert (a + b)[j] == s[if j < |a| then j else j + |m|];
    }
    assert a + m == s[..|a| + |m|] && m + b == s[|a|..];
    assert a == s[..|a|] && b == s[|a| + |m|..] && m == s[|a|..|a| + |m|];
  }

  /** Around the circle from another starting point. */
  lemma DistinctTurn(a: seq<Link>, b: seq<Link>)
    requires Distinct(a + b)
    ensures Distinct(b + a)
  {
    forall i, j | 0 <= i < j < |b + a|
      ensures (b + a)[i] != (b + a)[j]
    {
      assert (b + a)[i] == (a + b)[if i < |b| then |a| + i else i - |b|];
      assert (b + a)[j] == (a + b)[if j < |b| then |a| + j else j - |b|];
    }
  }

  method InsertHead(h: Link, q: Link, ghost s: seq<Link>)
    requires Ring(h, s) && q !in [h] + s
    modifies h`next, h`prev, q`next, q`prev, Of(s)`next, Of(s)`prev
    ensures Ring(h, [q] + s)
  {
    ghost var back := s + [h];
    assert [] + s == s && [h] + [] == [h] && [h] + [q] + s == [h] + ([q] + s);
    RingParts(h, [], s);
    DistinctTurn([h], s);
    DistinctInsert([h], q, s);
    q.next := h.next;
    q.prev := h;
    q.next.prev := q;
    h.next := q;
    assert Chain(back);
    assert [q] + s + [h] == [q] + back && [] + ([q] + s) == [q] + s;
    ChainParts([q], back);
    RingParts(h, [], [q] + s);
  }

  /** The two ends `p` and `n` of a gap in a circle occur nowhere else along the lines on its two sides. */
  lemma Ends(h: Link, a: seq<Link>, b: seq<Link>)
    requires Distinct([h] + a + b)
    ensures var p := ([h] + a)[|a|];
            (forall i :: 0 <= i < |a| ==> ([h] + a)[i] != p) && forall i :: 0 <= i < |b| ==> (b + [h])[i] != p
    ensures var n := (b + [h])[0];
            (forall i :: 0 < i <= |a| ==> ([h] + a)[i] != n) && forall i :: 0 < i <= |b| ==> (b + [h])[i] != n
  {
    var s := [h] + a + b;
    assert forall i :: 0 <= i < |b| ==> (b + [h])[i] == s[|a| + 1 + i];
    assert forall i :: 0 <= i <= |a| ==> ([h] + a)[i] == s[i];
    assert (b + [h])[0] == s[if b == [] then 0 else |a| + 1] && (b + [h])[|b|] == s[0];
  }

  method InsertTail(h: Link, q: Link, ghost s: seq<Link>)
    requires Ring(h, s) && q !in [h] + s
    modifies h`next, h`prev, q`next, q`prev, Of(s)`next, Of(s)`prev
    ensures Ring(h, s + [q])
  {
    assert s + [] == s && [h] + s + [q] + [] == [h] + s + [q] && [h] + s + [] == [h] + s && [] + [h] == [h];
    RingParts(h, s, []);
    DistinctInsert([h] + s, q, []);
    Ends(h, s, []);
    hide Distinct;
    q.next := h;
    q.prev := h.prev;
    q.prev.next := q;
    h.prev := q;
    assert Chain([h] + s);
    assert [q] + [h] == [q, h];
    RingParts(h, s, [q]);
  }

  method Remove(q: Link, ghost h: Link, ghost a: seq<Link>, ghost b: seq<Link>)
    requires Ring(h, a + [q] + b)
    modifies h`next, h`prev, Of(a)`next, Of(a)`prev, Of(b)`next, Of(b)`prev
    ensures Ring(h, a + b)
  {
    RemoveView(q, h, a, b);
    Ends(h, a, b);
    hide Distinct, Ring;
    q.prev.next := q.next;
    q.next.prev := q.prev;
    assert Chain([h] + a);
    assert Chain(b + [h]);
    RingParts(h, a, b);
  }

  lemma RemoveView(q: Link, h: Link, a: seq<Link>, b: seq<Link>)
    requires Ring(h, a + [q] + b)
    ensures Distinct([h] + a + b) && Chain([h] + a) && Chain(b + [h])
    ensures q != h && q !in a && q !in b
    ensures Linked(([h] + a)[|a|], q) && Linked(q, (b + [h])[0])
  {
    assert a + [q] + b == a + ([q] + b) && [h] + (a + [q] + b) == [h] + a + [q] + b;
    assert [h] + (a + [q]) == [h] + a + [q];
    RingParts(h, a, [q] + b);
    RingParts(h, a + [q], b);
    DistinctDrop([h] + a, [q], b);
    assert q in [q] && h in [h] + a && forall x :: x in a ==> x in [h] + a;
  }

  /** QUEUE_SPLIT: from `q` on, the members of `h` become those of `n`. */
  method Split(h: Link, q: Link, n: Link, ghost a: seq<Link>, ghost b: seq<Link>)
    requires Ring(h, a + b) && b != [] && b[0] == q && n !in [h] + a + b
    modifies h`next, h`prev, n`next, n`prev, Of(a)`next, Of(a)`prev, Of(b)`next, Of(b)`prev
    ensures Ring(h, a) && Ring(n, b)
  {
    SplitView(h, a, b, n);
    SplitEnds(h, a, b);
    hide Distinct, Ring;
    ghost var p, l := ([h] + a)[|a|], b[|b| - 1];
    n.prev := h.prev;
    n.prev.next := n;
    n.next := q;
    h.prev := q.prev;
    h.prev.next := h;
    q.prev := n;
    assert Chain([h] + a);
    assert Chain(b);
    SplitRings(h, a, b, n);
  }

  lemma SplitView(h: Link, a: seq<Link>, b: seq<Link>, n: Link)
    requires Ring(h, a + b) && b != [] && n !in [h] + a + b
    ensures Distinct([h] + a) && Distinct([n] + b)
    ensures n != h && n !in a && n !in b
    ensures Chain([h] + a) && Chain(b) && Linked(([h] + a)[|a|], b[0]) && Linked(b[|b| - 1], h)
  {
    RingParts(h, a, b);
    ChainParts(b, [h]);
    assert [h] + a + b + [] == [h] + a + b && b + [] == b && [h] + a + [] == [h] + a;
    DistinctDrop([h] + a, b, []);
    Fresh(b, n);
    assert forall x :: x in a ==> x in [h] + a;
    assert h in [h] + a;
    hide Distinct, Chain, Ring;
  }

  lemma Fresh(s: seq<Link>, q: Link)
    requires Distinct(s) && q !in s
    ensures Distinct([q] + s)
  {
  }

  /** The first and last member of `b` and the one before `b` occur nowhere else. */
  lemma SplitEnds(h: Link, a: seq<Link>, b: seq<Link>)
    requires Distinct([h] + (a + b)) && b != []
    ensures forall i :: 0 <= i < |a| ==> ([h] + a)[i] != ([h] + a)[|a|] && ([h] + a)[i] != b[|b| - 1]
    ensures forall i :: 0 < i <= |a| ==> ([h] + a)[i] != h && ([h] + a)[i] != b[0]
    ensures forall i :: 0 <= i < |b| - 1 ==> b[i] != ([h] + a)[|a|] && b[i] != b[|b| - 1]
    ensures forall i :: 0 < i < |b| ==> b[i] != b[0] && b[i] != h
    ensures ([h] + a)[|a|] != b[|b| - 1] && b[0] != h && b[|b| - 1] != h
  {
    var s := [h] + (a + b);
    assert s[0] == h;
    assert forall i :: 0 <= i < |b| ==> b[i] == s[|a| + 1 + i];
    assert forall i :: 0 <= i <= |a| ==> ([h] + a)[i] == s[i];
  }

  lemma SplitRings(h: Link, a: seq<Link>, b: seq<Link>, n: Link)
    requires Distinct([h] + a) && Distinct([n] + b) && Chain([h] + a) && Chain(b) && b != []
    requires Linked(([h] + a)[|a|], h) && Linked(n, b[0]) && Linked(b[|b| - 1], n)
    ensures Ring(h, a) && Ring(n, b)
  {
    assert a + [] == a && [] + b == b && [] + [h] == [h] && [n] + [] == [n] && [h] + a + [] == [h] + a;
    assert [n] + [] + b == [n] + b;
    ChainParts(b, [n]);
    RingParts(h, a, []);
    RingParts(n, [], b);
    hide Distinct, Ring, Chain;
    assert Chain([h]) && Chain([n]) by {
      OneLink(h);
      OneLink(n);
    }
  }

  lemma OneLink(h: Link)
    ensures Chain([h])
  {
  }

  /** QUEUE_MOVE: all members of `h` become those of `n`. */
  method Move(h: Link, n: Link, ghost s: seq<Link>)
    requires Ring(h, s) && n !in [h] + s
    modifies h`next, h`prev, n`next, n`prev, Of(s)`next, Of(s)`prev
    ensures Ring(h, []) && Ring(n, s)
  {
    EmptyRing(h, s);
    assert [] + s == s && [h] + [] + s == [h] + s;
    hide Ring;
    if IsEmpty(h) {
      Init(n);
    } else {
      var q := h.next;
      Split(h, q, n, [], s);
    }
  }

  /** QUEUE_ADD: the members of `n` go behind those of `h`; `n` itself is left out. */
  method Add(h: Link, n: Link, ghost a: seq<Link>, ghost b: seq<Link>)
    requires Ring(h, a) && Ring(n, b) && Distinct([h] + (a + b)) && n !in [h] + a + b
    modifies h`next, h`prev, n`next, n`prev, Of(a)`next, Of(a)`prev, Of(b)`next, Of(b)`prev
    ensures Ring(h, a + b)
  {
    AddView(h, n, a, b);
    if b != [] {
      SplitEnds(h, a, b);
    }
    hide Distinct, Ring;
    h.prev.next := n.next;
    n.next.prev := h.prev;
    h.prev := n.prev;
    h.prev.next := h;
    assert Chain([h] + a);
    assert Chain(b);
    AddRing(h, a, b);
  }

  lemma AddView(h: Link, n: Link, a: seq<Link>, b: seq<Link>)
    requires Ring(h, a) && Ring(n, b) && n !in [h] + a + b
    ensures n != h && n !in a && n !in b
    ensures Chain([h] + a) && Chain(b) && Linked(([h] + a)[|a|], h)
    ensures if b == [] then Linked(n, n) else Linked(n, b[0]) && Linked(b[|b| - 1], n)
    ensures forall i :: 0 <= i < |a| ==> ([h] + a)[i] != ([h] + a)[|a|]
    ensures forall i :: 0 < i <= |a| ==> ([h] + a)[i] != h
  {
    assert a + [] == a && [] + b == b && [] + [h] == [h] && [n] + [] == [n] && [h] + a + [] == [h] + a;
    RingParts(h, a, []);
    RingParts(n, [], b);
    ChainParts(b, [n]);
    assert h in [h] + a + b && forall x :: x in a ==> x in [h] + a + b;
    assert ([h] + a)[0] == h;
  }

  lemma AddRing(h: Link, a: seq<Link>, b: seq<Link>)
    requires Distinct([h] + (a + b)) && Chain([h] + a) && Chain(b)
    requires if b == [] then Linked(([h] + a)[|a|], h) else Linked(([h] + a)[|a|], b[0]) && Linked(b[|b| - 1], h)
    ensures Ring(h, a + b)
  {
    assert [h] + (a + b) == [h] + a + b;
    ChainParts(b, [h]);
    OneLink(h);
    RingParts(h, a, b);
  }
}
