/**
 * Prepare, check and idle handles (deps/libuv/src/unix/loop-watcher.c): a sweep over the active handles whose callbacks
 * start and stop any of them.
 */
module LoopWatchers {
  import opened Queues
  import opened Sequences

  const EINVAL := 22

  /** What a callback does: uv_*_start, with or without a callback argument, and uv_*_stop. */
  datatype Action = Start(x: Link, cb: bool) | Stop(x: Link)

  /** The loop's list, and the handles a running sweep still has before it. */
  datatype Lists = Lists(order: seq<Link>, ahead: seq<Link>)

  ghost predicate Active(l: Lists, x: Link) {
    x in l.order || x in l.ahead
  }

  ghost function Started(l: Lists, x: Link, cb: bool): Lists {
    if Active(l, x) || !cb then l else l.(order := [x] + l.order)
  }

  ghost function Stopped(l: Lists, x: Link): Lists {
    Lists(Without(l.order, x), Without(l.ahead, x))
  }

  ghost function Done(l: Lists, actions: seq<Action>): Lists {
    if actions == [] then l else
      var before := Done(l, actions[..|actions| - 1]);
      match actions[|actions| - 1]
      case Start(x, cb) => Started(before, x, cb)
      case Stop(x) => Stopped(before, x)
  }

  lemma DoneNone(l: Lists)
    ensures Done(l, []) == l
  {
  }

  lemma DoneNext(l: Lists, actions: seq<Action>, i: nat)
    requires i < |actions|
    ensures Done(l, actions[..i + 1]) ==
            var before := Done(l, actions[..i]);
            match actions[i] {
              case Start(x, cb) => Started(before, x, cb)
              case Stop(x) => Stopped(before, x)
            }
  {
    assert actions[..i + 1][..i] == actions[..i];
  }

  /** Each handle is in at most one list, and at most once. */
  ghost predicate Tidy(l: Lists) {
    Distinct(l.order) && Distinct(l.ahead) && forall x :: x in l.order ==> x !in l.ahead
  }

  lemma StoppedTidy(l: Lists, x: Link)
    requires Tidy(l)
    ensures Tidy(Stopped(l, x)) && !Active(Stopped(l, x), x)
    ensures forall y :: y != x ==> (Active(Stopped(l, x), y) <==> Active(l, y))
  {
    WithoutDistinct(l.order, x);
    WithoutDistinct(l.ahead, x);
    WithoutMembers(l.order, x);
    WithoutMembers(l.ahead, x);
  }

  lemma StartedTidy(l: Lists, x: Link, cb: bool)
    requires Tidy(l)
    ensures Tidy(Started(l, x, cb))
    ensures forall y :: Active(Started(l, x, cb), y) <==> Active(l, y) || (y == x && cb)
  {
    if !Active(l, x) && cb {
      Fresh(l.order, x);
    }
  }

  /** The sweep: each round moves the first handle over to the loop's list and runs its callback. */
  ghost function Turn(l: Lists, actions: seq<Action>): Lists
    requires l.ahead != []
  {
    Done(Lists(l.order + [l.ahead[0]], l.ahead[1..]), actions)
  }

  lemma {:induction false} DoneTidy(l: Lists, actions: seq<Action>)
    requires Tidy(l)
    ensures Tidy(Done(l, actions)) && |Done(l, actions).ahead| <= |l.ahead|
  {
    if actions != [] {
      var before := Done(l, actions[..|actions| - 1]);
      DoneTidy(l, actions[..|actions| - 1]);
      match actions[|actions| - 1]
      case Start(x, cb) => StartedTidy(before, x, cb);
      case Stop(x) =>
        StoppedTidy(before, x);
        WithoutMembers(before.ahead, x);
    }
  }

  /** The handles called and the lists left by a sweep whose k-th callback does `script[k]`. */
  ghost function Swept(l: Lists, script: seq<seq<Action>>): (r: (seq<Link>, Lists))
    requires Tidy(l) && |l.ahead| <= |script|
    decreases |script|
  {
    if l.ahead == [] then ([], l) else
      var next := Turn(l, script[0]);
      assert Tidy(next) && |next.ahead| < |l.ahead| by { TurnTidy(l, script[0]); }
      var rest := Swept(next, script[1..]);
      ([l.ahead[0]] + rest.0, rest.1)
  }

  lemma MovedTidy(l: Lists)
    requires Tidy(l) && l.ahead != []
    ensures Tidy(Lists(l.order + [l.ahead[0]], l.ahead[1..]))
    ensures forall y :: Active(Lists(l.order + [l.ahead[0]], l.ahead[1..]), y) <==> Active(l, y)
  {
    assert l.ahead == [l.ahead[0]] + l.ahead[1..];
    assert l.order + [] == l.order && l.order + [l.ahead[0]] + [] == l.order + [l.ahead[0]];
    DistinctInsert(l.order, l.ahead[0], []);
  }

  lemma TurnTidy(l: Lists, actions: seq<Action>)
    requires Tidy(l) && l.ahead != []
    ensures Tidy(Turn(l, actions)) && |Turn(l, actions).ahead| < |l.ahead|
  {
    MovedTidy(l);
    DoneTidy(Lists(l.order + [l.ahead[0]], l.ahead[1..]), actions);
  }

  lemma SweptEnd(l: Lists, script: seq<seq<Action>>)
    requires Tidy(l) && l.ahead == []
    ensures Swept(l, script) == ([], l)
  {
  }

  lemma SweptStep(l: Lists, script: seq<seq<Action>>)
    requires Tidy(l) && |l.ahead| <= |script| && l.ahead != []
    ensures Tidy(Turn(l, script[0])) && |Turn(l, script[0]).ahead| < |l.ahead|
    ensures var rest := Swept(Turn(l, script[0]), script[1..]);
            Swept(l, script) == ([l.ahead[0]] + rest.0, rest.1)
  {
    TurnTidy(l, script[0]);
  }

  ghost predicate Stops(actions: seq<Action>, x: Link) {
    Stop(x) in actions
  }

  ghost function Remaining(s: seq<Link>, actions: seq<Action>): (r: seq<Link>)
    ensures |r| <= |s|
  {
    if s == [] then [] else (if Stops(actions, s[0]) then [] else [s[0]]) + Remaining(s[1..], actions)
  }

  /**
   * Who is called, told without the lists: the handles waiting, in order, less the ones the callbacks called so far have
   * stopped.
   */
  ghost function Calls(waiting: seq<Link>, script: seq<seq<Action>>): (r: seq<Link>)
    requires |waiting| <= |script|
    ensures |r| <= |waiting|
    decreases |script|
  {
    if waiting == [] then [] else [waiting[0]] + Calls(Remaining(waiting[1..], script[0]), script[1..])
  }

  lemma {:induction false} RemainingNone(s: seq<Link>)
    ensures Remaining(s, []) == s
  {
    if s != [] {
      RemainingNone(s[1..]);
    }
  }

  lemma {:induction false} RemainingStart(s: seq<Link>, actions: seq<Action>, x: Link, cb: bool)
    ensures Remaining(s, actions + [Start(x, cb)]) == Remaining(s, actions)
  {
    if s != [] {
      RemainingStart(s[1..], actions, x, cb);
    }
  }

  lemma {:induction false} RemainingStop(s: seq<Link>, actions: seq<Action>, x: Link)
    ensures Remaining(s, actions + [Stop(x)]) == Without(Remaining(s, actions), x)
  {
    if s != [] {
      RemainingStop(s[1..], actions, x);
      var a, b := if Stops(actions, s[0]) then [] else [s[0]], Remaining(s[1..], actions);
      assert Stops(actions + [Stop(x)], s[0]) <==> Stops(actions, s[0]) || s[0] == x;
      assert a == [] ==> a + b == b;
      assert a == [s[0]] ==> (a + b)[1..] == b;
    }
  }

  /** Only stopping a handle takes it out of the running sweep. */
  lemma {:induction false} DoneAhead(l: Lists, actions: seq<Action>)
    ensures Done(l, actions).ahead == Remaining(l.ahead, actions)
  {
    if actions == [] {
      RemainingNone(l.ahead);
    } else {
      var most := actions[..|actions| - 1];
      DoneAhead(l, most);
      assert actions == most + [actions[|actions| - 1]];
      match actions[|actions| - 1]
      case Start(x, cb) => RemainingStart(l.ahead, most, x, cb);
      case Stop(x) => RemainingStop(l.ahead, most, x);
    }
  }

  /** The sweep calls exactly `Calls`, whatever its callbacks start. */
  lemma {:induction false} SweepCalls(l: Lists, script: seq<seq<Action>>)
    requires Tidy(l) && |l.ahead| <= |script|
    ensures Swept(l, script).0 == Calls(l.ahead, script)
    decreases |script|
  {
    if l.ahead != [] {
      TurnTidy(l, script[0]);
      DoneAhead(Lists(l.order + [l.ahead[0]], l.ahead[1..]), script[0]);
      SweepCalls(Turn(l, script[0]), script[1..]);
    }
  }

  lemma {:induction false} SweepLeaves(l: Lists, script: seq<seq<Action>>)
    requires Tidy(l) && |l.ahead| <= |script|
    ensures Tidy(Swept(l, script).1) && Swept(l, script).1.ahead == []
    decreases |script|
  {
    if l.ahead != [] {
      TurnTidy(l, script[0]);
      SweepLeaves(Turn(l, script[0]), script[1..]);
    }
  }

  lemma {:induction false} RemainingSplit(a: seq<Link>, b: seq<Link>, actions: seq<Action>)
    ensures Remaining(a + b, actions) == Remaining(a, actions) + Remaining(b, actions)
  {
    if a == [] {
      assert a + b == b;
    } else {
      RemainingSplit(a[1..], b, actions);
      assert (a + b)[1..] == a[1..] + b && (a + b)[0] == a[0];
      Reassociate(if Stops(actions, a[0]) then [] else [a[0]], Remaining(a[1..], actions), Remaining(b, actions));
    }
  }

  lemma Reassociate(x: seq<Link>, y: seq<Link>, z: seq<Link>)
    ensures x + y + z == x + (y + z)
  {
  }

  lemma {:induction false} RemainingMembers(s: seq<Link>, actions: seq<Action>, x: Link)
    ensures x in Remaining(s, actions) <==> x in s && !Stops(actions, x)
    ensures Distinct(s) ==> Distinct(Remaining(s, actions))
  {
    if s != [] {
      RemainingMembers(s[1..], actions, x);
      assert s == [s[0]] + s[1..];
      if Distinct(s) && !Stops(actions, s[0]) {
        RemainingMembers(s[1..], actions, s[0]);
        Fresh(Remaining(s[1..], actions), s[0]);
      }
    }
  }

  /** Handles are called in list order: what comes later in the list has no bearing on the calls before it. */
  lemma {:induction false} CallsInOrder(a: seq<Link>, b: seq<Link>, script: seq<seq<Action>>)
    requires |a| + |b| <= |script|
    ensures Calls(a, script) <= Calls(a + b, script)
    decreases |script|
  {
    if a != [] {
      RemainingSplit(a[1..], b, script[0]);
      assert (a + b)[1..] == a[1..] + b;
      CallsInOrder(Remaining(a[1..], script[0]), Remaining(b, script[0]), script[1..]);
    }
  }

  /** Each at most once, and only handles that were active when the sweep began. */
  lemma {:induction false} CallsOnce(waiting: seq<Link>, script: seq<seq<Action>>)
    requires |waiting| <= |script| && Distinct(waiting)
    ensures Distinct(Calls(waiting, script))
    ensures forall x :: x in Calls(waiting, script) ==> x in waiting
    decreases |script|
  {
    if waiting != [] {
      var rest := Remaining(waiting[1..], script[0]);
      assert waiting == [waiting[0]] + waiting[1..];
      RemainingMembers(waiting[1..], script[0], waiting[0]);
      CallsOnce(rest, script[1..]);
      Fresh(Calls(rest, script[1..]), waiting[0]);
      forall x | x in Calls(rest, script[1..])
        ensures x in waiting
      {
        RemainingMembers(waiting[1..], script[0], x);
      }
    }
  }

  ghost predicate StoppedBefore(script: seq<seq<Action>>, n: nat, x: Link)
    requires n <= |script|
  {
    exists k :: 0 <= k < n && Stops(script[k], x)
  }

  /** A handle is called if and only if none of the callbacks called before its turn stops it. */
  lemma {:induction false} CalledIff(a: seq<Link>, x: Link, script: seq<seq<Action>>)
    requires |a| < |script|
    ensures Calls(a + [x], script) == Calls(a, script) + if StoppedBefore(script, |Calls(a, script)|, x) then [] else [x]
    decreases |script|
  {
    if a == [] {
      assert [x][1..] == [] && a + [x] == [x];
    } else {
      var rest := Remaining(a[1..], script[0]);
      assert (a + [x])[1..] == a[1..] + [x] && [x][1..] == [];
      RemainingSplit(a[1..], [x], script[0]);
      StoppedLater(script, |Calls(rest, script[1..])|, x);
      assert (a + [x])[0] == a[0] && Calls(a, script) == [a[0]] + Calls(rest, script[1..]);
      assert Remaining([x], script[0]) == if Stops(script[0], x) then [] else [x];
      if Stops(script[0], x) {
        assert rest + [] == rest;
      } else {
        CalledIff(rest, x, script[1..]);
        var tail := if StoppedBefore(script[1..], |Calls(rest, script[1..])|, x) then [] else [x];
        Reassociate([a[0]], Calls(rest, script[1..]), tail);
      }
    }
  }

  lemma StoppedLater(script: seq<seq<Action>>, n: nat, x: Link)
    requires n < |script|
    ensures StoppedBefore(script, n + 1, x) <==> Stops(script[0], x) || StoppedBefore(script[1..], n, x)
  {
    if StoppedBefore(script[1..], n, x) {
      var k :| 0 <= k < n && Stops(script[1..][k], x);
      assert Stops(script[k + 1], x);
    }
    if StoppedBefore(script, n + 1, x) && !Stops(script[0], x) {
      var k :| 0 <= k < n + 1 && Stops(script[k], x);
      assert Stops(script[1..][k - 1], x);
    }
  }

  /** After a sweep, all active handles are where the next one will find them. */
  lemma NextSweep(l: Lists, script: seq<seq<Action>>, x: Link)
    requires Tidy(l) && |l.ahead| <= |script|
    ensures Active(Swept(l, script).1, x) <==> x in Swept(l, script).1.order
  {
    SweepLeaves(l, script);
  }

  /** All members of both lists are handles of the loop. */
  ghost predicate Within(l: Lists, all: set<Link>) {
    (forall x :: x in l.order ==> x in all) && forall x :: x in l.ahead ==> x in all
  }

  lemma StoppedWithin(l: Lists, x: Link, all: set<Link>)
    requires Within(l, all)
    ensures Within(Stopped(l, x), all)
  {
    WithoutMembers(l.order, x);
    WithoutMembers(l.ahead, x);
  }

  lemma NoLinks()
    ensures Distinct<Link>([])
  {
  }

  class Handles {
    const head: Link
    ghost const all: set<Link>
    ghost var lists: Lists
    /** The list head on the stack of the running sweep, or of the last one. */
    ghost var local: Link

    ghost predicate Valid()
      reads this, head, local, all
    {
      && head !in all && local !in all && local != head && Within(lists, all) && Tidy(lists)
      && Ring(head, lists.order) && Ring(local, lists.ahead) && Flags(lists)
    }

    /** A handle's flag says whether it is in a list. */
    ghost predicate Flags(l: Lists)
      reads this, all`active
    {
      forall x :: x in all ==> (x.active <==> Active(l, x))
    }

    constructor (ghost all: set<Link>)
      requires forall x :: x in all ==> !x.active
      ensures Valid() && this.all == all && lists == Lists([], []) && fresh(head)
    {
      head := new Link();
      var none := new Link();
      local := none;
      this.all, lists := all, Lists([], []);
    }

    method StartHandle(x: Link, cb: bool) returns (r: int)
      requires Valid() && x in all
      modifies this`lists, head, all
      ensures Valid() && lists == Started(old(lists), x, cb)
      ensures r == if old(x.active) || cb then 0 else -22
    {
      if x.active {
        return 0;
      }
      if !cb {
        return -EINVAL;
      }
      ghost var now := Started(lists, x, cb);
      StartedTidy(lists, x, cb);
      TidyApart(lists);
      assert Within(now, all);
      assert now.order == [x] + lists.order && now.ahead == lists.ahead && x !in lists.order && x !in lists.ahead;
      hide Ring, Distinct, Tidy, Started, Within;
      InsertHead(head, x, lists.order);
      assert Ring(local, lists.ahead);
      x.active := true;
      lists := now;
      r := 0;
    }

    method StopHandle(x: Link)
      requires Valid() && x in all
      modifies this`lists, head, local, all
      ensures Valid() && lists == Stopped(old(lists), x)
    {
      if !x.active {
        WithoutOther(lists.order, x);
        WithoutOther(lists.ahead, x);
        return;
      }
      StoppedTidy(lists, x);
      StoppedWithin(lists, x, all);
      TidyApart(lists);
      ghost var now := Stopped(lists, x);
      assert x in lists.order || x in lists.ahead;
      assert now.order == Without(lists.order, x) && now.ahead == Without(lists.ahead, x);
      hide Ring, Distinct, Tidy, Without, Within, Active, Stopped, Flags;
      Detach(x, head, lists.order, local, lists.ahead);
      assert Ring(head, now.order) && Ring(local, now.ahead);
      Deactivate(x, now);
      assert Ring(head, now.order) && Ring(local, now.ahead);
    }

    /** uv__handle_stop. */
    method Deactivate(x: Link, ghost now: Lists)
      requires x in all && Flags(lists)
      requires !Active(now, x) && forall y :: y != x ==> (Active(now, y) <==> Active(lists, y))
      modifies this`lists, x`active
      ensures lists == now && Flags(lists)
    {
      hide Active;
      x.active := false;
      lists := now;
    }

    /** QUEUE_REMOVE, in whichever of the two lists `x` is. */
    method Detach(x: Link, ghost h: Link, ghost s: seq<Link>, ghost g: Link, ghost r: seq<Link>)
      requires Ring(h, s) && Ring(g, r) && (x in s || x in r) && h != g && h !in r && g !in s
      requires forall y :: y in s ==> y !in r
      modifies h`next, h`prev, Of(s)`next, Of(s)`prev, g`next, g`prev, Of(r)`next, Of(r)`prev
      ensures Ring(h, Without(s, x)) && Ring(g, Without(r, x))
    {
      hide Ring, Without;
      ghost var mine := x in s;
      WithoutOther(if mine then r else s, x);
      RemoveFrom(if mine then h else g, if mine then s else r, x);
    }

    /** QUEUE_REMOVE, wherever in the list `x` is. */
    method RemoveFrom(ghost h: Link, ghost s: seq<Link>, x: Link)
      requires Ring(h, s) && x in s
      modifies h`next, h`prev, Of(s)`next, Of(s)`prev
      ensures Ring(h, Without(s, x))
    {
      ghost var i :| 0 <= i < |s| && s[i] == x;
      RingDistinct(h, s);
      WithoutAt(s, i);
      assert s == s[..i] + [x] + s[i + 1..];
      Remove(x, h, s[..i], s[i + 1..]);
    }

    lemma RingDistinct(h: Link, s: seq<Link>)
      requires Ring(h, s)
      ensures Distinct(s)
    {
      assert [h] + s + [] == [h] + s && s + [] == s;
      DistinctDrop([h], s, []);
    }

    /** A callback. */
    method Perform(actions: seq<Action>)
      requires Valid() && forall a :: a in actions ==> a.x in all
      modifies this`lists, head, local, all
      ensures Valid() && lists == Done(old(lists), actions)
    {
      hide Done, Started, Stopped, Ring, Tidy, Within, Flags;
      var i: nat := 0;
      DoneNone(lists);
      assert actions[..0] == [];
      while i < |actions|
        invariant i <= |actions| && Valid() && lists == Done(old(lists), actions[..i])
        decreases |actions| - i
      {
        DoneNext(old(lists), actions, i);
        match actions[i] {
          case Start(x, cb) => var _ := StartHandle(x, cb);
          case Stop(x) => StopHandle(x);
        }
        i := i + 1;
      }
      assert actions[..i] == actions;
    }

    /** The first handle of the local queue goes to the end of the loop's list. */
    method Take(queue: Link) returns (q: Link)
      requires Valid() && local == queue && lists.ahead != []
      modifies this`lists, head, queue, all
      ensures Valid() && q == old(lists.ahead[0])
      ensures lists == Lists(old(lists.order) + [q], old(lists.ahead[1..]))
    {
      EmptyRing(queue, lists.ahead);
      MovedTidy(lists);
      TidyApart(lists);
      TakeView(lists);
      q := queue.next;
      ghost var ahead := lists.ahead[1..];
      ghost var now := Lists(lists.order + [q], ahead);
      assert Within(now, all) && lists.ahead == [q] + ahead;
      hide Ring, Distinct, Tidy, Active, Within;
      MoveOver(q, queue, ahead, lists.order);
      lists := now;
    }

    method MoveOver(q: Link, ghost queue: Link, ghost ahead: seq<Link>, ghost order: seq<Link>)
      requires Ring(queue, [q] + ahead) && Ring(head, order) && queue != head && queue !in order && head !in ahead
      requires q != head && q != queue && q !in ahead && q !in order && forall y :: y in ahead ==> y !in order
      modifies head`next, head`prev, queue`next, queue`prev, q`next, q`prev
      modifies Of(order)`next, Of(order)`prev, Of(ahead)`next, Of(ahead)`prev
      ensures Ring(queue, ahead) && Ring(head, order + [q])
    {
      assert [] + [q] + ahead == [q] + ahead && [] + ahead == ahead;
      hide Ring;
      Remove(q, queue, [], ahead);
      InsertTail(head, q, order);
    }

    lemma TakeView(l: Lists)
      requires Tidy(l) && l.ahead != []
      ensures l.ahead[0] !in l.ahead[1..] && l.ahead[0] !in l.order
      ensures forall y :: y in l.ahead[1..] ==> y in l.ahead
    {
    }

    /** uv__run_*. */
    method Run(script: seq<seq<Action>>) returns (calls: seq<Link>)
      requires Valid() && lists.ahead == [] && |lists.order| <= |script|
      requires forall k, a :: 0 <= k < |script| && a in script[k] ==> a.x in all
      modifies this`lists, this`local, head, all
      ensures Valid() && lists.ahead == []
      ensures Swept(Lists([], old(lists.order)), script) == (calls, lists)
      ensures calls == Calls(old(lists.order), script)
    {
      calls := [];
      var queue := Begin();
      ghost var start := lists;
      var k := 0;
      hide Swept, Done, Ring, Distinct, Tidy, Active, Within;
      assert script[0..] == script && calls + Swept(start, script).0 == Swept(start, script).0;
      while !IsEmpty(queue)
        invariant Valid() && local == queue && fresh(queue) && k <= |script|
        invariant |lists.ahead| <= |script| - k
        invariant Swept(start, script) == (calls + Swept(lists, script[k..]).0, Swept(lists, script[k..]).1)
        decreases |lists.ahead|
      {
        EmptyRing(queue, lists.ahead);
        SweptStep(lists, script[k..]);
        RestOf(script, k);
        Associate(calls, [lists.ahead[0]], Swept(Turn(lists, script[k]), script[k + 1..]).0);
        var q := Round(queue, script[k]);
        calls := calls + [q];
        k := k + 1;
      }
      EmptyRing(queue, lists.ahead);
      SweptEnd(lists, script[k..]);
      SweepCalls(start, script);
      assert calls + [] == calls;
    }

    lemma RestOf(script: seq<seq<Action>>, k: nat)
      requires k < |script|
      ensures script[k..][1..] == script[k + 1..] && script[k..][0] == script[k]
    {
    }

    /** One turn of the loop. */
    method Round(queue: Link, actions: seq<Action>) returns (q: Link)
      requires Valid() && local == queue && lists.ahead != [] && forall a :: a in actions ==> a.x in all
      modifies this`lists, head, queue, all
      ensures Valid() && q == old(lists.ahead[0]) && lists == Turn(old(lists), actions)
    {
      hide Done, Ring, Distinct, Tidy, Active, Within;
      q := Take(queue);
      Perform(actions);
    }

    /** The whole list moves to a list head on the stack. */
    method Begin() returns (queue: Link)
      requires Valid() && lists.ahead == []
      modifies this`lists, this`local, head, all
      ensures Valid() && fresh(queue) && local == queue && lists == Lists([], old(lists.order))
    {
      queue := new Link();
      hide Ring, Distinct;
      Move(head, queue, lists.order);
      local, lists := queue, Lists([], lists.order);
      assert Distinct<Link>([]) by {
        NoLinks();
      }
    }

    lemma TidyApart(l: Lists)
      requires Tidy(l) && Within(l, all)
      ensures forall y :: y in l.order ==> y !in l.ahead && y in all
      ensures forall y :: y in l.ahead ==> y in all
    {
    }
  }
}
