/**
 * What becomes of the packets that are put into the slots (src/ws/CAsyncs.cpp:60-85), over any run: each is taken out once,
 * written if its peer is registered then, and leaves the slot free.
 */
module SlotUse {
  import opened AsyncIo
  import opened SlotRings
  import opened SplitSend
  import opened Posting

  /** The packets put into the slot of `h`, in order. */
  function Puts(run: seq<Action>, h: Handle): seq<Packet> {
    if run == [] then [] else (if run[0].Fill? && run[0].h == h then [run[0].packet] else []) + Puts(run[1..], h)
  }

  function Content(s: State, h: Handle): seq<Packet> {
    if h in s.slots then [s.slots[h]] else []
  }

  /** The packet that a step finds in its slot, if it is the callback of `h`. */
  function Finds(s: State, a: Action, h: Handle): seq<Packet>
    requires Enabled(s, a)
  {
    if a.Callback? && s.pc.h == h then Content(s, h) else []
  }

  /** The packets that callbacks of `h` find, in order. */
  function Takes(s: State, run: seq<Action>, h: Handle): seq<Packet>
    requires IsRun(s, run)
    decreases |run|
  {
    if run == [] then [] else Finds(s, run[0], h) + Takes(Next(s, run[0]), run[1..], h)
  }

  /** Those of them whose peer is registered at that moment. */
  function Due(s: State, run: seq<Action>, h: Handle): seq<Packet>
    requires IsRun(s, run)
    decreases |run|
  {
    if run == [] then []
    else (if Finds(s, run[0], h) != [] && s.slots[h].peer in s.registered then [s.slots[h]] else [])
         + Due(Next(s, run[0]), run[1..], h)
  }

  lemma StepConserves(s: State, a: Action, h: Handle)
    requires Enabled(s, a)
    ensures Content(s, h) + (if a.Fill? && a.h == h then [a.packet] else []) == Finds(s, a, h) + Content(Next(s, a), h)
  {
  }

  /** Nothing is lost, repeated or reordered in a slot: what was in it and is put into it is taken out, or is still there. */
  lemma {:induction false} SlotConserves(s: State, run: seq<Action>, h: Handle)
    requires IsRun(s, run)
    ensures Content(s, h) + Puts(run, h) == Takes(s, run, h) + Content(After(s, run), h)
    decreases |run|
  {
    hide Enabled, Next, Content, Finds;
    if run == [] {
      assert Content(s, h) + [] == [] + Content(s, h);
    } else {
      var put := if run[0].Fill? && run[0].h == h then [run[0].packet] else [];
      var s', more := Next(s, run[0]), Puts(run[1..], h);
      StepConserves(s, run[0], h);
      SlotConserves(s', run[1..], h);
      assert Content(s, h) + (put + more) == (Content(s, h) + put) + more;
      assert (Finds(s, run[0], h) + Content(s', h)) + more == Finds(s, run[0], h) + (Content(s', h) + more);
      assert Finds(s, run[0], h) + (Takes(s', run[1..], h) + Content(After(s, run), h))
             == (Finds(s, run[0], h) + Takes(s', run[1..], h)) + Content(After(s, run), h);
    }
  }

  /** What is written for `h`: what its callbacks add to `written`. */
  function Writes(s: State, run: seq<Action>, h: Handle): seq<Packet>
    requires IsRun(s, run)
    decreases |run|
  {
    if run == [] then []
    else
      (if run[0].Callback? && s.pc.h == h && s.written <= Next(s, run[0]).written
       then Next(s, run[0]).written[|s.written|..] else [])
      + Writes(Next(s, run[0]), run[1..], h)
  }

  /** Only a callback writes, and it writes at most the packet that it finds, if its peer is registered. */
  lemma StepWrites(s: State, a: Action)
    requires Enabled(s, a)
    ensures var w := if a.Callback? && s.pc.h in s.slots && s.slots[s.pc.h].peer in s.registered then [s.slots[s.pc.h]] else [];
            Next(s, a).written == s.written + w
  {
  }

  /**
   * What is written for a handle is what its callbacks find for a peer that is registered then; so writes never
   * outnumber the packets that were put into the slot.
   */
  lemma {:induction false} WritesAreDue(s: State, run: seq<Action>, h: Handle)
    requires IsRun(s, run)
    ensures Writes(s, run, h) == Due(s, run, h)
    ensures |Writes(s, run, h)| <= |Takes(s, run, h)| <= |Content(s, h)| + |Puts(run, h)|
    decreases |run|
  {
    SlotConserves(s, run, h);
    if run != [] {
      StepWrites(s, run[0]);
      WritesAreDue(Next(s, run[0]), run[1..], h);
    }
    hide Enabled, Next;
  }

  lemma StepKeepsUnregistered(s: State, a: Action, peer: Peer)
    requires Enabled(s, a) && peer !in s.registered
    ensures peer !in Next(s, a).registered
    ensures s.written <= Next(s, a).written
    ensures forall k :: |s.written| <= k < |Next(s, a).written| ==> Next(s, a).written[k].peer != peer
  {
  }

  lemma {:induction false} NothingForOthers(s: State, run: seq<Action>, peer: Peer)
    requires IsRun(s, run) && peer !in s.registered
    ensures s.written <= After(s, run).written
    ensures forall k :: |s.written| <= k < |After(s, run).written| ==> After(s, run).written[k].peer != peer
    decreases |run|
  {
    hide Enabled, Next;
    if run != [] {
      StepKeepsUnregistered(s, run[0], peer);
      NothingForOthers(Next(s, run[0]), run[1..], peer);
    }
  }

  /** A peer can be taken out at any time, and nothing is written for it from then on. */
  lemma NothingBehindUnregister(s: State, run: seq<Action>, peer: Peer)
    ensures Enabled(s, Unregister(peer))
    ensures IsRun(Next(s, Unregister(peer)), run) ==>
              var end := After(Next(s, Unregister(peer)), run);
              && s.written <= end.written
              && forall k :: |s.written| <= k < |end.written| ==> end.written[k].peer != peer
  {
    if IsRun(Next(s, Unregister(peer)), run) {
      NothingForOthers(Next(s, Unregister(peer)), run, peer);
    }
  }

  // ----- a slot is free again after its callback -----

  ghost predicate Untouched(run: seq<Action>, h: Handle) {
    forall a :: a in run ==> !(a.Fill? && a.h == h)
  }

  /** The slot is free, or about to be: its callback is running. */
  predicate FreeSoon(s: State, h: Handle) {
    h !in s.slots || s.pc == Called(h)
  }

  lemma StepKeepsFree(s: State, a: Action, h: Handle)
    requires Enabled(s, a) && FreeSoon(s, h) && !(a.Fill? && a.h == h)
    ensures FreeSoon(Next(s, a), h)
  {
  }

  lemma {:induction false} RunKeepsFree(s: State, run: seq<Action>, h: Handle)
    requires IsRun(s, run) && FreeSoon(s, h) && Untouched(run, h)
    ensures FreeSoon(After(s, run), h)
    decreases |run|
  {
    hide Enabled, Next, FreeSoon;
    if run != [] {
      StepKeepsFree(s, run[0], h);
      RunKeepsFree(Next(s, run[0]), run[1..], h);
    }
  }

  lemma StepCalls(s: State, a: Action, h: Handle)
    requires Enabled(s, a)
    ensures multiset(Next(s, a).calls)[h] > multiset(s.calls)[h] ==> Next(s, a).pc == Called(h)
  {
  }

  /** A handle whose callback began and is over is free again, unless something is put into its slot in the run. */
  lemma {:induction false} CallbackFrees(s: State, run: seq<Action>, h: Handle)
    requires IsRun(s, run) && Untouched(run, h) && After(s, run).pc != Called(h)
    requires multiset(s.calls)[h] < multiset(After(s, run).calls)[h]
    ensures h !in After(s, run).slots
    decreases |run|
  {
    hide Enabled, Next;
    if run != [] {
      var s' := Next(s, run[0]);
      StepCalls(s, run[0], h);
      if multiset(s.calls)[h] < multiset(s'.calls)[h] {
        RunKeepsFree(s', run[1..], h);
      } else {
        CallbackFrees(s', run[1..], h);
      }
    }
  }

  // ----- and so is a window -----

  lemma {:induction false} OrderGrows(s: State, run: seq<Action>)
    requires Inv(s) && IsRun(s, run)
    ensures Order(s) <= Order(After(s, run))
    decreases |run|
  {
    hide Enabled, Next, Order, Coming, Counted;
    if run != [] {
      OrderKept(s, run[0]);
      StepKeepsInv(s, run[0]);
      OrderGrows(Next(s, run[0]), run[1..]);
    }
  }

  /** No part is put into a slot of the window any more. */
  ghost predicate WindowUntouched(s: State, run: seq<Action>, q: seq<nat>, base: nat, start: nat, n: nat)
    requires RingAt(s, q, base) && start + n <= |q|
  {
    forall i :: 0 <= i < n ==> Untouched(run, PartHandle(s, q, base, start, i))
  }

  lemma NoLocal(s: State)
    requires Inv(s) && s.pc == Polling
    ensures Order(s) == s.list
  {
    assert s.list + [] == s.list;
  }

  lemma ListGrows(s: State, run: seq<Action>, sweep: seq<Action>)
    requires Inv(s) && s.pc == Polling && IsRun(s, run) && IsRun(After(s, run), sweep)
    requires After(After(s, run), sweep).pc == Polling
    ensures s.list <= After(After(s, run), sweep).list
  {
    hide Inv, IsRun, After, Order;
    RunKeepsInv(s, run);
    RunKeepsInv(After(s, run), sweep);
    OrderGrows(s, run);
    OrderGrows(After(s, run), sweep);
    NoLocal(s);
    NoLocal(After(After(s, run), sweep));
  }

  lemma CalledMore(calls: seq<Handle>, before: seq<Handle>, hs: seq<Handle>, after: seq<Handle>, i: nat)
    requires i < |hs|
    ensures multiset(calls)[hs[i]] < multiset(calls + before + hs + after)[hs[i]]
  {
    assert hs[i] in multiset(hs);
  }

  lemma SameHandles(s: State, s': State, q: seq<nat>, base: nat, start: nat, q2: seq<nat>, start2: nat, n: nat)
    requires RingAt(s, q, base) && s.list <= s'.list && |q2| == |q| && start + n <= |q| && start2 + n <= |q|
    requires q2[start2..start2 + n] == q[start..start + n]
    requires forall i :: 0 <= i < n ==> PartHandle(s, q, base, start, i) !in s'.slots
    requires forall i :: start < i < start + n ==> q[i - 1] <= q[i]
    ensures base + |q2| <= |s'.list| && Window(q2, InUse(s', base, |q2|), start2, n)
  {
    hide IsRing;
    forall i | start2 <= i < start2 + n
      ensures q2[i] == q[start + (i - start2)]
    {
      assert q2[i] == q2[start2..start2 + n][i - start2] == q[start..start + n][i - start2];
    }
    forall i | start2 <= i < start2 + n
      ensures q2[i] !in InUse(s', base, |q2|)
    {
      assert PartHandle(s, q, base, start, i - start2) !in s'.slots;
    }
  }

  /** The same slots, next to each other in a ring that may have been turned meanwhile. */
  ghost predicate SameSlots(q: seq<nat>, start: nat, q2: seq<nat>, start2: nat, n: nat) {
    IsRing(q2) && |q2| == |q| && start + n <= |q| && start2 + n <= |q2| && q2[start2..start2 + n] == q[start..start + n]
  }

  lemma WindowAscends(s: State, q: seq<nat>, base: nat, start: nat, packets: seq<Packet>, peer: Peer)
    requires WindowFound(s, q, base, start, packets, peer)
    ensures forall i :: start < i < start + |packets| ==> q[i - 1] <= q[i]
  {
  }

  lemma WhereHandle(s: State, q: seq<nat>, base: nat, start: nat, packets: seq<Packet>, peer: Peer, i: nat)
    requires WindowFound(s, q, base, start, packets, peer) && i < |packets|
    ensures var p := FirstPosition(s, q, base, start, packets, peer);
            s.list[p..p + |packets|][i] == PartHandle(s, q, base, start, i)
  {
    hide Window, InUse, IsRing;
    WindowHandles(s, q, base, start, packets, peer, i);
  }

  /** The sweep calls the handle. */
  lemma WindowIsCalled(s: State, run: seq<Action>, sweep: seq<Action>, q: seq<nat>, base: nat, start: nat,
                       packets: seq<Packet>, peer: Peer, i: nat, h: Handle)
    requires Inv(s) && s.pc == Polling && WindowFound(s, q, base, start, packets, peer) && i < |packets|
    requires IsRun(s, run) && Quiet(run) && PostsParts(s, run, q, base, start, packets, |packets|)
    requires IsRun(s, run + [Move]) && IsRun(After(s, run + [Move]), sweep) && Read !in sweep
    requires After(After(s, run + [Move]), sweep).pc == Polling
    requires h == PartHandle(s, q, base, start, i)
    ensures multiset(s.calls)[h] < multiset(After(After(s, run + [Move]), sweep).calls)[h]
  {
    hide IsRun, After, PostsParts, Quiet, Inv, WindowFound, Data, FirstPosition, PartHandle;
    var n := |packets|;
    var m, tr := SplitMessageArrives(s, run, sweep, q, base, start, packets, peer, n);
    WhereHandle(s, q, base, start, packets, peer, i);
    var p := FirstPosition(s, q, base, start, packets, peer);
    CalledMore(s.calls, tr.callsBefore, s.list[p..p + n], tr.callsAfter, i);
  }

  /** The sweep is over, and the slots of the window are free. */
  lemma WindowIsEmptied(s: State, run: seq<Action>, sweep: seq<Action>, q: seq<nat>, base: nat, start: nat,
                        packets: seq<Packet>, peer: Peer, i: nat, h: Handle)
    requires Inv(s) && s.pc == Polling && WindowFound(s, q, base, start, packets, peer) && i < |packets|
    requires IsRun(s, run) && Quiet(run) && PostsParts(s, run, q, base, start, packets, |packets|)
    requires IsRun(s, run + [Move]) && IsRun(After(s, run + [Move]), sweep) && Read !in sweep
    requires After(After(s, run + [Move]), sweep).pc == Polling
    requires h == PartHandle(s, q, base, start, i) && Untouched(sweep, h)
    ensures h !in After(After(s, run + [Move]), sweep).slots
  {
    hide IsRun, After, PostsParts, Quiet, Inv, WindowFound, Untouched, Posted, FirstPosition, PartHandle;
    WindowIsPosted(s, run, q, base, start, packets, peer, |packets|);
    WindowIsCalled(s, run, sweep, q, base, start, packets, peer, i, h);
    CallbackFrees(After(s, run + [Move]), sweep, h);
  }

  /**
   * A window that has been posted and swept is free again: after the sweep the same slots make a window for another
   * message of as many parts, however the ring was turned, unless they are filled anew.
   */
  lemma WindowIsFreeAgain(s: State, run: seq<Action>, sweep: seq<Action>, q: seq<nat>, base: nat, start: nat,
                          packets: seq<Packet>, peer: Peer, q2: seq<nat>, start2: nat, next: seq<Packet>, other: Peer)
    requires Inv(s) && s.pc == Polling && WindowFound(s, q, base, start, packets, peer)
    requires IsRun(s, run) && Quiet(run) && PostsParts(s, run, q, base, start, packets, |packets|)
    requires IsRun(s, run + [Move]) && IsRun(After(s, run + [Move]), sweep) && Read !in sweep
    requires After(After(s, run + [Move]), sweep).pc == Polling
    requires WindowUntouched(s, sweep, q, base, start, |packets|)
    requires SameSlots(q, start, q2, start2, |packets|)
    requires |next| == |packets| && forall i :: 0 <= i < |next| ==> next[i].peer == other
    ensures WindowFound(After(After(s, run + [Move]), sweep), q2, base, start2, next, other)
  {
    hide IsRun, After, PostsParts, Quiet, Inv, Window, InUse, IsRing, Untouched, PartHandle;
    var s' := After(After(s, run + [Move]), sweep);
    ListGrows(s, run + [Move], sweep);
    forall i | 0 <= i < |packets|
      ensures PartHandle(s, q, base, start, i) !in s'.slots
    {
      WindowIsEmptied(s, run, sweep, q, base, start, packets, peer, i, PartHandle(s, q, base, start, i));
    }
    WindowAscends(s, q, base, start, packets, peer);
    SameHandles(s, s', q, base, start, q2, start2, |packets|);
  }
}
