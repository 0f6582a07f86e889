/**
 * Putting the parts of a split message into the slots of a window (src/ws/CAsyncs.cpp:356-366), while other threads
 * send on other slots and the loop thread polls, up to the sweep that finds them.
 */
module Posting {
  import opened Bytes
  import opened AsyncIo
  import opened SlotRings
  import opened SplitSend

  // ----- runs between two sweeps -----

  /** The loop thread may be woken up, but it calls nothing and does not begin to sweep. */
  ghost predicate Quiet(run: seq<Action>) {
    forall a :: a in run ==> !a.Move? && !a.Visit? && !a.Callback?
  }

  ghost predicate BetweenSweeps(s: State) {
    (s.pc == Polling || s.pc == Drained) && s.local == []
  }

  /** What a quiet run leaves alone: handles only join at the end, and no slot is emptied and no flag taken down. */
  ghost predicate Grown(s: State, s': State) {
    && s.list <= s'.list && s.pending <= s'.pending
    && (forall h :: h in s.slots ==> h in s'.slots && s'.slots[h] == s.slots[h])
    && s'.calls == s.calls && s'.written == s.written
  }

  lemma QuietStep(s: State, a: Action)
    requires BetweenSweeps(s) && Enabled(s, a) && !a.Move? && !a.Visit? && !a.Callback?
    ensures BetweenSweeps(Next(s, a)) && Grown(s, Next(s, a))
  {
  }

  lemma GrownTwice(s: State, s1: State, s2: State)
    requires Grown(s, s1) && Grown(s1, s2)
    ensures Grown(s, s2)
  {
  }

  lemma {:induction false} QuietRun(s: State, run: seq<Action>)
    requires BetweenSweeps(s) && IsRun(s, run) && Quiet(run)
    ensures BetweenSweeps(After(s, run)) && Grown(s, After(s, run))
    decreases |run|
  {
    hide BetweenSweeps, Enabled, Next;
    if run == [] {
      assert Grown(s, s);
    } else {
      QuietStep(s, run[0]);
      QuietRun(Next(s, run[0]), run[1..]);
      GrownTwice(s, Next(s, run[0]), After(s, run));
    }
  }

  lemma {:induction false} RunJoin(s: State, a: seq<Action>, b: seq<Action>)
    ensures IsRun(s, a + b) <==> IsRun(s, a) && IsRun(After(s, a), b)
    ensures IsRun(s, a + b) ==> After(s, a + b) == After(After(s, a), b)
    decreases |a|
  {
    hide Enabled, Next;
    if a == [] {
      assert a + b == b;
    } else {
      assert (a + b)[0] == a[0] && (a + b)[1..] == a[1..] + b;
      if Enabled(s, a[0]) {
        RunJoin(Next(s, a[0]), a[1..], b);
      }
    }
  }

  // ----- posting -----

  /** The run contains a call of `uv_async_send` for `h`, with its swap when the flag was found clear. */
  ghost predicate Sends(s: State, run: seq<Action>, h: Handle)
    requires IsRun(s, run)
    decreases |run|
  {
    run != [] &&
    ((run[0].Send? && run[0].h == h && (h in s.pending || Swap(run[0].t) in run[1..])) || Sends(Next(s, run[0]), run[1..], h))
  }

  /** The run contains what `sendDataWithAsync` does: filling the slot, and then sending on its handle. */
  ghost predicate PostsPart(s: State, run: seq<Action>, h: Handle, packet: Packet)
    requires IsRun(s, run)
    decreases |run|
  {
    run != [] &&
    ((run[0] == Fill(h, packet) && Sends(Next(s, run[0]), run[1..], h)) || PostsPart(Next(s, run[0]), run[1..], h, packet))
  }

  /** A thread that found the flag clear and swaps later leaves it set, whoever else sends on the handle. */
  lemma {:induction false} SwapRaises(s: State, run: seq<Action>, t: nat, h: Handle)
    requires BetweenSweeps(s) && IsRun(s, run) && Quiet(run)
    requires t < |s.senders| && s.senders[t] == Checked(h) && Swap(t) in run
    ensures h in After(s, run).pending
    decreases |run|
  {
    QuietStep(s, run[0]);
    if run[0] == Swap(t) {
      QuietRun(Next(s, run[0]), run[1..]);
    } else {
      StaysChecked(s, run[0], t, h);
      SwapRaises(Next(s, run[0]), run[1..], t, h);
    }
    hide Enabled, BetweenSweeps;
  }

  lemma StaysChecked(s: State, a: Action, t: nat, h: Handle)
    requires t < |s.senders| && s.senders[t] == Checked(h) && Enabled(s, a) && a != Swap(t)
    ensures t < |Next(s, a).senders| && Next(s, a).senders[t] == Checked(h)
  {
  }

  lemma {:induction false} SendRaises(s: State, run: seq<Action>, h: Handle)
    requires BetweenSweeps(s) && IsRun(s, run) && Quiet(run) && Sends(s, run, h)
    ensures h in After(s, run).pending
    decreases |run|
  {
    hide BetweenSweeps;
    QuietStep(s, run[0]);
    var s', rest := Next(s, run[0]), run[1..];
    QuietRun(s', rest);
    if Sends(s', rest, h) {
      SendRaises(s', rest, h);
    } else if h !in s.pending {
      SwapRaises(s', rest, run[0].t, h);
    }
  }

  /** So once a part is posted its slot holds it and its flag is set, until the sweep. */
  lemma {:induction false} PartStays(s: State, run: seq<Action>, h: Handle, packet: Packet)
    requires BetweenSweeps(s) && IsRun(s, run) && Quiet(run) && PostsPart(s, run, h, packet)
    ensures InPlace(After(s, run), h, packet)
    decreases |run|
  {
    hide BetweenSweeps, Sends;
    QuietStep(s, run[0]);
    var s', rest := Next(s, run[0]), run[1..];
    if PostsPart(s', rest, h, packet) {
      PartStays(s', rest, h, packet);
    } else {
      SendRaises(s', rest, h);
      QuietRun(s', rest);
    }
  }

  // ----- the window in the loop's list -----

  /** Slot `id` is handle `base + id` of the loop's list: `CAsyncs` initialises its handles one after the other. */
  ghost predicate RingAt(s: State, q: seq<nat>, base: nat) {
    IsRing(q) && q != [] && base + |q| <= |s.list|
  }

  ghost function SlotHandle(s: State, base: nat, id: nat): Handle
    requires base + id < |s.list|
  {
    s.list[base + id]
  }

  ghost function InUse(s: State, base: nat, n: nat): set<nat>
    requires base + n <= |s.list|
  {
    set id | 0 <= id < n && SlotHandle(s, base, id) in s.slots
  }

  ghost predicate InPlace(s: State, h: Handle, packet: Packet) {
    h in s.pending && h in s.slots && s.slots[h] == packet
  }

  /** A window of the ring is found free, for as many slots as there are parts. */
  ghost predicate WindowFound(s: State, q: seq<nat>, base: nat, start: nat, packets: seq<Packet>, peer: Peer) {
    && RingAt(s, q, base) && packets != [] && start + |packets| <= |q|
    && Window(q, InUse(s, base, |q|), start, |packets|)
    && forall i :: 0 <= i < |packets| ==> packets[i].peer == peer
  }

  /** The handle of part `i`: that of the slot which the ring hands out for it. */
  ghost function PartHandle(s: State, q: seq<nat>, base: nat, start: nat, i: nat): Handle
    requires RingAt(s, q, base) && start + i < |q|
  {
    SlotHandle(s, base, q[start + i])
  }

  /** They are free, and next to each other in the loop's list. */
  lemma WindowHandles(s: State, q: seq<nat>, base: nat, start: nat, packets: seq<Packet>, peer: Peer, i: nat)
    requires WindowFound(s, q, base, start, packets, peer) && i < |packets|
    ensures q[start] + |packets| <= |q|
    ensures PartHandle(s, q, base, start, i) == s.list[base + q[start] + i]
    ensures PartHandle(s, q, base, start, i) in s.list && PartHandle(s, q, base, start, i) !in s.slots
  {
    var busy := InUse(s, base, |q|);
    WindowIsContiguous(q, busy, start, |packets|, start + |packets| - 1);
    WindowIsContiguous(q, busy, start, |packets|, start + i);
    assert q[start + i] !in busy;
    hide IsRing;
  }

  /** Where in the loop's list the handle of the first part is; the others follow it. */
  ghost function FirstPosition(s: State, q: seq<nat>, base: nat, start: nat, packets: seq<Packet>, peer: Peer): (p: nat)
    requires WindowFound(s, q, base, start, packets, peer)
    ensures p + |packets| <= |s.list|
  {
    WindowHandles(s, q, base, start, packets, peer, 0);
    base + q[start]
  }

  /** The first `n` parts are posted in the run: all of them, or fewer when a part could not be sent any more. */
  ghost predicate PostsParts(s: State, run: seq<Action>, q: seq<nat>, base: nat, start: nat, packets: seq<Packet>, n: nat)
    requires IsRun(s, run) && RingAt(s, q, base) && n <= |packets| && start + n <= |q|
  {
    forall i :: 0 <= i < n ==> PostsPart(s, run, PartHandle(s, q, base, start, i), packets[i])
  }

  /** Posting between two sweeps ends in what the sweep needs. */
  lemma WindowIsPosted(s: State, run: seq<Action>, q: seq<nat>, base: nat, start: nat, packets: seq<Packet>, peer: Peer,
                       n: nat)
    requires Inv(s) && s.pc == Polling && WindowFound(s, q, base, start, packets, peer) && n <= |packets|
    requires IsRun(s, run + [Move]) && IsRun(s, run) && Quiet(run) && PostsParts(s, run, q, base, start, packets, n)
    ensures var s' := After(s, run + [Move]);
            && Posted(s', Split(s'.local, FirstPosition(s, q, base, start, packets, peer), packets[..n], peer))
            && s.list <= s'.local && s'.calls == s.calls && s'.written == s.written
  {
    hide PostsParts, PostsPart, Quiet, Inv, IsRun, After, InPlace, Window, InUse, Posted, Shape;
    RunJoin(s, run, [Move]);
    InvIsShape(s);
    QuietRun(s, run);
    RunKeepsInv(s, run);
    var s1, p := After(s, run), FirstPosition(s, q, base, start, packets, peer);
    LastStep(s1, Move);
    InvIsShape(s1);
    forall i | 0 <= i < n
      ensures InPlace(s1, s1.list[p + i], packets[..n][i])
    {
      PartIsThere(s, run, q, base, start, packets, peer, n, i);
      assert s1.list[p + i] == s.list[p + i];
    }
    MoveIsPosted(s1, p, packets[..n], peer);
  }

  lemma InvIsShape(s: State)
    requires Inv(s)
    ensures Shape(s) && (s.pc == Polling ==> BetweenSweeps(s))
  {
  }

  lemma LastStep(s: State, a: Action)
    requires IsRun(s, [a])
    ensures Enabled(s, a) && After(s, [a]) == Next(s, a)
  {
    assert [a][1..] == [];
  }

  lemma PartIsThere(s: State, run: seq<Action>, q: seq<nat>, base: nat, start: nat, packets: seq<Packet>, peer: Peer,
                    n: nat, i: nat)
    requires BetweenSweeps(s) && IsRun(s, run) && Quiet(run) && WindowFound(s, q, base, start, packets, peer)
    requires n <= |packets| && PostsParts(s, run, q, base, start, packets, n) && i < n
    ensures InPlace(After(s, run), s.list[FirstPosition(s, q, base, start, packets, peer) + i], packets[i])
  {
    WindowHandles(s, q, base, start, packets, peer, i);
    PartStays(s, run, PartHandle(s, q, base, start, i), packets[i]);
  }

  lemma MoveIsPosted(s: State, p: nat, packets: seq<Packet>, peer: Peer)
    requires Shape(s) && s.pc == Drained && p + |packets| <= |s.list|
    requires forall i :: 0 <= i < |packets| ==> packets[i].peer == peer
    requires forall i :: 0 <= i < |packets| ==> InPlace(s, s.list[p + i], packets[i])
    ensures Posted(Next(s, Move), Split(s.list, p, packets, peer))
  {
    hide InPlace, Filled, Raised;
    var d := Split(s.list, p, packets, peer);
    assert Order(s) == s.list;
    HoldsParts(Next(s, Move), s, d);
  }

  lemma HoldsParts(s: State, s0: State, d: Split)
    requires WellPlaced(d) && s.pending == s0.pending && s.slots == s0.slots
    requires forall i :: 0 <= i < |d.packets| ==> InPlace(s0, d.all[d.p + i], d.packets[i])
    ensures Filled(s, d, 0) && Raised(s, d, 0)
  {
    forall r {:trigger d.all[r]} | d.p <= r < End(d)
      ensures d.all[r] in s.pending && d.all[r] in s.slots && s.slots[d.all[r]] == d.packets[r - d.p]
    {
      assert InPlace(s0, d.all[d.p + (r - d.p)], d.packets[r - d.p]);
    }
    hide InPlace;
  }

  /**
   * A split message from the window to the peer. Take any state between two sweeps in which a window is found, any
   * run up to the next sweep in which the first `n` parts are posted, whatever other threads do meanwhile, and any
   * run of the sweep. It calls the handles of the posted parts one after the other with none in between, and what it
   * writes for them is the first `m` parts, with nothing in between: a prefix of the message, and all of it if all
   * parts were posted and the peer is registered at the end.
   */
  lemma SplitMessageArrives(s: State, run: seq<Action>, sweep: seq<Action>, q: seq<nat>, base: nat, start: nat,
                            packets: seq<Packet>, peer: Peer, n: nat) returns (m: nat, tr: Trace)
    requires Inv(s) && s.pc == Polling && WindowFound(s, q, base, start, packets, peer) && n <= |packets|
    requires IsRun(s, run) && Quiet(run) && PostsParts(s, run, q, base, start, packets, n)
    requires IsRun(s, run + [Move]) && IsRun(After(s, run + [Move]), sweep) && Read !in sweep
    requires After(After(s, run + [Move]), sweep).pc == Polling
    ensures var s', p := After(After(s, run + [Move]), sweep), FirstPosition(s, q, base, start, packets, peer);
            && s'.calls == s.calls + tr.callsBefore + s.list[p..p + n] + tr.callsAfter
            && m <= n && s'.written == s.written + tr.before + packets[..m] + tr.after
            && Data(packets[..m]) <= Data(packets)
            && (peer in s'.registered ==> m == n) && (peer in s'.registered && n == |packets| ==> packets[..m] == packets)
  {
    hide Posted, IsRun, After, PostsParts, Inv, WindowFound, Quiet;
    WindowIsPosted(s, run, q, base, start, packets, peer, n);
    var s1, p := After(s, run + [Move]), FirstPosition(s, q, base, start, packets, peer);
    var d := Split(s1.local, p, packets[..n], peer);
    m, tr := SplitMessageInOrder(s1, sweep, d);
    assert packets[..n][..m] == packets[..m];
    DataPrefix(packets, m);
    assert d.all[p..p + n] == s.list[p..p + n];
  }

  // ----- such runs exist -----

  lemma {:induction false} SendsLonger(s: State, a: seq<Action>, b: seq<Action>, h: Handle)
    requires IsRun(s, a) && IsRun(s, a + b) && Sends(s, a, h)
    ensures Sends(s, a + b, h)
    decreases |a|
  {
    hide Enabled, Next;
    assert (a + b)[0] == a[0] && (a + b)[1..] == a[1..] + b;
    if Sends(Next(s, a[0]), a[1..], h) {
      SendsLonger(Next(s, a[0]), a[1..], b, h);
    }
  }

  lemma {:induction false} PostsLonger(s: State, a: seq<Action>, b: seq<Action>, h: Handle, packet: Packet)
    requires IsRun(s, a) && IsRun(s, a + b) && PostsPart(s, a, h, packet)
    ensures PostsPart(s, a + b, h, packet)
    decreases |a|
  {
    hide Enabled, Next, Sends;
    assert (a + b)[0] == a[0] && (a + b)[1..] == a[1..] + b;
    if PostsPart(Next(s, a[0]), a[1..], h, packet) {
      PostsLonger(Next(s, a[0]), a[1..], b, h, packet);
    } else {
      SendsLonger(Next(s, a[0]), a[1..], b, h);
    }
  }

  lemma {:induction false} PostsLater(s: State, a: seq<Action>, b: seq<Action>, h: Handle, packet: Packet)
    requires IsRun(s, a) && IsRun(s, a + b) && IsRun(After(s, a), b) && PostsPart(After(s, a), b, h, packet)
    ensures PostsPart(s, a + b, h, packet)
    decreases |a|
  {
    hide Enabled, Next, Sends;
    if a == [] {
      assert a + b == b;
    } else {
      assert (a + b)[0] == a[0] && (a + b)[1..] == a[1..] + b;
      PostsLater(Next(s, a[0]), a[1..], b, h, packet);
    }
  }

  /** A thread that has nothing else to do, between two sweeps. */
  ghost predicate MayPost(s: State, t: nat) {
    s.pc == Polling && s.local == [] && t < |s.senders| && s.senders[t] == Ready
  }

  lemma FirstStep(s: State, a: Action, run: seq<Action>)
    requires Enabled(s, a) && IsRun(Next(s, a), run)
    ensures IsRun(s, [a] + run) && After(s, [a] + run) == After(Next(s, a), run)
    ensures ([a] + run)[0] == a && ([a] + run)[1..] == run
  {
  }

  lemma SendOne(s: State, t: nat, h: Handle) returns (run: seq<Action>)
    requires MayPost(s, t) && h in s.list
    ensures IsRun(s, run) && Quiet(run) && Sends(s, run, h) && MayPost(After(s, run), t)
    ensures After(s, run).list == s.list && After(s, run).slots == s.slots
  {
    var s1 := Next(s, Send(t, h));
    if h in s.pending {
      run := [Send(t, h)];
      OneStep(s, Send(t, h));
    } else {
      var s2 := Next(s1, Swap(t));
      OneStep(s2, Write(t));
      FirstStep(s1, Swap(t), [Write(t)]);
      FirstStep(s, Send(t, h), [Swap(t)] + [Write(t)]);
      run := [Send(t, h)] + ([Swap(t)] + [Write(t)]);
    }
    hide IsRun, After;
  }

  lemma PostOne(s: State, t: nat, h: Handle, packet: Packet) returns (run: seq<Action>)
    requires MayPost(s, t) && h in s.list && h !in s.slots
    ensures IsRun(s, run) && Quiet(run) && PostsPart(s, run, h, packet) && MayPost(After(s, run), t)
    ensures After(s, run).list == s.list && After(s, run).slots == s.slots[h := packet]
  {
    hide IsRun, After, Sends;
    var send := SendOne(Next(s, Fill(h, packet)), t, h);
    FirstStep(s, Fill(h, packet), send);
    run := [Fill(h, packet)] + send;
  }

  lemma {:induction false} PostAll(s: State, t: nat, hs: seq<Handle>, packets: seq<Packet>) returns (run: seq<Action>)
    requires MayPost(s, t) && |hs| == |packets|
    requires forall i :: 0 <= i < |hs| ==> hs[i] in s.list && hs[i] !in s.slots
    requires forall i, j :: 0 <= i < j < |hs| ==> hs[i] != hs[j]
    ensures IsRun(s, run) && Quiet(run) && MayPost(After(s, run), t)
    ensures forall i :: 0 <= i < |hs| ==> PostsPart(s, run, hs[i], packets[i])
    decreases |hs|
  {
    hide PostsPart, MayPost, IsRun, After;
    if hs == [] {
      run := [];
      NoRun(s);
    } else {
      var first := PostOne(s, t, hs[0], packets[0]);
      var s1 := After(s, first);
      var more := PostAll(s1, t, hs[1..], packets[1..]);
      RunJoin(s, first, more);
      run := first + more;
      forall i | 0 <= i < |hs|
        ensures PostsPart(s, run, hs[i], packets[i])
      {
        if i == 0 {
          PostsLonger(s, first, more, hs[0], packets[0]);
        } else {
          assert PostsPart(s1, more, hs[1..][i - 1], packets[1..][i - 1]);
          PostsLater(s, first, more, hs[i], packets[i]);
        }
      }
    }
  }

  lemma NoRun(s: State)
    ensures IsRun(s, []) && After(s, []) == s
  {
  }

  lemma OneStep(s: State, a: Action)
    requires Enabled(s, a)
    ensures IsRun(s, [a]) && After(s, [a]) == Next(s, a)
  {
    assert [a][1..] == [];
  }

  /** With a flag set between two sweeps the loop thread is going to sweep. */
  lemma SweepComes(s: State, h: Handle) returns (run: seq<Action>)
    requires Inv(s) && s.pc == Polling && h in s.pending
    ensures IsRun(s, run) && Quiet(run) && Enabled(After(s, run), Move)
  {
    if s.readable {
      run := [Read];
      OneStep(s, Read);
    } else {
      var t := WriterOf(s, h);
      run := [Write(t)] + [Read];
      OneStep(s, Write(t));
      OneStep(Next(s, Write(t)), Read);
      RunJoin(s, [Write(t)], [Read]);
    }
    hide Inv, IsRun, After;
  }

  lemma WriterOf(s: State, h: Handle) returns (t: nat)
    requires Inv(s) && s.pc == Polling && h in s.pending && !s.readable
    ensures t < |s.senders| && s.senders[t] == Won(h)
  {
    assert OnItsWay(s, h);
    t :| 0 <= t < |s.senders| && s.senders[t] == Won(h);
  }

  /** Whenever a window is found and a thread is there to post, there is a run in which it posts all parts. */
  lemma PostingCanHappen(s: State, t: nat, q: seq<nat>, base: nat, start: nat, packets: seq<Packet>, peer: Peer)
    returns (run: seq<Action>)
    requires Inv(s) && MayPost(s, t) && WindowFound(s, q, base, start, packets, peer)
    ensures IsRun(s, run) && IsRun(s, run + [Move]) && Quiet(run)
    ensures PostsParts(s, run, q, base, start, packets, |packets|)
  {
    hide PostsPart, IsRun, After, Window, InUse, Coming, Counted;
    var hs := seq(|packets|, i requires 0 <= i < |packets| => PartHandle(s, q, base, start, i));
    HandlesFree(s, q, base, start, packets, peer, hs);
    var posts := PostAll(s, t, hs, packets);
    RunKeepsInv(s, posts);
    PartStays(s, posts, hs[0], packets[0]);
    var wake := SweepComes(After(s, posts), hs[0]);
    RunJoin(s, posts, wake);
    run := posts + wake;
    OneStep(After(s, run), Move);
    RunJoin(s, run, [Move]);
    forall i | 0 <= i < |packets|
      ensures PostsPart(s, run, PartHandle(s, q, base, start, i), packets[i])
    {
      assert PostsPart(s, posts, hs[i], packets[i]);
      PostsLonger(s, posts, wake, hs[i], packets[i]);
    }
  }

  lemma HandlesFree(s: State, q: seq<nat>, base: nat, start: nat, packets: seq<Packet>, peer: Peer, hs: seq<Handle>)
    requires Shape(s) && WindowFound(s, q, base, start, packets, peer) && |hs| == |packets|
    requires forall i :: 0 <= i < |hs| ==> hs[i] == PartHandle(s, q, base, start, i)
    ensures forall i :: 0 <= i < |hs| ==> hs[i] in s.list && hs[i] !in s.slots
    ensures forall i, j :: 0 <= i < j < |hs| ==> hs[i] != hs[j]
  {
    hide Window, InUse, IsRing;
    var p := FirstPosition(s, q, base, start, packets, peer);
    forall i | 0 <= i < |hs|
      ensures hs[i] == s.list[p + i] && hs[i] in s.list && hs[i] !in s.slots
    {
      WindowHandles(s, q, base, start, packets, peer, i);
    }
    assert forall i :: 0 <= i < |s.list| ==> Order(s)[i] == s.list[i];
  }
}
