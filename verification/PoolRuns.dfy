/** What whole runs of the thread pool do with the items: in order, and each to its end. */
module PoolRuns {
  import opened Sequences
  import opened ThreadPool

  // ----- first in, first out -----

  /** What a step puts at the end of the global queue. */
  function Put(s: State, a: Action): seq<Entry>
    requires Enabled(s, a)
  {
    if a.ClientPost? then [s.clients[a.c].e] else []
  }

  /** What a step takes from its front: the item that a worker begins to run. */
  function Took(s: State, a: Action): seq<Entry>
    requires Enabled(s, a)
  {
    if a.WorkerCheck? && Next(s, a).workers[a.t].Running? then [Work(Next(s, a).workers[a.t].w)] else []
  }

  function Puts(s: State, run: seq<Action>): seq<Entry>
    requires IsRun(s, run)
    decreases |run|
  {
    if run == [] then [] else Put(s, run[0]) + Puts(Next(s, run[0]), run[1..])
  }

  function Takes(s: State, run: seq<Action>): seq<Entry>
    requires IsRun(s, run)
    decreases |run|
  {
    if run == [] then [] else Took(s, run[0]) + Takes(Next(s, run[0]), run[1..])
  }

  ghost predicate Fifo(s: State, a: Action)
    requires Enabled(s, a)
  {
    s.wq + Put(s, a) == Took(s, a) + Next(s, a).wq
  }

  /** A worker that looks at the queue leaves it alone, or takes its head to run it. */
  lemma CheckTakesHead(s: State, t: nat, wake: nat)
    requires Enabled(s, WorkerCheck(t, wake))
    ensures var s' := Next(s, WorkerCheck(t, wake));
            && t < |s'.workers|
            && if s'.workers[t].Running? then s.wq != [] && s.wq[0] == Work(s'.workers[t].w) && s'.wq == s.wq[1..]
               else s'.wq == s.wq
  {
    hide Wakes;
  }

  lemma CheckIsFifo(s: State, t: nat, wake: nat)
    requires Enabled(s, WorkerCheck(t, wake))
    ensures Fifo(s, WorkerCheck(t, wake))
  {
    hide Next, Wakes;
    CheckTakesHead(s, t, wake);
    assert s.wq + [] == s.wq && [] + s.wq == s.wq;
    if s.wq != [] {
      assert s.wq == [s.wq[0]] + s.wq[1..];
    }
  }

  lemma PostIsFifo(s: State, c: nat, wake: nat)
    requires Enabled(s, ClientPost(c, wake))
    ensures Fifo(s, ClientPost(c, wake))
  {
    hide Wakes, Signal;
    var now := s.wq + [s.clients[c].e];
    assert [] + now == now;
  }

  lemma QueueUntouched(s: State, a: Action)
    requires Enabled(s, a) && !a.WorkerCheck? && !a.ClientPost? && !a.CancelDecide?
    ensures Next(s, a).wq == s.wq
  {
    hide Wakes, Signal, Without;
  }

  lemma StepIsFifo(s: State, a: Action)
    requires Enabled(s, a) && !a.CancelDecide?
    ensures Fifo(s, a)
  {
    hide Enabled, Next;
    if a.WorkerCheck? {
      CheckIsFifo(s, a.t, a.wake);
    } else if a.ClientPost? {
      PostIsFifo(s, a.c, a.wake);
    } else {
      QueueUntouched(s, a);
      assert s.wq + [] == s.wq && [] + s.wq == s.wq;
    }
  }

  /** Workers begin the items in the order in which they were posted, as long as none is cancelled. */
  lemma {:induction false} WorkIsFifo(s: State, run: seq<Action>)
    requires IsRun(s, run) && forall a :: a in run ==> !a.CancelDecide?
    ensures s.wq + Puts(s, run) == Takes(s, run) + After(s, run).wq
    decreases |run|
  {
    hide Enabled, Next, Put, Took;
    if run == [] {
      assert s.wq + [] == [] + s.wq;
    } else {
      var s', end := Next(s, run[0]), After(s, run);
      StepIsFifo(s, run[0]);
      WorkIsFifo(s', run[1..]);
      Associate(s.wq, Put(s, run[0]), Puts(s', run[1..]));
      Associate(Took(s, run[0]), s'.wq, Puts(s', run[1..]));
      Associate(Took(s, run[0]), Takes(s', run[1..]), end.wq);
    }
  }

  /** What a step hands to loop `l`, and what its callback takes. */
  function Handed(s: State, a: Action, l: nat): seq<Item>
    requires Enabled(s, a)
  {
    if a.WorkerReport? && s.items[s.workers[a.t].w].loop == l then [s.workers[a.t].w]
    else if a.CancelInsert? && a.l == l then [s.loops[l].pc.i] else []
  }

  function Called(s: State, a: Action, l: nat): seq<Item>
    requires Enabled(s, a)
  {
    if a.DoneCall? && a.l == l then [s.loops[l].drain[0]] else []
  }

  function Hands(s: State, run: seq<Action>, l: nat): seq<Item>
    requires IsRun(s, run)
    decreases |run|
  {
    if run == [] then [] else Handed(s, run[0], l) + Hands(Next(s, run[0]), run[1..], l)
  }

  function Calls(s: State, run: seq<Action>, l: nat): seq<Item>
    requires IsRun(s, run)
    decreases |run|
  {
    if run == [] then [] else Called(s, run[0], l) + Calls(Next(s, run[0]), run[1..], l)
  }

  /** The items of loop `l` before the step and after it, as they come and go. */
  ghost predicate InOrder(s: State, a: Action, l: nat)
    requires l < |s.loops| && Enabled(s, a)
  {
    && |Next(s, a).loops| == |s.loops|
    && Items(s.loops[l]) + Handed(s, a, l) == Called(s, a, l) + Items(Next(s, a).loops[l])
  }

  lemma ReportInOrder(s: State, t: nat, l: nat)
    requires Enabled(s, WorkerReport(t)) && l < |s.loops|
    ensures InOrder(s, WorkerReport(t), l)
  {
    var q := Next(s, WorkerReport(t)).loops[l];
    assert [] + Items(q) == Items(q) && Items(s.loops[l]) + [] == Items(s.loops[l]);
  }

  lemma CancelInOrder(s: State, a: Action, l: nat)
    requires l < |s.loops| && Enabled(s, a) && CancelAction(a)
    ensures InOrder(s, a, l)
  {
    var q := Next(s, a).loops[l];
    assert [] + Items(q) == Items(q) && Items(s.loops[l]) + [] == Items(s.loops[l]);
    if a.CancelInsert? && a.l == l {
      InsertFacts(s.loops[l], q, s.loops[l].pc.i);
    }
  }

  lemma CallTakesFirst(s: State, l: nat)
    requires Enabled(s, DoneCall(l))
    ensures InOrder(s, DoneCall(l), l)
  {
    var p := s.loops[l];
    assert Items(p) + [] == Items(p);
    assert p.drain + p.wq == [p.drain[0]] + (p.drain[1..] + p.wq);
  }

  lemma CallInOrder(s: State, m: nat, l: nat)
    requires l < |s.loops| && Enabled(s, DoneCall(m))
    ensures InOrder(s, DoneCall(m), l)
  {
    hide InOrder;
    if m == l {
      CallTakesFirst(s, l);
    } else {
      CallElsewhere(s, m, l);
    }
  }

  lemma CallElsewhere(s: State, m: nat, l: nat)
    requires l < |s.loops| && Enabled(s, DoneCall(m)) && m != l
    ensures InOrder(s, DoneCall(m), l)
  {
    var p := s.loops[l];
    assert [] + Items(p) == Items(p) && Items(p) + [] == Items(p);
  }

  lemma MoveInOrder(s: State, a: Action, l: nat)
    requires l < |s.loops| && Enabled(s, a) && (a.LoopWake? || a.DoneLock? || a.DoneMove?)
    requires s.loops[l].pc.DoneHold? ==> s.loops[l].drain == []
    ensures InOrder(s, a, l)
  {
    var p, q := s.loops[l], Next(s, a).loops[l];
    assert [] + Items(q) == Items(q) && Items(p) + [] == Items(p);
  }

  lemma DoneInOrder(s: State, a: Action, l: nat)
    requires l < |s.loops| && LoopFits(s.items, l, s.loops[l]) && Enabled(s, a) && DoneAction(a)
    ensures InOrder(s, a, l)
  {
    hide InOrder, Enabled, Distinct, Items;
    if a.DoneCall? {
      CallInOrder(s, a.l, l);
    } else {
      MoveInOrder(s, a, l);
    }
  }

  lemma OthersInOrder(s: State, a: Action, l: nat)
    requires l < |s.loops| && Enabled(s, a) && !(CancelAction(a) || DoneAction(a) || a.WorkerReport?)
    requires !(a.CancelDecide? && a.l == l)
    ensures InOrder(s, a, l)
  {
    hide Wakes, Without;
    var p := s.loops[l];
    assert [] + Items(p) == Items(p) && Items(p) + [] == Items(p);
  }

  lemma StepKeepsOrder(s: State, a: Action, l: nat)
    requires Inv(s) && Enabled(s, a) && l < |s.loops| && !(a.CancelDecide? && a.l == l)
    ensures InOrder(s, a, l)
  {
    hide Requests, Queues, Locks, LoopLocks, Wakeups, Exit, Leaving, Early, Next, Enabled, LoopFits, InOrder;
    assert LoopFits(s.items, l, s.loops[l]);
    if CancelAction(a) {
      CancelInOrder(s, a, l);
    } else if DoneAction(a) {
      DoneInOrder(s, a, l);
    } else if a.WorkerReport? {
      ReportInOrder(s, a.t, l);
    } else {
      OthersInOrder(s, a, l);
    }
  }

  /** `done` is called in the order in which the items came to their loop, as long as none there is cancelled. */
  lemma {:induction false} DoneIsFifo(s: State, run: seq<Action>, l: nat)
    requires Inv(s) && IsRun(s, run) && l < |s.loops| && forall a :: a in run ==> !(a.CancelDecide? && a.l == l)
    ensures |After(s, run).loops| == |s.loops|
    ensures Items(s.loops[l]) + Hands(s, run, l) == Calls(s, run, l) + Items(After(s, run).loops[l])
    decreases |run|
  {
    hide Inv, Enabled, Next, Handed, Called, Items;
    if run == [] {
      assert Items(s.loops[l]) + [] == [] + Items(s.loops[l]);
    } else {
      var s', end := Next(s, run[0]), After(s, run);
      StepKeepsOrder(s, run[0], l);
      StepKeepsInv(s, run[0]);
      DoneIsFifo(s', run[1..], l);
      Associate(Items(s.loops[l]), Handed(s, run[0], l), Hands(s', run[1..], l));
      Associate(Called(s, run[0], l), Items(s'.loops[l]), Hands(s', run[1..], l));
      Associate(Called(s, run[0], l), Calls(s', run[1..], l), Items(end.loops[l]));
    }
  }

  // ----- every item that is submitted is done -----

  /** The loop thread is cancelling this item. */
  predicate Targets(p: LoopPc, i: Item) {
    (p.CancelWant? || p.CancelHold? || p.CancelBoth? || p.CancelPut? || p.CancelPutHold?) && p.i == i
  }

  /** It is not cancelled, and nobody is about to cancel it. */
  ghost predicate Spared(s: State, i: Item) {
    && i in s.items && s.items[i].work != Cancelled && s.items[i].place != Done(Ecanceled)
    && (forall l {:trigger s.loops[l]} :: 0 <= l < |s.loops| ==> !Targets(s.loops[l].pc, i))
  }

  lemma SubmitIsSpared(s: State, c: nat, i: Item, l: nat)
    requires Inv(s) && Enabled(s, Submit(c, i, l))
    ensures Spared(Next(s, Submit(c, i, l)), i)
  {
    hide Requests, Queues, Locks, LoopLocks, Wakeups, Exit, Leaving, Early, Distinct;
    forall m | 0 <= m < |s.loops|
      ensures !Targets(s.loops[m].pc, i)
    {
      assert LoopFits(s.items, m, s.loops[m]);
    }
  }

  lemma PoolSpares(s: State, a: Action, i: Item)
    requires Enabled(s, a) && Spared(s, i) && (ClientAction(a) || WorkerAction(a) || ReportAction(a))
    ensures Spared(Next(s, a), i)
  {
    hide Wakes, Signal;
  }

  lemma LoopSpares(s: State, a: Action, i: Item)
    requires Enabled(s, a) && Spared(s, i) && !(a.Cancel? && a.i == i)
    requires CancelAction(a) || DoneAction(a) || a.CancelDecide?
    ensures Spared(Next(s, a), i)
  {
    hide Enabled, Next, Spared;
    if DoneAction(a) {
      DoneSpares(s, a, i);
    } else {
      CancelSpares(s, a, i);
    }
  }

  lemma DoneSpares(s: State, a: Action, i: Item)
    requires Enabled(s, a) && Spared(s, i) && DoneAction(a)
    ensures Spared(Next(s, a), i)
  {
  }

  lemma CancelSpares(s: State, a: Action, i: Item)
    requires Enabled(s, a) && Spared(s, i) && !(a.Cancel? && a.i == i) && (CancelAction(a) || a.CancelDecide?)
    ensures Spared(Next(s, a), i)
  {
    hide Without;
    assert !Targets(s.loops[a.l].pc, i);
  }

  lemma ExitAskedKept(s: State, a: Action)
    requires Enabled(s, a) && !a.PostExit?
    ensures Next(s, a).exitAsked == s.exitAsked && |Next(s, a).workers| == |s.workers|
  {
    hide Enabled, Next;
    StepKeepsWorkers(s, a);
    AskedKept(s, a);
  }

  lemma AskedKept(s: State, a: Action)
    requires Enabled(s, a) && !a.PostExit?
    ensures Next(s, a).exitAsked == s.exitAsked
  {
    hide Wakes, Without, Signal;
  }

  lemma {:induction false} RunSpares(s: State, run: seq<Action>, i: Item)
    requires IsRun(s, run) && Spared(s, i) && forall a :: a in run ==> !(a.Cancel? && a.i == i) && !a.PostExit?
    ensures Spared(After(s, run), i) && After(s, run).exitAsked == s.exitAsked
    ensures |After(s, run).workers| == |s.workers|
    decreases |run|
  {
    hide Enabled, Next, Spared;
    if run != [] {
      var a := run[0];
      ExitAskedKept(s, a);
      if ClientAction(a) || WorkerAction(a) || ReportAction(a) {
        PoolSpares(s, a, i);
      } else {
        LoopSpares(s, a, i);
      }
      RunSpares(Next(s, a), run[1..], i);
    }
  }

  lemma SettledIsDone(s: State, i: Item)
    requires Inv(s) && Settled(s) && !s.exitAsked && Spared(s, i)
    ensures s.items[i].place == Done(Zero) && s.items[i].runs == 1 && s.items[i].dones == 1
  {
    hide Queues, LoopQueues, Locks, LoopLocks, Wakeups, Leaving, Early, Found;
    assert FieldsFit(s.items[i]);
  }

  /**
   * A client that is not posting can always submit a new item. Whatever happens then, if nobody cancels the item and
   * the pool is not told to exit, it has run once and `done` has been called once with status 0 when no thread can go on.
   */
  lemma SubmittedIsDone(s: State, c: nat, i: Item, l: nat, run: seq<Action>)
    requires Reachable(s) && |s.workers| > 0 && !s.exitAsked
    requires c < |s.clients| && s.clients[c] == Resting && i !in s.items && l < |s.loops|
    requires forall a :: a in run ==> !(a.Cancel? && a.i == i) && !a.PostExit?
    ensures Enabled(s, Submit(c, i, l))
    ensures IsRun(Next(s, Submit(c, i, l)), run) ==>
              var end := After(Next(s, Submit(c, i, l)), run);
              i in end.items &&
              ((forall a {:trigger Enabled(end, a)} :: Internal(a) ==> !Enabled(end, a)) ==>
                 end.items[i].place == Done(Zero) && end.items[i].runs == 1 && end.items[i].dones == 1)
  {
    hide Inv, Reachable, IsRun, After, Internal, Spared, Settled;
    var s1 := Next(s, Submit(c, i, l));
    if IsRun(s1, run) {
      var end := After(s1, run);
      ReachableInv(s);
      SubmitIsSpared(s, c, i, l);
      RunSpares(s1, run, i);
      assert i in end.items by { SparedIsThere(end, i); }
      if forall a {:trigger Enabled(end, a)} :: Internal(a) ==> !Enabled(end, a) {
        StepThenRun(s, Submit(c, i, l), run);
        if !Settled(end) {
          var a := Progress(end);
        }
        ReachableInv(end);
        SettledIsDone(end, i);
      }
    }
  }

  lemma SparedIsThere(s: State, i: Item)
    requires Spared(s, i)
    ensures i in s.items
  {
  }

  lemma StepThenRun(s: State, a: Action, run: seq<Action>)
    requires Reachable(s) && Enabled(s, a) && IsRun(Next(s, a), run)
    ensures Reachable(After(Next(s, a), run)) && |After(Next(s, a), run).workers| == |s.workers|
  {
    hide Enabled, Next;
    assert ([a] + run)[0] == a && ([a] + run)[1..] == run;
    RunStaysReachable(s, [a] + run);
    RunKeepsWorkers(s, [a] + run);
  }

  // ----- the exit message -----

  /** The entries in front of the exit message, or all of them. */
  function BeforeExit(entries: seq<Entry>): seq<Entry> {
    if entries == [] || entries[0] == ExitMessage then [] else [entries[0]] + BeforeExit(entries[1..])
  }

  lemma EarlyKeptByPool(s: State, a: Action)
    requires Enabled(s, a) && (ClientAction(a) || WorkerAction(a) || ReportAction(a)) && !a.ClientPost?
    ensures Next(s, a).early == s.early && Next(s, a).exitPosted == s.exitPosted
  {
    hide Wakes, Signal;
  }

  lemma EarlyKeptByLoops(s: State, a: Action)
    requires Enabled(s, a) && (CancelAction(a) || DoneAction(a) || a.CancelDecide?)
    ensures Next(s, a).early == s.early && Next(s, a).exitPosted == s.exitPosted
  {
    hide Without;
  }

  lemma EarlyKept(s: State, a: Action)
    requires Enabled(s, a) && !a.ClientPost?
    ensures Next(s, a).early == s.early && Next(s, a).exitPosted == s.exitPosted
  {
    hide Next, Enabled;
    if ClientAction(a) || WorkerAction(a) || ReportAction(a) {
      EarlyKeptByPool(s, a);
    } else {
      EarlyKeptByLoops(s, a);
    }
  }

  lemma EarlyPosted(s: State, c: nat, wake: nat, i: Item)
    requires Enabled(s, ClientPost(c, wake))
    ensures var s', e := Next(s, ClientPost(c, wake)), s.clients[c].e;
            && (i in s'.early <==> i in s.early || (!s.exitPosted && e == Work(i)))
            && (s'.exitPosted <==> s.exitPosted || e == ExitMessage)
  {
    hide Wakes, Signal;
  }

  lemma EarlyStep(s: State, a: Action, i: Item)
    requires Enabled(s, a)
    ensures i in Next(s, a).early <==> i in s.early || (!s.exitPosted && Put(s, a) == [Work(i)])
    ensures Next(s, a).exitPosted <==> s.exitPosted || Put(s, a) == [ExitMessage]
  {
    hide Next, Wakes;
    if a.ClientPost? {
      EarlyPosted(s, a.c, a.wake, i);
    } else {
      EarlyKept(s, a);
    }
  }

  lemma OnePut(s: State, a: Action)
    requires Enabled(s, a)
    ensures |Put(s, a)| <= 1
  {
  }

  lemma BeforeExitStep(put: seq<Entry>, more: seq<Entry>)
    requires |put| <= 1
    ensures BeforeExit(put + more) ==
            if put == [] then BeforeExit(more) else if put[0] == ExitMessage then [] else put + BeforeExit(more)
  {
    if put == [] {
      assert put + more == more;
    } else {
      assert (put + more)[1..] == more;
    }
  }

  /** `early` are the items posted before the exit message. */
  lemma {:induction false} EarlyIff(s: State, run: seq<Action>, i: Item)
    requires IsRun(s, run)
    ensures i in After(s, run).early <==> i in s.early || (!s.exitPosted && Work(i) in BeforeExit(Puts(s, run)))
    decreases |run|
  {
    hide Enabled, Next, Put, BeforeExit;
    if run == [] {
      assert BeforeExit([]) == [] by { BeforeNothing(); }
    } else {
      var s' := Next(s, run[0]);
      EarlyStep(s, run[0], i);
      OnePut(s, run[0]);
      BeforeExitStep(Put(s, run[0]), Puts(s', run[1..]));
      EarlyIff(s', run[1..], i);
    }
  }

  lemma BeforeNothing()
    ensures BeforeExit([]) == []
  {
  }

  /** Once a worker has left, nothing that was posted before the exit message is still queued. */
  lemma NothingLeftBehind(workers: nat, loops: nat, clients: nat, run: seq<Action>, i: Item)
    requires IsRun(Init(workers, loops, clients), run) && Exited in After(Init(workers, loops, clients), run).workers
    requires Work(i) in BeforeExit(Puts(Init(workers, loops, clients), run))
    ensures Work(i) !in After(Init(workers, loops, clients), run).wq
  {
    hide BeforeExit, Enabled, Next;
    EarlyIff(Init(workers, loops, clients), run, i);
    OrderlyExit(After(Init(workers, loops, clients), run), i);
  }

  /** The exit message has been posted, or a client is about to post it. */
  ghost predicate ExitComing(s: State) {
    s.exitPosted || exists c :: 0 <= c < |s.clients| && Posts(s.clients[c], ExitMessage)
  }

  lemma StepKeepsExitComing(s: State, a: Action)
    requires Enabled(s, a) && ExitComing(s)
    ensures ExitComing(Next(s, a))
  {
    hide Wakes, Signal, Without;
    if c :| 0 <= c < |s.clients| && Posts(s.clients[c], ExitMessage) {
      if !Next(s, a).exitPosted {
        assert Posts(Next(s, a).clients[c], ExitMessage);
      }
    }
  }

  lemma {:induction false} RunKeepsExitComing(s: State, run: seq<Action>)
    requires IsRun(s, run) && ExitComing(s)
    ensures ExitComing(After(s, run))
    decreases |run|
  {
    hide Enabled, Next, ExitComing;
    if run != [] {
      StepKeepsExitComing(s, run[0]);
      RunKeepsExitComing(Next(s, run[0]), run[1..]);
    }
  }

  /**
   * A client that is not posting can tell the pool to exit, once; and when no thread can go on all workers have left,
   * whatever happens in between.
   */
  lemma ExitReachesAll(s: State, c: nat, run: seq<Action>)
    requires Reachable(s) && |s.workers| > 0 && !s.exitAsked && c < |s.clients| && s.clients[c] == Resting
    ensures Enabled(s, PostExit(c))
    ensures forall d {:trigger PostExit(d)} :: !Enabled(Next(s, PostExit(c)), PostExit(d))
    ensures IsRun(Next(s, PostExit(c)), run) ==>
              var end := After(Next(s, PostExit(c)), run);
              (forall a {:trigger Enabled(end, a)} :: Internal(a) ==> !Enabled(end, a)) ==>
                end.exitPosted && forall t :: 0 <= t < |end.workers| ==> end.workers[t] == Exited
  {
    hide Inv, Reachable, IsRun, After, Internal, Wakes;
    var s1 := Next(s, PostExit(c));
    if IsRun(s1, run) {
      var end := After(s1, run);
      assert Posts(s1.clients[c], ExitMessage);
      RunKeepsExitComing(s1, run);
      if forall a {:trigger Enabled(end, a)} :: Internal(a) ==> !Enabled(end, a) {
        StepThenRun(s, PostExit(c), run);
        if !Settled(end) {
          var a := Progress(end);
        }
      }
    }
  }
}
