/** What `uv__work_cancel` of deps/libuv/src/threadpool.c decides, and what becomes of the item that it accepts. */
module Cancels {
  import opened PoolRuns
  import opened Sequences
  import opened ThreadPool

  /** The item is still in the global queue, or already cancelled and waiting at its loop. */
  ghost predicate Queued(s: State, l: nat, i: Item)
    requires l < |s.loops| && i in s.items
  {
    Work(i) in s.wq || (i in s.loops[l].drain + s.loops[l].wq && s.items[i].work == Cancelled)
  }

  /** No queue, no worker and no client has it. */
  ghost predicate Nowhere(s: State, i: Item) {
    && Work(i) !in s.wq
    && (forall m :: 0 <= m < |s.loops| ==> i !in s.loops[m].drain && i !in s.loops[m].wq)
    && (forall t :: 0 <= t < |s.workers| ==> !Carries(s.workers[t], i))
    && (forall c :: 0 <= c < |s.clients| ==> !Posts(s.clients[c], Work(i)))
  }

  /** A worker has it, or has run it and handed it to its loop. */
  ghost predicate Taken(s: State, l: nat, i: Item)
    requires l < |s.loops| && i in s.items
  {
    || (exists t :: 0 <= t < |s.workers| && Carries(s.workers[t], i))
    || (i in s.loops[l].drain + s.loops[l].wq && s.items[i].runs == 1)
  }

  /** Where the request can be when `uv__work_cancel` looks at it. */
  lemma TargetPlace(s: State, l: nat)
    requires Inv(s) && Enabled(s, CancelDecide(l))
    ensures var i := s.loops[l].pc.i; var r := s.items[i];
            && r.loop == l && FieldsFit(r)
            && match r.place
               case InPool => Work(i) in s.wq && i !in Items(s.loops[l])
               case WithWorker(t) =>
                 t < |s.workers| && Carries(s.workers[t], i) && Work(i) !in s.wq && i !in Items(s.loops[l])
               case Completed => i in Items(s.loops[l]) && Work(i) !in s.wq
               case _ => false
  {
    hide Locks, LoopLocks, Wakeups, Exit, Leaving, Early, Distinct;
    var i := s.loops[l].pc.i;
    assert LoopFits(s.items, l, s.loops[l]);
    assert FieldsFit(s.items[i]) && Found(i, s.items[i], s.wq, s.workers, s.clients, s.loops);
  }

  /** The decision is to cancel if and only if the item is queued; refused, a worker has it or has run it. */
  lemma DecidesIff(s: State, l: nat)
    requires Reachable(s) && Enabled(s, CancelDecide(l))
    ensures var i, s' := s.loops[l].pc.i, Next(s, CancelDecide(l));
            && s'.loops[l].pc == (if Queued(s, l, i) then CancelPut(i) else Idle)
            && (!Queued(s, l, i) ==> Taken(s, l, i) && s'.items == s.items && s'.wq == s.wq
                                     && s'.loops[l].drain == s.loops[l].drain && s'.loops[l].wq == s.loops[l].wq)
  {
    hide Inv, Reachable;
    ReachableInv(s);
    TargetPlace(s, l);
    if Queued(s, l, s.loops[l].pc.i) {
      assert s.items[s.loops[l].pc.i].linked;
    }
  }

  /** Accepted, it is taken out of the queue that it is in, and the other entries keep their places. */
  lemma AcceptedIsNowhere(s: State, l: nat)
    requires Reachable(s) && Enabled(s, CancelDecide(l)) && Queued(s, l, s.loops[l].pc.i)
    ensures var i, s' := s.loops[l].pc.i, Next(s, CancelDecide(l));
            && Nowhere(s', i)
            && s'.wq == Without(s.wq, Work(i)) && s'.workers == s.workers && s'.clients == s.clients
            && s'.loops[l].drain == Without(s.loops[l].drain, i) && s'.loops[l].wq == Without(s.loops[l].wq, i)
            && forall m :: 0 <= m < |s.loops| && m != l ==> s'.loops[m] == s.loops[m]
  {
    hide Inv, Reachable;
    ReachableInv(s);
    DecidesIff(s, l);
    var i, s' := s.loops[l].pc.i, Next(s, CancelDecide(l));
    StepKeepsInv(s, CancelDecide(l));
    NobodyHas(s', i);
  }

  lemma NobodyHas(s: State, i: Item)
    requires Inv(s) && i in s.items && s.items[i].place == Cancelling
    ensures Nowhere(s, i)
  {
    hide Requests, Locks, LoopLocks, Wakeups, Exit, Leaving, Early, Distinct;
    forall m | 0 <= m < |s.loops|
      ensures i !in s.loops[m].drain && i !in s.loops[m].wq
    {
      assert LoopFits(s.items, m, s.loops[m]);
      assert i !in Items(s.loops[m]);
    }
  }

  // ----- what becomes of it -----

  /** Cancelled for good. */
  predicate Recalled(r: Request) {
    r.work == Cancelled && r.runs == 0 && (r.place == Cancelling || r.place == Completed || r.place == Done(Ecanceled))
  }

  /** Clients and workers touch only what they have in hand, or at the head of the queue. */
  lemma ThreadsLeaveIt(s: State, a: Action, i: Item)
    requires Queues(s.items, s.wq, s.workers, s.clients) && Enabled(s, a) && i in s.items && Recalled(s.items[i])
    requires ClientAction(a) || WorkerAction(a) || ReportAction(a)
    ensures i in Next(s, a).items && Next(s, a).items[i] == s.items[i]
  {
    hide Distinct, Wakes, Signal;
  }

  lemma LoopsKeepIt(s: State, a: Action, i: Item)
    requires Enabled(s, a) && i in s.items && Recalled(s.items[i])
    requires CancelAction(a) || DoneAction(a) || a.CancelDecide?
    ensures i in Next(s, a).items && Recalled(Next(s, a).items[i])
  {
    hide Without;
  }

  lemma StaysCancelled(s: State, a: Action, i: Item)
    requires Inv(s) && Enabled(s, a) && i in s.items && Recalled(s.items[i])
    ensures i in Next(s, a).items && Recalled(Next(s, a).items[i])
  {
    hide Next, Enabled, Recalled, Queues, Requests, Locks, LoopLocks, Wakeups, Exit, Leaving, Early, LoopQueues;
    if ClientAction(a) || WorkerAction(a) || ReportAction(a) {
      ThreadsLeaveIt(s, a, i);
    } else {
      LoopsKeepIt(s, a, i);
    }
  }

  lemma {:induction false} RunStaysCancelled(s: State, run: seq<Action>, i: Item)
    requires Inv(s) && IsRun(s, run) && i in s.items && Recalled(s.items[i])
    ensures i in After(s, run).items && Recalled(After(s, run).items[i])
    decreases |run|
  {
    hide Inv, Enabled, Next, Recalled;
    if run != [] {
      StepKeepsInv(s, run[0]);
      StaysCancelled(s, run[0], i);
      RunStaysCancelled(Next(s, run[0]), run[1..], i);
    }
  }

  lemma AcceptedIsRecalled(s: State, l: nat)
    requires Reachable(s) && Enabled(s, CancelDecide(l)) && Queued(s, l, s.loops[l].pc.i)
    ensures var i, s' := s.loops[l].pc.i, Next(s, CancelDecide(l)); i in s'.items && Recalled(s'.items[i])
  {
    hide Inv, Reachable;
    ReachableInv(s);
    TargetPlace(s, l);
    DecidesIff(s, l);
  }

  /** Where no thread can go on, a cancelled request has been handed back. */
  lemma RestHandsBack(s: State, i: Item)
    requires Reachable(s) && |s.workers| > 0 && i in s.items && Recalled(s.items[i])
    requires forall a {:trigger Enabled(s, a)} :: Internal(a) ==> !Enabled(s, a)
    ensures s.items[i].place == Done(Ecanceled) && s.items[i].dones == 1
  {
    hide Inv, Reachable, Enabled, Internal;
    if !Settled(s) {
      var a := Progress(s);
    }
    ReachableInv(s);
    assert s.items[i].dones == 1 by { Fields(s, i); }
  }

  lemma Fields(s: State, i: Item)
    requires Inv(s) && i in s.items
    ensures FieldsFit(s.items[i])
  {
    assert FieldsFit(s.items[i]);
  }

  /**
   * A request that is accepted never runs, in any run from there, and once no thread can go on its `done` has been
   * called exactly once, with UV_ECANCELED.
   */
  lemma CancelSucceeds(s: State, l: nat, run: seq<Action>)
    requires Reachable(s) && Enabled(s, CancelDecide(l)) && Queued(s, l, s.loops[l].pc.i)
    requires IsRun(Next(s, CancelDecide(l)), run)
    ensures var i, end := s.loops[l].pc.i, After(Next(s, CancelDecide(l)), run);
            && i in end.items && end.items[i].runs == 0
            && (|s.workers| > 0 && (forall a {:trigger Enabled(end, a)} :: Internal(a) ==> !Enabled(end, a)) ==>
                  end.items[i].place == Done(Ecanceled) && end.items[i].dones == 1)
  {
    hide Inv, Reachable, Next, IsRun, After, Recalled, Internal;
    var i, s1 := s.loops[l].pc.i, Next(s, CancelDecide(l));
    var end := After(s1, run);
    ReachableInv(s);
    StepKeepsInv(s, CancelDecide(l));
    AcceptedIsRecalled(s, l);
    RunStaysCancelled(s1, run, i);
    assert end.items[i].runs == 0 by { NeverRuns(end.items[i]); }
    if |s.workers| > 0 && forall a {:trigger Enabled(end, a)} :: Internal(a) ==> !Enabled(end, a) {
      StepThenRun(s, CancelDecide(l), run);
      RestHandsBack(end, i);
    }
  }

  lemma NeverRuns(r: Request)
    requires Recalled(r)
    ensures r.runs == 0
  {
  }

  lemma FirstStep(s: State, a: Action, run: seq<Action>)
    requires Enabled(s, a) && IsRun(Next(s, a), run)
    ensures IsRun(s, [a] + run) && After(s, [a] + run) == After(Next(s, a), run)
  {
    hide Enabled, Next;
    assert ([a] + run)[0] == a && ([a] + run)[1..] == run;
  }

  lemma NoStep(s: State)
    ensures IsRun(s, []) && After(s, []) == s
  {
  }

  /** The decision can be reached: with both locks free, by the three steps of the loop thread up to it. */
  lemma CancelCanHappen(s: State, l: nat, i: Item) returns (run: seq<Action>)
    requires l < |s.loops| && i in s.items && s.items[i].loop == l
    requires s.items[i].place == InPool || s.items[i].place.WithWorker? || s.items[i].place == Completed
    requires s.loops[l].pc == Idle && s.mutex == Free && s.loops[l].wqMutex == Free
    ensures IsRun(s, run) && After(s, run).items == s.items && After(s, run).wq == s.wq
    ensures Enabled(After(s, run), CancelDecide(l)) && After(s, run).loops[l].pc.i == i
  {
    hide IsRun, After;
    var s1 := Next(s, Cancel(l, i));
    var s2 := Next(s1, CancelLock(l));
    NoStep(Next(s2, CancelLockLoop(l)));
    FirstStep(s2, CancelLockLoop(l), []);
    FirstStep(s1, CancelLock(l), [CancelLockLoop(l)] + []);
    run := [CancelLock(l)] + ([CancelLockLoop(l)] + []);
    FirstStep(s, Cancel(l, i), run);
    run := [Cancel(l, i)] + run;
  }
}
