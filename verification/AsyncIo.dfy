/**
 * libuv's async handles (deps/libuv/src/unix/async.c) carrying the data slots of src/ws/CAsyncs.cpp, as a system of
 * atomic steps: any number of sender threads and one loop thread.
 */
module AsyncIo {
  import opened Bytes

  type Handle = nat
  type Peer = nat

  /** `SendDataContext`: what a slot is to write, and to whom. */
  datatype Packet = Packet(peer: Peer, data: bytes)

  datatype Sender =
    | Ready
    | Checked(h: Handle) // read `pending` as 0, about to compare and swap
    | Won(h: Handle)     // set `pending`, about to write to the descriptor

  datatype LoopPc =
    | Polling
    | Drained            // has read the descriptor, about to move the handles to its own queue
    | Sweeping
    | Called(h: Handle)  // in the callback of `h`

  /**
   * `list` is `loop->async_handles`, `local` the queue of a running sweep. `calls` and `written` record the callbacks
   * begun and the packets written so far, `sends` every call of `uv_async_send`.
   */
  datatype State = State(
    list: seq<Handle>, local: seq<Handle>, pending: set<Handle>, readable: bool,
    senders: seq<Sender>, pc: LoopPc,
    slots: map<Handle, Packet>, registered: set<Peer>,
    sends: multiset<Handle>, wins: multiset<Handle>, calls: seq<Handle>, written: seq<Packet>)

  datatype Action =
    | InitHandle(h: Handle)
    | Fill(h: Handle, packet: Packet)
    | Unregister(peer: Peer)
    | Send(t: nat, h: Handle)
    | Swap(t: nat)
    | Write(t: nat)
    | Read
    | Move
    | Visit
    | Callback
    | Finish

  predicate Enabled(s: State, a: Action) {
    match a
    case InitHandle(h) => s.pc == Polling && h !in s.list
    case Fill(h, _) => h in s.list + s.local && h !in s.slots
    case Unregister(_) => true
    case Send(t, h) => t < |s.senders| && s.senders[t] == Ready && h in s.list + s.local
    case Swap(t) => t < |s.senders| && s.senders[t].Checked?
    case Write(t) => t < |s.senders| && s.senders[t].Won?
    case Read => s.pc == Polling && s.readable
    case Move => s.pc == Drained
    case Visit => s.pc == Sweeping && s.local != []
    case Callback => s.pc.Called?
    case Finish => s.pc == Sweeping && s.local == []
  }

  function Next(s: State, a: Action): State
    requires Enabled(s, a)
  {
    match a
    case InitHandle(h) => s.(list := s.list + [h])
    case Fill(h, packet) => s.(slots := s.slots[h := packet])
    case Unregister(peer) => s.(registered := s.registered - {peer})
    case Send(t, h) =>
      // the cheap read: with `pending` set there is nothing more to do
      s.(sends := s.sends + multiset{h}, senders := if h in s.pending then s.senders else s.senders[t := Checked(h)])
    case Swap(t) =>
      var h := s.senders[t].h;
      if h in s.pending then s.(senders := s.senders[t := Ready])
      else s.(senders := s.senders[t := Won(h)], pending := s.pending + {h}, wins := s.wins + multiset{h})
    case Write(t) => s.(senders := s.senders[t := Ready], readable := true)
    case Read => s.(readable := false, pc := Drained)
    case Move => s.(list := [], local := s.list, pc := Sweeping)
    case Visit =>
      var h := s.local[0];
      var s' := s.(list := s.list + [h], local := s.local[1..]);
      if h in s.pending then s'.(pending := s.pending - {h}, calls := s.calls + [h], pc := Called(h)) else s'
    case Callback =>
      var h := s.pc.h;
      if h in s.slots then
        s.(pc := Sweeping, slots := s.slots - {h},
           written := if s.slots[h].peer in s.registered then s.written + [s.slots[h]] else s.written)
      else s.(pc := Sweeping)
    case Finish => s.(pc := Polling)
  }

  function Init(senders: nat, registered: set<Peer>): State {
    State([], [], {}, false, seq(senders, _ => Ready), Polling, map[], registered, multiset{}, multiset{}, [], [])
  }

  /** A pending handle is on its way: a wakeup is there or about to be, or the current sweep still gets to it. */
  ghost predicate OnItsWay(s: State, h: Handle) {
    s.readable || s.pc == Drained || h in s.local || exists t :: 0 <= t < |s.senders| && s.senders[t] == Won(h)
  }

  /** The handles in the order in which every sweep visits them. */
  function Order(s: State): seq<Handle> {
    s.list + s.local
  }

  ghost predicate Coming(s: State) {
    && (forall h :: h in s.pending ==> h in Order(s) && OnItsWay(s, h))
    && (forall t {:trigger s.senders[t]} :: 0 <= t < |s.senders| && s.senders[t].Checked? ==> s.senders[t].h in Order(s))
  }

  ghost predicate Shape(s: State) {
    && (s.pc == Polling || s.pc == Drained ==> s.local == [])
    && (forall j, k :: 0 <= j < k < |Order(s)| ==> Order(s)[j] != Order(s)[k])
  }

  /** Callbacks and pending flags account for exactly the swaps won, and swaps for at most the sends. */
  ghost predicate Counted(s: State) {
    forall h: Handle :: CountedFor(s, h)
  }

  ghost predicate CountedFor(s: State, h: Handle) {
    && multiset(s.calls)[h] + (if h in s.pending then 1 else 0) == s.wins[h]
    && s.wins[h] + multiset(s.senders)[Checked(h)] <= s.sends[h]
  }

  ghost predicate Inv(s: State) {
    Coming(s) && Shape(s) && Counted(s)
  }

  lemma InitInv(senders: nat, registered: set<Peer>)
    ensures Inv(Init(senders, registered))
    ensures forall a {:trigger Enabled(Init(senders, registered), a)} :: Internal(a) ==> !Enabled(Init(senders, registered), a)
  {
  }

  /** A sweep takes the handles round once: their order never changes, except that new ones join at the end. */
  lemma OrderKept(s: State, a: Action)
    requires Shape(s) && Enabled(s, a)
    ensures Order(Next(s, a)) == if a.InitHandle? then Order(s) + [a.h] else Order(s)
  {
    if a.Visit? {
      assert s.local == [s.local[0]] + s.local[1..];
    }
  }

  lemma StepKeepsComing(s: State, a: Action)
    requires Coming(s) && Shape(s) && Enabled(s, a)
    ensures Coming(Next(s, a))
  {
    OrderKept(s, a);
    forall h | h in Next(s, a).pending
      ensures h in Order(Next(s, a)) && OnItsWay(Next(s, a), h)
    {
      if h in s.pending {
        StaysOnItsWay(s, a, h);
      } else {
        assert Next(s, a).senders[a.t] == Won(h);
      }
      hide OnItsWay, Shape;
    }
    hide OnItsWay, Shape, Order;
  }

  lemma StaysOnItsWay(s: State, a: Action, h: Handle)
    requires OnItsWay(s, h) && (s.pc == Polling || s.pc == Drained ==> s.local == []) && Enabled(s, a)
    requires h in Order(s) && h in s.pending && h in Next(s, a).pending
    ensures OnItsWay(Next(s, a), h)
  {
    InOrder(s);
    if t0 :| 0 <= t0 < |s.senders| && s.senders[t0] == Won(h) {
      if !a.Write? || a.t != t0 {
        assert Next(s, a).senders[t0] == Won(h);
      }
    }
    if h in s.local && a.Visit? {
      assert s.local == [s.local[0]] + s.local[1..];
    }
    hide Order;
  }

  lemma InOrder(s: State)
    ensures forall h :: h in Order(s) <==> h in s.list || h in s.local
  {
  }

  lemma StepKeepsShape(s: State, a: Action)
    requires Shape(s) && Enabled(s, a)
    ensures Shape(Next(s, a))
  {
    OrderKept(s, a);
  }

  lemma SenderKeepsCounted(s: State, a: Action)
    requires Counted(s) && Enabled(s, a) && (a.Send? || a.Swap? || a.Write?)
    ensures Counted(Next(s, a))
  {
    forall h: Handle
      ensures CountedFor(Next(s, a), h)
    {
      assert CountedFor(s, h);
      SenderKeepsCountedFor(s, a, h);
    }
  }

  lemma SenderKeepsCountedFor(s: State, a: Action, h: Handle)
    requires CountedFor(s, h) && Enabled(s, a) && (a.Send? || a.Swap? || a.Write?)
    ensures CountedFor(Next(s, a), h)
  {
    var s' := Next(s, a);
    SenderCount(s.senders, a.t, s'.senders[a.t], Checked(h));
    if a.Send? {
      assert s'.sends[h] == s.sends[h] + if a.h == h then 1 else 0;
    } else {
      SwapCounts(s, a, h);
    }
  }

  lemma SwapCounts(s: State, a: Action, h: Handle)
    requires Enabled(s, a) && (a.Swap? || a.Write?)
    ensures var s' := Next(s, a);
            && s'.calls == s.calls && s'.sends == s.sends
            && s'.wins[h] == s.wins[h] + (if h in s'.pending && h !in s.pending then 1 else 0)
            && (h in s.pending ==> h in s'.pending)
            && (h in s'.pending && h !in s.pending ==> a.Swap? && s.senders[a.t] == Checked(h))
  {
  }

  lemma SenderCount(ss: seq<Sender>, t: nat, x: Sender, y: Sender)
    requires t < |ss|
    ensures multiset(ss[t := x])[y] ==
            multiset(ss)[y] - (if ss[t] == y then 1 else 0) + (if x == y then 1 else 0)
    ensures ss[t] == y ==> multiset(ss)[y] > 0
    ensures ss[t := ss[t]] == ss
  {
  }

  lemma LoopKeepsCounted(s: State, a: Action)
    requires Counted(s) && Enabled(s, a) && !a.Send? && !a.Swap? && !a.Write?
    ensures Counted(Next(s, a))
  {
    forall h: Handle
      ensures CountedFor(Next(s, a), h)
    {
      assert CountedFor(s, h);
    }
  }

  /** Every step of any thread keeps the invariant. */
  lemma StepKeepsInv(s: State, a: Action)
    requires Inv(s) && Enabled(s, a)
    ensures Inv(Next(s, a))
  {
    hide Coming, Shape, Counted, Next, Enabled;
    StepKeepsComing(s, a);
    StepKeepsShape(s, a);
    if a.Send? || a.Swap? || a.Write? {
      SenderKeepsCounted(s, a);
    } else {
      LoopKeepsCounted(s, a);
    }
  }

  // ----- runs -----

  predicate IsRun(s: State, run: seq<Action>)
    decreases |run|
  {
    run == [] || (Enabled(s, run[0]) && IsRun(Next(s, run[0]), run[1..]))
  }

  function After(s: State, run: seq<Action>): (r: State)
    requires IsRun(s, run)
    decreases |run|
  {
    if run == [] then s else After(Next(s, run[0]), run[1..])
  }

  /** Over any run the invariant stays, and callbacks and swaps only ever add up. */
  lemma {:induction false} RunKeepsInv(s: State, run: seq<Action>)
    requires Inv(s) && IsRun(s, run)
    ensures Inv(After(s, run)) && s.wins <= After(s, run).wins
    decreases |run|
  {
    hide Inv;
    if run != [] {
      StepKeepsInv(s, run[0]);
      RunKeepsInv(Next(s, run[0]), run[1..]);
    }
  }

  /** `uv_async_send` has taken effect once its read found the flag set or its swap was made: the flag is set then. */
  lemma SendTakesEffect(s: State, a: Action, h: Handle)
    requires Enabled(s, a)
    requires (a.Send? && a.h == h && h in s.pending) || (a.Swap? && s.senders[a.t].h == h)
    ensures h in Next(s, a).pending
  {
  }

  predicate Internal(a: Action) {
    a.Swap? || a.Write? || a.Read? || a.Move? || a.Visit? || a.Callback? || a.Finish?
  }

  /** A pending handle keeps some thread going: nothing can come to rest before its callback. */
  lemma PendingMoves(s: State, h: Handle) returns (a: Action)
    requires Inv(s) && h in s.pending
    ensures Internal(a) && Enabled(s, a)
  {
    assert OnItsWay(s, h);
    if s.pc.Called? {
      a := Callback;
    } else if s.pc == Drained {
      a := Move;
    } else if s.pc == Sweeping {
      a := if s.local == [] then Finish else Visit;
    } else if s.readable {
      a := Read;
    } else {
      var t :| 0 <= t < |s.senders| && s.senders[t] == Won(h);
      a := Write(t);
    }
  }

  function Sum(ss: seq<Sender>, n: nat): (r: nat) {
    if ss == [] then 0
    else (match ss[0] case Ready => 0 case Checked(_) => 2 * n + 7 case Won(_) => 2 * n + 6) + Sum(ss[1..], n)
  }

  lemma {:induction false} SumUpdate(ss: seq<Sender>, t: nat, x: Sender, n: nat)
    requires t < |ss|
    ensures Sum(ss[t := x], n) == Sum(ss, n) - Sum([ss[t]], n) + Sum([x], n)
  {
    if t > 0 {
      assert ss[t := x][1..] == ss[1..][t - 1 := x];
      SumUpdate(ss[1..], t - 1, x, n);
    } else {
      assert ss[t := x][1..] == ss[1..];
    }
  }

  /** Bound on the steps that the senders and the loop can take before new sends are made. */
  function Cost(s: State): nat {
    var n := |Order(s)|;
    Sum(s.senders, n) + (if s.readable then 2 * n + 5 else 0) +
    match s.pc
    case Polling => 0
    case Drained => 2 * n + 4
    case Sweeping => 2 * |s.local| + 1
    case Called(_) => 2 * |s.local| + 2
  }

  lemma StepLowersCost(s: State, a: Action)
    requires Inv(s) && Enabled(s, a) && Internal(a)
    ensures Cost(Next(s, a)) < Cost(s)
  {
    hide Coming, CountedFor;
    OrderKept(s, a);
    if a.Swap? || a.Write? {
      SumUpdate(s.senders, a.t, Next(s, a).senders[a.t], |Order(s)|);
    } else {
      LoopLowersCost(s, a);
    }
    hide Coming, Counted, Shape, Order;
  }

  lemma LoopLowersCost(s: State, a: Action)
    requires Shape(s) && Enabled(s, a) && (a.Read? || a.Move? || a.Visit? || a.Callback? || a.Finish?)
    ensures Cost(Next(s, a)) < Cost(s)
  {
    OrderKept(s, a);
    assert s.pc == Drained ==> |Order(s)| == |s.list|;
    hide Shape, Order;
  }

  lemma {:induction false} RunLength(s: State, run: seq<Action>)
    requires Inv(s) && IsRun(s, run) && forall a :: a in run ==> Internal(a)
    ensures |run| + Cost(After(s, run)) <= Cost(s)
    decreases |run|
  {
    hide Inv, Cost;
    if run != [] {
      StepLowersCost(s, run[0]);
      StepKeepsInv(s, run[0]);
      RunLength(Next(s, run[0]), run[1..]);
    }
  }

  /**
   * No send is lost. Take any reachable state in which a send on `h` has just taken effect, and any run from there
   * at whose end no thread can go on: a callback of `h` began after the send. And callbacks never outnumber sends.
   */
  lemma SendIsServed(s: State, run: seq<Action>, h: Handle)
    requires Inv(s) && h in s.pending && IsRun(s, run)
    requires forall a {:trigger Enabled(After(s, run), a)} :: Internal(a) ==> !Enabled(After(s, run), a)
    ensures multiset(s.calls)[h] < multiset(After(s, run).calls)[h] <= After(s, run).sends[h]
  {
    RunKeepsInv(s, run);
    var s' := After(s, run);
    assert CountedFor(s, h) && CountedFor(s', h);
    if h in s'.pending {
      var a := PendingMoves(s', h);
    }
  }
}
