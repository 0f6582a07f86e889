/**
 * The thread pool of deps/libuv/src/threadpool.c as a system of atomic steps: workers, loop threads and client
 * threads interleave freely; a step is what one thread does between two lock operations.
 */
module ThreadPool {
  import opened Sequences

  type Item = nat

  /** An entry of the global queue `wq`. */
  datatype Entry = Work(item: Item) | ExitMessage

  /** `w->work`: the submitted function, NULL once it has run, or `uv__cancelled`. */
  datatype WorkField = Submitted | Null | Cancelled

  datatype Status = Zero | Ecanceled

  /** Where an item is; every queue below mirrors this. */
  datatype Place =
    | Submitting(client: nat)
    | InPool
    | WithWorker(worker: nat)
    | Cancelling
    | Completed
    | Done(status: Status)

  /** `linked` is `!QUEUE_EMPTY(&w->wq)`. `runs` counts calls of the work function, `dones` calls of `done`. */
  datatype Request = Request(loop: nat, work: WorkField, linked: bool, place: Place, runs: nat, dones: nat)

  datatype Worker =
    | Start            // about to lock `mutex`
    | Checking         // holds `mutex`, about to look at the queue
    | Waiting          // in uv_cond_wait, not signalled
    | Woken            // signalled, about to lock `mutex` again
    | Running(w: Item)   // about to call w->work
    | Finished(w: Item)  // about to lock the loop's wq_mutex
    | Reporting(w: Item) // holds the loop's wq_mutex
    | Exited

  datatype Client = Resting | PostWant(e: Entry) | PostHold(e: Entry)

  datatype LoopPc =
    | Idle
    | CancelWant(i: Item)    // about to lock `mutex`
    | CancelHold(i: Item)    // holds `mutex`, about to lock wq_mutex
    | CancelBoth(i: Item)    // holds both
    | CancelPut(i: Item)     // about to lock wq_mutex to hand the item over
    | CancelPutHold(i: Item) // holds wq_mutex
    | DoneWant               // in uv__work_done, about to lock wq_mutex
    | DoneHold               // holds wq_mutex

  datatype Owner = Free | ByWorker(t: nat) | ByLoop(l: nat) | ByClient(c: nat)

  /** A loop: its thread, the list `uv__work_done` is walking, and the state other threads share with it. */
  datatype Loop = Loop(pc: LoopPc, drain: seq<Item>, wq: seq<Item>, wqMutex: Owner, asyncPending: bool)

  datatype State = State(
    workers: seq<Worker>, loops: seq<Loop>, clients: seq<Client>,
    wq: seq<Entry>, idle: nat, mutex: Owner,
    items: map<Item, Request>, exitAsked: bool, exitPosted: bool, early: set<Item>)

  function Init(workers: nat, loops: nat, clients: nat): State {
    State(seq(workers, _ => Start), seq(loops, _ => Loop(Idle, [], [], Free, false)), seq(clients, _ => Resting),
          [], 0, Free, map[], false, false, {})
  }

  // ----- steps -----

  datatype Action =
    // environment
    | Submit(c: nat, i: Item, l: nat)
    | PostExit(c: nat)
    | Cancel(l: nat, i: Item)
    | Spurious(t: nat)
    // internal
    | ClientLock(c: nat)
    | ClientPost(c: nat, wake: nat)
    | WorkerLock(t: nat)
    | WorkerCheck(t: nat, wake: nat)
    | WorkerRun(t: nat)
    | WorkerLockLoop(t: nat)
    | WorkerReport(t: nat)
    | CancelLock(l: nat)
    | CancelLockLoop(l: nat)
    | CancelDecide(l: nat)
    | CancelPutLock(l: nat)
    | CancelInsert(l: nat)
    | LoopWake(l: nat)
    | DoneLock(l: nat)
    | DoneMove(l: nat)
    | DoneCall(l: nat)

  /** uv_cond_signal wakes one waiter if there is one. */
  predicate Wakes(ws: seq<Worker>, t: nat) {
    Waiting in ws ==> t < |ws| && ws[t] == Waiting
  }

  function Signal(ws: seq<Worker>, t: nat): seq<Worker> {
    if t < |ws| && ws[t] == Waiting then ws[t := Woken] else ws
  }

  predicate Enabled(s: State, a: Action) {
    match a
    case Submit(c, i, l) => c < |s.clients| && s.clients[c] == Resting && i !in s.items && l < |s.loops|
    case PostExit(c) => c < |s.clients| && s.clients[c] == Resting && !s.exitAsked
    case Cancel(l, i) =>
      && l < |s.loops| && s.loops[l].pc == Idle && i in s.items && s.items[i].loop == l
      && !s.items[i].place.Submitting? && !s.items[i].place.Done?
    case Spurious(t) => t < |s.workers| && s.workers[t] == Waiting
    case ClientLock(c) => c < |s.clients| && s.clients[c].PostWant? && s.mutex == Free
    case ClientPost(c, wake) => c < |s.clients| && s.clients[c].PostHold? && Wakes(s.workers, wake)
    case WorkerLock(t) => t < |s.workers| && (s.workers[t] == Start || s.workers[t] == Woken) && s.mutex == Free
    case WorkerCheck(t, wake) => t < |s.workers| && s.workers[t] == Checking && Wakes(s.workers, wake)
    case WorkerRun(t) => t < |s.workers| && s.workers[t].Running?
    case WorkerLockLoop(t) =>
      && t < |s.workers| && s.workers[t].Finished? && s.workers[t].w in s.items
      && s.items[s.workers[t].w].loop < |s.loops| && s.loops[s.items[s.workers[t].w].loop].wqMutex == Free
    case WorkerReport(t) =>
      && t < |s.workers| && s.workers[t].Reporting? && s.workers[t].w in s.items
      && s.items[s.workers[t].w].loop < |s.loops|
    case CancelLock(l) => l < |s.loops| && s.loops[l].pc.CancelWant? && s.mutex == Free
    case CancelLockLoop(l) => l < |s.loops| && s.loops[l].pc.CancelHold? && s.loops[l].wqMutex == Free
    case CancelDecide(l) => l < |s.loops| && s.loops[l].pc.CancelBoth? && s.loops[l].pc.i in s.items
    case CancelPutLock(l) => l < |s.loops| && s.loops[l].pc.CancelPut? && s.loops[l].wqMutex == Free
    case CancelInsert(l) => l < |s.loops| && s.loops[l].pc.CancelPutHold? && s.loops[l].pc.i in s.items
    case LoopWake(l) => l < |s.loops| && s.loops[l].pc == Idle && s.loops[l].drain == [] && s.loops[l].asyncPending
    case DoneLock(l) => l < |s.loops| && s.loops[l].pc == DoneWant && s.loops[l].wqMutex == Free
    case DoneMove(l) => l < |s.loops| && s.loops[l].pc == DoneHold
    case DoneCall(l) =>
      l < |s.loops| && s.loops[l].pc == Idle && s.loops[l].drain != [] && s.loops[l].drain[0] in s.items
  }

  function SetWorker(s: State, t: nat, w: Worker): State
    requires t < |s.workers|
  {
    s.(workers := s.workers[t := w])
  }

  function SetLoop(s: State, l: nat, p: Loop): State
    requires l < |s.loops|
  {
    s.(loops := s.loops[l := p])
  }

  function SetPc(s: State, l: nat, pc: LoopPc): State
    requires l < |s.loops|
  {
    SetLoop(s, l, s.loops[l].(pc := pc))
  }

  /** `uv__work_submit` up to the lock in `post`. */
  function DoSubmit(s: State, c: nat, i: Item, l: nat): State
    requires Enabled(s, Submit(c, i, l))
  {
    s.(clients := s.clients[c := PostWant(Work(i))],
       items := s.items[i := Request(l, Submitted, false, Submitting(c), 0, 0)])
  }

  /** `post`, lines 97 to 100. */
  function DoPost(s: State, c: nat, wake: nat): State
    requires Enabled(s, ClientPost(c, wake))
  {
    var e := s.clients[c].e;
    s.(clients := s.clients[c := Resting], mutex := Free, wq := s.wq + [e],
       workers := if s.idle > 0 then Signal(s.workers, wake) else s.workers,
       items := if e.Work? && e.item in s.items
                then s.items[e.item := s.items[e.item].(place := InPool, linked := true)] else s.items,
       early := if e.Work? && !s.exitPosted then s.early + {e.item} else s.early,
       exitPosted := s.exitPosted || e == ExitMessage)
  }

  /** `worker`, lines 59 to 64: locking, for the first time or on the way out of uv_cond_wait. */
  function DoWorkerLock(s: State, t: nat): State
    requires Enabled(s, WorkerLock(t))
  {
    SetWorker(s, t, Checking).(mutex := ByWorker(t),
                               idle := if s.workers[t] == Woken && s.idle > 0 then s.idle - 1 else s.idle)
  }

  /** `worker`, lines 61 to 80: wait, leave, or take the head of the queue. */
  function DoWorkerCheck(s: State, t: nat, wake: nat): State
    requires Enabled(s, WorkerCheck(t, wake))
  {
    if s.wq == [] then SetWorker(s, t, Waiting).(mutex := Free, idle := s.idle + 1)
    else if s.wq[0] == ExitMessage then
      s.(mutex := Free, workers := Signal(s.workers, wake)[t := Exited])
    else
      var i := s.wq[0].item;
      SetWorker(s, t, Running(i)).(
        mutex := Free, wq := s.wq[1..],
        items := if i in s.items then s.items[i := s.items[i].(linked := false, place := WithWorker(t))] else s.items)
  }

  /** `w->work(w)`, line 83. */
  function DoWorkerRun(s: State, t: nat): State
    requires Enabled(s, WorkerRun(t))
  {
    var i := s.workers[t].w;
    SetWorker(s, t, Finished(i)).(
      items := if i in s.items then s.items[i := s.items[i].(runs := s.items[i].runs + 1)] else s.items)
  }

  function DoWorkerLockLoop(s: State, t: nat): State
    requires Enabled(s, WorkerLockLoop(t))
  {
    var i := s.workers[t].w;
    var l := s.items[i].loop;
    SetWorker(SetLoop(s, l, s.loops[l].(wqMutex := ByWorker(t))), t, Reporting(i))
  }

  /** `worker`, lines 86 to 90. */
  function DoWorkerReport(s: State, t: nat): State
    requires Enabled(s, WorkerReport(t))
  {
    var i := s.workers[t].w;
    var l := s.items[i].loop;
    var p := s.loops[l];
    SetWorker(SetLoop(s, l, p.(wq := p.wq + [i], asyncPending := true, wqMutex := Free)), t, Start).(
      items := s.items[i := s.items[i].(work := Null, linked := true, place := Completed)])
  }

  /** `uv__work_cancel`, lines 207 to 217. */
  function DoCancelDecide(s: State, l: nat): State
    requires Enabled(s, CancelDecide(l))
  {
    var p := s.loops[l];
    var i := p.pc.i;
    if s.items[i].linked && s.items[i].work != Null then
      SetLoop(s, l, Loop(CancelPut(i), Without(p.drain, i), Without(p.wq, i), Free, p.asyncPending)).(
        mutex := Free, wq := Without(s.wq, Work(i)),
        items := s.items[i := s.items[i].(work := Cancelled, place := Cancelling)])
    else
      SetLoop(s, l, p.(pc := Idle, wqMutex := Free)).(mutex := Free)
  }

  /** `uv__work_cancel`, lines 219 to 221. */
  function DoCancelInsert(s: State, l: nat): State
    requires Enabled(s, CancelInsert(l))
  {
    var p := s.loops[l];
    var i := p.pc.i;
    SetLoop(s, l, Loop(Idle, p.drain, p.wq + [i], Free, true)).(
      items := s.items[i := s.items[i].(linked := true, place := Completed)])
  }

  /** One turn of the loop in `uv__work_done`, lines 240 to 245. */
  function DoDoneCall(s: State, l: nat): State
    requires Enabled(s, DoneCall(l))
  {
    var p := s.loops[l];
    var i := p.drain[0];
    var r := s.items[i];
    SetLoop(s, l, p.(drain := p.drain[1..])).(
      items := s.items[i := r.(dones := r.dones + 1, place := Done(if r.work == Cancelled then Ecanceled else Zero))])
  }

  function Next(s: State, a: Action): State
    requires Enabled(s, a)
  {
    match a
    case Submit(c, i, l) => DoSubmit(s, c, i, l)
    case PostExit(c) => s.(clients := s.clients[c := PostWant(ExitMessage)], exitAsked := true)
    case Cancel(l, i) => SetPc(s, l, CancelWant(i))
    case Spurious(t) => SetWorker(s, t, Woken)
    case ClientLock(c) => s.(clients := s.clients[c := PostHold(s.clients[c].e)], mutex := ByClient(c))
    case ClientPost(c, wake) => DoPost(s, c, wake)
    case WorkerLock(t) => DoWorkerLock(s, t)
    case WorkerCheck(t, wake) => DoWorkerCheck(s, t, wake)
    case WorkerRun(t) => DoWorkerRun(s, t)
    case WorkerLockLoop(t) => DoWorkerLockLoop(s, t)
    case WorkerReport(t) => DoWorkerReport(s, t)
    case CancelLock(l) => SetPc(s, l, CancelHold(s.loops[l].pc.i)).(mutex := ByLoop(l))
    case CancelLockLoop(l) => SetLoop(s, l, s.loops[l].(pc := CancelBoth(s.loops[l].pc.i), wqMutex := ByLoop(l)))
    case CancelDecide(l) => DoCancelDecide(s, l)
    case CancelPutLock(l) => SetLoop(s, l, s.loops[l].(pc := CancelPutHold(s.loops[l].pc.i), wqMutex := ByLoop(l)))
    case CancelInsert(l) => DoCancelInsert(s, l)
    case LoopWake(l) => SetLoop(s, l, s.loops[l].(pc := DoneWant, asyncPending := false))
    case DoneLock(l) => SetLoop(s, l, s.loops[l].(pc := DoneHold, wqMutex := ByLoop(l)))
    case DoneMove(l) =>
      SetLoop(s, l, Loop(Idle, s.loops[l].wq, [], Free, s.loops[l].asyncPending))
    case DoneCall(l) => DoDoneCall(s, l)
  }

  // ----- invariant -----

  predicate Carries(w: Worker, i: Item) {
    (w.Running? || w.Finished? || w.Reporting?) && w.w == i
  }

  predicate Posts(c: Client, e: Entry) {
    !c.Resting? && c.e == e
  }

  predicate HandsOver(p: LoopPc, i: Item) {
    (p.CancelPut? || p.CancelPutHold?) && p.i == i
  }

  /** What the fields of a request say, by where it is. */
  ghost predicate FieldsFit(r: Request) {
    match r.place
    case Submitting(_) => r.work == Submitted && r.runs == 0 && r.dones == 0
    case InPool => r.linked && r.work == Submitted && r.runs == 0 && r.dones == 0
    case WithWorker(_) => !r.linked && r.work == Submitted && r.runs <= 1 && r.dones == 0
    case Cancelling => r.linked && r.work == Cancelled && r.runs == 0 && r.dones == 0
    case Completed => r.linked && r.dones == 0 && (if r.work == Cancelled then r.runs == 0 else r.work == Null && r.runs == 1)
    case Done(status) => r.dones == 1 && (if status == Ecanceled then r.runs == 0 else r.runs == 1)
  }

  function Items(p: Loop): seq<Item> {
    p.drain + p.wq
  }

  /** The place recorded for a request is where it really is. */
  ghost predicate Found(i: Item, r: Request, wq: seq<Entry>, workers: seq<Worker>, clients: seq<Client>, loops: seq<Loop>) {
    && r.loop < |loops|
    && match r.place
       case Submitting(c) => c < |clients| && Posts(clients[c], Work(i))
       case InPool => Work(i) in wq
       case WithWorker(t) =>
         t < |workers| && Carries(workers[t], i) && r.runs == (if workers[t].Running? then 0 else 1)
       case Cancelling => HandsOver(loops[r.loop].pc, i)
       case Completed => i in Items(loops[r.loop])
       case Done(_) => true
  }

  ghost predicate Requests(items: map<Item, Request>, wq: seq<Entry>, workers: seq<Worker>,
                           clients: seq<Client>, loops: seq<Loop>) {
    forall i {:trigger items[i]} :: i in items ==>
      FieldsFit(items[i]) && Found(i, items[i], wq, workers, clients, loops)
  }

  predicate Is(items: map<Item, Request>, i: Item, place: Place) {
    i in items && items[i].place == place
  }

  /** And nothing else is there: the global queue, the workers' hands, and the clients about to post. */
  ghost predicate Queues(items: map<Item, Request>, wq: seq<Entry>, workers: seq<Worker>, clients: seq<Client>) {
    && Distinct(wq)
    && (forall k {:trigger wq[k]} :: 0 <= k < |wq| && wq[k].Work? ==> Is(items, wq[k].item, InPool))
    && (forall t {:trigger workers[t]} :: 0 <= t < |workers| && Busy(workers[t]) ==>
          Is(items, workers[t].w, WithWorker(t)))
    && (forall c {:trigger clients[c]} :: 0 <= c < |clients| && !clients[c].Resting? && clients[c].e.Work? ==>
          Is(items, clients[c].e.item, Submitting(c)))
  }

  predicate Busy(w: Worker) {
    w.Running? || w.Finished? || w.Reporting?
  }

  ghost predicate LoopQueues(items: map<Item, Request>, loops: seq<Loop>) {
    forall l {:trigger loops[l]} :: 0 <= l < |loops| ==> LoopFits(items, l, loops[l])
  }

  ghost predicate LoopFits(items: map<Item, Request>, l: nat, p: Loop) {
    && Distinct(Items(p))
    && (forall i :: i in Items(p) ==> i in items && items[i].place == Completed && items[i].loop == l)
    && (p.pc.CancelPut? || p.pc.CancelPutHold? ==>
          p.pc.i in items && items[p.pc.i].place == Cancelling && items[p.pc.i].loop == l)
    && (p.pc.CancelWant? || p.pc.CancelHold? || p.pc.CancelBoth? ==>
          p.pc.i in items && items[p.pc.i].loop == l
          && !items[p.pc.i].place.Submitting? && !items[p.pc.i].place.Done?)
    && (p.pc.DoneWant? || p.pc.DoneHold? ==> p.drain == [])
    && (p.wq != [] ==> p.asyncPending || p.pc.DoneWant? || p.pc.DoneHold?)
  }

  /** `mutex` is held by exactly the thread whose program counter says so. */
  ghost predicate Locks(mutex: Owner, workers: seq<Worker>, clients: seq<Client>, loops: seq<Loop>) {
    && (forall t {:trigger workers[t]} :: 0 <= t < |workers| ==> (workers[t] == Checking <==> mutex == ByWorker(t)))
    && (forall c {:trigger clients[c]} :: 0 <= c < |clients| ==> (clients[c].PostHold? <==> mutex == ByClient(c)))
    && (forall l {:trigger loops[l]} :: 0 <= l < |loops| ==>
          (loops[l].pc.CancelHold? || loops[l].pc.CancelBoth? <==> mutex == ByLoop(l)))
    && match mutex
       case Free => true
       case ByWorker(t) => t < |workers|
       case ByClient(c) => c < |clients|
       case ByLoop(l) => l < |loops|
  }

  /** And so is the `wq_mutex` of each loop. */
  ghost predicate LoopLocks(items: map<Item, Request>, workers: seq<Worker>, loops: seq<Loop>) {
    && (forall t {:trigger workers[t]} :: 0 <= t < |workers| && workers[t].Reporting? ==>
          workers[t].w in items && items[workers[t].w].loop < |loops|
          && loops[items[workers[t].w].loop].wqMutex == ByWorker(t))
    && (forall l {:trigger loops[l]} :: 0 <= l < |loops| ==> LoopLock(workers, items, l, loops[l]))
  }

  ghost predicate LoopLock(workers: seq<Worker>, items: map<Item, Request>, l: nat, p: Loop) {
    && (p.pc.CancelBoth? || p.pc.CancelPutHold? || p.pc.DoneHold? <==> p.wqMutex == ByLoop(l))
    && match p.wqMutex
       case Free => true
       case ByWorker(t) =>
         t < |workers| && workers[t].Reporting? && workers[t].w in items && items[workers[t].w].loop == l
       case ByLoop(m) => m == l
       case ByClient(_) => false
  }

  /** While any worker sleeps unsignalled, every queued entry has a worker of its own that is signalled or looking. */
  ghost predicate Wakeups(idle: nat, workers: seq<Worker>, wq: seq<Entry>) {
    && idle == multiset(workers)[Waiting] + multiset(workers)[Woken]
    && (Waiting in workers ==> |wq| <= multiset(workers)[Woken] + multiset(workers)[Checking])
  }

  /** The exit message is posted at most once and stays in the queue, behind everything posted before it. */
  ghost predicate Exit(asked: bool, posted: bool, early: set<Item>, clients: seq<Client>, wq: seq<Entry>) {
    && (posted <==> ExitMessage in wq)
    && (posted ==> asked)
    && (forall c {:trigger clients[c]} :: 0 <= c < |clients| && Posts(clients[c], ExitMessage) ==> asked && !posted)
    && (forall c, d {:trigger clients[c], clients[d]} :: 0 <= c < d < |clients| && Posts(clients[c], ExitMessage) ==>
          !Posts(clients[d], ExitMessage))
    && (forall j, k :: 0 <= j < k < |wq| && wq[j] == ExitMessage && wq[k].Work? ==> wq[k].item !in early)
  }

  /** No worker leaves before the exit message has reached the head of the queue. */
  ghost predicate Leaving(workers: seq<Worker>, wq: seq<Entry>) {
    Exited in workers ==> wq != [] && wq[0] == ExitMessage
  }

  /** `early` holds items that were posted before the exit message. */
  ghost predicate Early(early: set<Item>, items: map<Item, Request>) {
    forall i :: i in early ==> i in items && !items[i].place.Submitting?
  }

  ghost predicate Inv(s: State) {
    && Requests(s.items, s.wq, s.workers, s.clients, s.loops)
    && Queues(s.items, s.wq, s.workers, s.clients)
    && LoopQueues(s.items, s.loops)
    && Locks(s.mutex, s.workers, s.clients, s.loops)
    && LoopLocks(s.items, s.workers, s.loops)
    && Wakeups(s.idle, s.workers, s.wq)
    && Exit(s.exitAsked, s.exitPosted, s.early, s.clients, s.wq)
    && Leaving(s.workers, s.wq)
    && Early(s.early, s.items)
  }

  lemma InitInv(workers: nat, loops: nat, clients: nat)
    ensures Inv(Init(workers, loops, clients))
    ensures forall a {:trigger Enabled(Init(workers, loops, clients), a)} ::
              Enabled(Init(workers, loops, clients), a) ==> a.Submit? || a.PostExit? || a.WorkerLock?
  {
    hide Wakeups, Found, FieldsFit;
    AllStart(workers);
    InitLoops(loops);
    hide LoopQueues;
  }

  lemma InitLoops(n: nat)
    ensures LoopQueues(map[], seq(n, _ => Loop(Idle, [], [], Free, false)))
  {
  }

  lemma AllStart(n: nat)
    ensures Wakeups(0, seq(n, _ => Start), [])
  {
    var ws := seq(n, _ => Start);
    assert Waiting !in ws && Woken !in ws;
  }

  predicate ClientAction(a: Action) {
    a.Submit? || a.PostExit? || a.ClientLock? || a.ClientPost?
  }

  predicate WorkerAction(a: Action) {
    a.Spurious? || a.WorkerLock? || a.WorkerCheck? || a.WorkerRun?
  }

  predicate ReportAction(a: Action) {
    a.WorkerLockLoop? || a.WorkerReport?
  }

  predicate CancelAction(a: Action) {
    a.Cancel? || a.CancelLock? || a.CancelLockLoop? || a.CancelPutLock? || a.CancelInsert?
  }

  predicate DoneAction(a: Action) {
    a.LoopWake? || a.DoneLock? || a.DoneMove? || a.DoneCall?
  }

  /** Removing an entry from a list keeps the order. */
  lemma {:induction false} WithoutOrder<T>(s: seq<T>, x: T)
    ensures s != [] && s[0] != x ==> Without(s, x) != [] && Without(s, x)[0] == s[0]
    ensures forall k :: 0 <= k < |Without(s, x)| ==> Without(s, x)[k] in s
    ensures forall j, k :: 0 <= j < k < |Without(s, x)| ==> Before(s, Without(s, x)[j], Without(s, x)[k])
  {
    if s != [] {
      WithoutOrder(s[1..], x);
      var r, w := Without(s[1..], x), Without(s, x);
      assert w == (if s[0] == x then [] else [s[0]]) + r;
      hide Before, Without;
      forall j, k | 0 <= j < k < |w|
        ensures Before(s, w[j], w[k])
      {
        OrderStep(s, r, w, j, k);
      }
    }
  }

  lemma OrderStep<T>(s: seq<T>, r: seq<T>, w: seq<T>, j: nat, k: nat)
    requires s != [] && j < k < |w| && (w == [] + r || w == [s[0]] + r)
    requires forall m :: 0 <= m < |r| ==> r[m] in s[1..]
    requires forall m, n :: 0 <= m < n < |r| ==> Before(s[1..], r[m], r[n])
    ensures Before(s, w[j], w[k])
  {
    hide Before;
    var d := |w| - |r|;
    if d <= j {
      assert w[j] == r[j - d] && w[k] == r[k - d];
      BeforeInTail(s, r[j - d], r[k - d]);
    } else {
      assert w[j] == s[0] && w[k] == r[k - d];
      HeadBefore(s, r[k - d]);
    }
  }

  ghost predicate Before<T>(s: seq<T>, x: T, y: T) {
    exists j, k :: 0 <= j < k < |s| && s[j] == x && s[k] == y
  }

  lemma HeadBefore<T>(s: seq<T>, y: T)
    requires s != [] && y in s[1..]
    ensures Before(s, s[0], y)
  {
    var k :| 0 <= k < |s[1..]| && s[1..][k] == y;
    assert s[k + 1] == y;
  }

  lemma BeforeInTail<T>(s: seq<T>, x: T, y: T)
    requires s != [] && Before(s[1..], x, y)
    ensures Before(s, x, y)
  {
    var j, k :| 0 <= j < k < |s[1..]| && s[1..][j] == x && s[1..][k] == y;
    assert s[j + 1] == x && s[k + 1] == y;
  }

  lemma DistinctSplit<T>(a: seq<T>, b: seq<T>)
    requires Distinct(a + b)
    ensures Distinct(a) && Distinct(b) && forall x :: x in a ==> x !in b
  {
    var c := a + b;
    assert forall j :: 0 <= j < |a| ==> c[j] == a[j];
    assert forall j :: 0 <= j < |b| ==> c[|a| + j] == b[j];
  }

  lemma DistinctJoin<T>(a: seq<T>, b: seq<T>)
    requires Distinct(a) && Distinct(b) && forall x :: x in a ==> x !in b
    ensures Distinct(a + b)
  {
    forall j, k | 0 <= j < k < |a + b|
      ensures (a + b)[j] != (a + b)[k]
    {
      if j < |a| <= k {
        assert (a + b)[j] in a && (a + b)[k] in b;
      }
    }
  }

  /** The same for the two lists of a loop taken together. */
  lemma LoopWithout(p: Loop, i: Item)
    requires Distinct(Items(p))
    ensures var rest := Without(p.drain, i) + Without(p.wq, i);
            && Distinct(rest) && (forall x :: x in rest <==> x in Items(p) && x != i)
            && (p.wq == [] ==> Without(p.wq, i) == [])
  {
    DistinctSplit(p.drain, p.wq);
    WithoutFacts(p.drain, i);
    WithoutFacts(p.wq, i);
    DistinctJoin(Without(p.drain, i), Without(p.wq, i));
  }

  /** A request that the guard of `uv__work_cancel` accepts is queued: globally, or already cancelled at its loop. */
  lemma DecideTarget(s: State, l: nat)
    requires Inv(s) && Enabled(s, CancelDecide(l))
    ensures var r := s.items[s.loops[l].pc.i];
            && r.loop == l
            && (r.linked && r.work != Null ==>
                  r.runs == 0 && r.dones == 0 && (r.place == InPool || (r.place == Completed && r.work == Cancelled)))
    ensures s.loops[l].wqMutex == ByLoop(l) && s.mutex == ByLoop(l)
  {
  }

  /** Appending at the tail of a loop's queue. */
  lemma InsertFacts(p: Loop, q: Loop, i: Item)
    requires q.drain == p.drain && q.wq == p.wq + [i]
    ensures Items(q) == Items(p) + [i]
  {
  }

  lemma CheckKeepsRequests(s: State, t: nat, wake: nat)
    requires Inv(s) && Enabled(s, WorkerCheck(t, wake))
    ensures var s' := DoWorkerCheck(s, t, wake); Requests(s'.items, s'.wq, s'.workers, s'.clients, s'.loops)
  {
    hide FieldsFit, Found, Queues, Locks, LoopLocks, Wakeups, Exit, Leaving, Early, LoopQueues;
    var s' := DoWorkerCheck(s, t, wake);
    forall i | i in s'.items
      ensures FieldsFit(s'.items[i]) && Found(i, s'.items[i], s'.wq, s'.workers, s'.clients, s'.loops)
    {
      CheckKeepsRequest(s, t, wake, i);
    }
  }

  lemma CheckKeepsRequest(s: State, t: nat, wake: nat, i: Item)
    requires Inv(s) && Enabled(s, WorkerCheck(t, wake)) && i in s.items
    ensures var s' := DoWorkerCheck(s, t, wake);
            i in s'.items && FieldsFit(s'.items[i]) && Found(i, s'.items[i], s'.wq, s'.workers, s'.clients, s'.loops)
  {
    hide Queues, Locks, LoopLocks, Wakeups, Exit, Leaving, Early, LoopQueues, Items, Distinct, Posts,
         HandsOver, Wakes;
    assert FieldsFit(s.items[i]) && Found(i, s.items[i], s.wq, s.workers, s.clients, s.loops);
    if s.wq != [] && s.wq[0].Work? {
      TakeKeepsRequest(s, t, wake, i);
    }
  }

  lemma TakeKeepsRequest(s: State, t: nat, wake: nat, i: Item)
    requires Requests(s.items, s.wq, s.workers, s.clients, s.loops) && Queues(s.items, s.wq, s.workers, s.clients)
    requires Enabled(s, WorkerCheck(t, wake)) && i in s.items && s.wq != [] && s.wq[0].Work?
    ensures var s' := DoWorkerCheck(s, t, wake);
            i in s'.items && FieldsFit(s'.items[i]) && Found(i, s'.items[i], s'.wq, s'.workers, s'.clients, s'.loops)
  {
    hide Items, Distinct, Posts, HandsOver, Wakes;
    assert FieldsFit(s.items[i]) && Found(i, s.items[i], s.wq, s.workers, s.clients, s.loops);
    assert Is(s.items, s.wq[0].item, InPool);
    assert Work(i) in s.wq ==> Work(i) == s.wq[0] || Work(i) in s.wq[1..];
  }

  lemma CheckKeepsQueues(s: State, t: nat, wake: nat)
    requires Inv(s) && Enabled(s, WorkerCheck(t, wake))
    ensures var s' := DoWorkerCheck(s, t, wake); Queues(s'.items, s'.wq, s'.workers, s'.clients)
  {
    hide Locks, LoopLocks, Wakeups, Leaving, Early, Carries, Found, Requests;
  }

  /** The locks of the loops depend on nothing but who reports, and to which loop. */
  lemma SameReports(items: map<Item, Request>, items': map<Item, Request>, ws: seq<Worker>, ws': seq<Worker>, loops: seq<Loop>)
    requires LoopLocks(items, ws, loops) && |ws'| == |ws|
    requires forall t {:trigger ws'[t]} :: 0 <= t < |ws| ==> ws'[t] == ws[t] || !(ws'[t].Reporting? || ws[t].Reporting?)
    requires forall i :: i in items ==> i in items' && items'[i].loop == items[i].loop
    ensures LoopLocks(items', ws', loops)
  {
    forall l | 0 <= l < |loops| ensures LoopLock(ws', items', l, loops[l]) {
      assert LoopLock(ws, items, l, loops[l]);
    }
    hide LoopLock;
  }

  lemma CheckKeepsLoopLocks(s: State, t: nat, wake: nat)
    requires Inv(s) && Enabled(s, WorkerCheck(t, wake))
    ensures var s' := DoWorkerCheck(s, t, wake); LoopLocks(s'.items, s'.workers, s'.loops)
  {
    hide Requests, Queues, LoopQueues, Locks, LoopLocks, Wakeups, Exit, Leaving, Early, Wakes;
    var s' := DoWorkerCheck(s, t, wake);
    SameReports(s.items, s'.items, s.workers, s'.workers, s.loops);
  }

  /** A signal turns one sleeper, if there is one, into a woken worker. */
  lemma SignalCounts(ws: seq<Worker>, t: nat)
    requires Wakes(ws, t)
    ensures var m, m' := multiset(ws), multiset(Signal(ws, t));
            if Waiting in ws then m'[Waiting] == m[Waiting] - 1 && m'[Woken] == m[Woken] + 1 && m'[Checking] == m[Checking]
            else Signal(ws, t) == ws
  {
  }

  lemma WaitKeepsWakeups(idle: nat, ws: seq<Worker>, t: nat)
    requires t < |ws| && ws[t] == Checking && Wakeups(idle, ws, [])
    ensures Wakeups(idle + 1, ws[t := Waiting], [])
  {
  }

  lemma LeaveKeepsWakeups(idle: nat, ws: seq<Worker>, wq: seq<Entry>, t: nat, wake: nat)
    requires t < |ws| && ws[t] == Checking && Wakes(ws, wake) && Wakeups(idle, ws, wq)
    ensures Wakeups(idle, Signal(ws, wake)[t := Exited], wq)
  {
    SignalCounts(ws, wake);
    assert Signal(ws, wake)[t] == Checking;
    if Waiting in Signal(ws, wake)[t := Exited] {
      assert multiset(Signal(ws, wake)[t := Exited])[Waiting] > 0;
    }
  }

  lemma TakeKeepsWakeups(idle: nat, ws: seq<Worker>, wq: seq<Entry>, t: nat, i: Item)
    requires t < |ws| && ws[t] == Checking && wq != [] && Wakeups(idle, ws, wq)
    ensures Wakeups(idle, ws[t := Running(i)], wq[1..])
  {
    if Waiting in ws[t := Running(i)] {
      assert multiset(ws[t := Running(i)])[Waiting] > 0;
    }
  }

  lemma CheckKeepsWakeups(s: State, t: nat, wake: nat)
    requires Inv(s) && Enabled(s, WorkerCheck(t, wake))
    ensures var s' := DoWorkerCheck(s, t, wake); Wakeups(s'.idle, s'.workers, s'.wq)
  {
    hide Requests, Queues, LoopQueues, LoopLocks, Exit, Leaving, Early, Locks, Wakeups, Signal;
    if s.wq == [] {
      WaitKeepsWakeups(s.idle, s.workers, t);
    } else if s.wq[0] == ExitMessage {
      LeaveKeepsWakeups(s.idle, s.workers, s.wq, t, wake);
    } else {
      TakeKeepsWakeups(s.idle, s.workers, s.wq, t, s.wq[0].item);
    }
  }

  lemma CallKeepsRequests(s: State, l: nat)
    requires Inv(s) && Enabled(s, DoneCall(l))
    ensures var s' := DoDoneCall(s, l); Requests(s'.items, s'.wq, s'.workers, s'.clients, s'.loops)
  {
    hide FieldsFit, Found, Queues, Locks, LoopLocks, Wakeups, Exit, Leaving, Early;
    var s' := DoDoneCall(s, l);
    forall i | i in s'.items
      ensures FieldsFit(s'.items[i]) && Found(i, s'.items[i], s'.wq, s'.workers, s'.clients, s'.loops)
    {
      CallKeepsRequest(s, l, i);
    }
  }

  lemma CalledItems(s: State, l: nat)
    requires LoopQueues(s.items, s.loops) && Enabled(s, DoneCall(l))
    ensures var d := s.loops[l].drain[0]; d in s.items && s.items[d].place == Completed
    ensures forall x :: x in Items(s.loops[l]) && x != s.loops[l].drain[0] ==> x in Items(DoDoneCall(s, l).loops[l])
  {
    assert LoopFits(s.items, l, s.loops[l]);
    assert Items(s.loops[l]) == [s.loops[l].drain[0]] + Items(DoDoneCall(s, l).loops[l]);
    assert s.loops[l].drain[0] in Items(s.loops[l]);
  }

  lemma CallKeepsRequest(s: State, l: nat, i: Item)
    requires Requests(s.items, s.wq, s.workers, s.clients, s.loops) && LoopQueues(s.items, s.loops)
    requires Enabled(s, DoneCall(l)) && i in s.items
    ensures var s' := DoDoneCall(s, l);
            i in s'.items && FieldsFit(s'.items[i]) && Found(i, s'.items[i], s'.wq, s'.workers, s'.clients, s'.loops)
  {
    hide HandsOver, LoopQueues, Items, Posts, Carries;
    CalledItems(s, l);
    assert FieldsFit(s.items[i]) && Found(i, s.items[i], s.wq, s.workers, s.clients, s.loops);
  }

  lemma CallKeepsLoopQueues(s: State, l: nat)
    requires Inv(s) && Enabled(s, DoneCall(l))
    ensures var s' := DoDoneCall(s, l); LoopQueues(s'.items, s'.loops)
  {
    hide Locks, LoopLocks, Wakeups, Exit, Leaving, Early;
    var p, q := s.loops[l], DoDoneCall(s, l).loops[l];
    assert Items(p) == [p.drain[0]] + Items(q);
    DistinctSplit([p.drain[0]], Items(q));
    assert p.drain[0] in Items(p);
  }

  lemma ClientKeepsRequests(s: State, a: Action)
    requires Inv(s) && Enabled(s, a) && ClientAction(a)
    ensures var s' := Next(s, a); Requests(s'.items, s'.wq, s'.workers, s'.clients, s'.loops)
  {
    hide Locks, LoopLocks, Wakeups, Exit, Leaving, Early;
  }

  lemma WorkerKeepsRequests(s: State, a: Action)
    requires Inv(s) && Enabled(s, a) && WorkerAction(a)
    ensures var s' := Next(s, a); Requests(s'.items, s'.wq, s'.workers, s'.clients, s'.loops)
  {
    hide Locks, LoopLocks, Wakeups, Exit, Leaving, Early;
    if a.WorkerCheck? { CheckKeepsRequests(s, a.t, a.wake); }
  }

  lemma HandInKeepsRequests(s: State, a: Action)
    requires Inv(s) && Enabled(s, a) && (a.WorkerReport?)
    ensures var s' := Next(s, a); Requests(s'.items, s'.wq, s'.workers, s'.clients, s'.loops)
  {
    hide Locks, LoopLocks, Wakeups, Exit, Leaving, Early;
  }

  lemma LoopLockKeepsRequests(s: State, a: Action)
    requires Inv(s) && Enabled(s, a) && (a.WorkerLockLoop?)
    ensures var s' := Next(s, a); Requests(s'.items, s'.wq, s'.workers, s'.clients, s'.loops)
  {
    hide Locks, LoopLocks, Wakeups, Exit, Leaving, Early;
  }

  lemma ReportKeepsRequests(s: State, a: Action)
    requires Inv(s) && Enabled(s, a) && ReportAction(a)
    ensures var s' := Next(s, a); Requests(s'.items, s'.wq, s'.workers, s'.clients, s'.loops)
  {
    hide Inv, Enabled, Next;
    if a.WorkerReport? {
      HandInKeepsRequests(s, a);
    } else {
      LoopLockKeepsRequests(s, a);
    }
  }

  lemma InsertKeepsRequests(s: State, a: Action)
    requires Inv(s) && Enabled(s, a) && (a.CancelInsert?)
    ensures var s' := Next(s, a); Requests(s'.items, s'.wq, s'.workers, s'.clients, s'.loops)
  {
    hide Locks, LoopLocks, Wakeups, Exit, Leaving, Early;
  }

  lemma UnqueueKeepsRequests(s: State, a: Action)
    requires Inv(s) && Enabled(s, a) && (a.CancelLockLoop? || a.CancelPutLock?)
    ensures var s' := Next(s, a); Requests(s'.items, s'.wq, s'.workers, s'.clients, s'.loops)
  {
    hide Locks, LoopLocks, Wakeups, Exit, Leaving, Early;
  }

  lemma LockKeepsRequests(s: State, a: Action)
    requires Inv(s) && Enabled(s, a) && (a.Cancel? || a.CancelLock?)
    ensures var s' := Next(s, a); Requests(s'.items, s'.wq, s'.workers, s'.clients, s'.loops)
  {
    hide Locks, LoopLocks, Wakeups, Exit, Leaving, Early;
  }

  lemma CancelKeepsRequests(s: State, a: Action)
    requires Inv(s) && Enabled(s, a) && CancelAction(a)
    ensures var s' := Next(s, a); Requests(s'.items, s'.wq, s'.workers, s'.clients, s'.loops)
  {
    hide Inv, Enabled, Next;
    if a.CancelInsert? {
      InsertKeepsRequests(s, a);
    } else if a.CancelLockLoop? || a.CancelPutLock? {
      UnqueueKeepsRequests(s, a);
    } else {
      LockKeepsRequests(s, a);
    }
  }

  lemma DoneKeepsRequests(s: State, a: Action)
    requires Inv(s) && Enabled(s, a) && DoneAction(a)
    ensures var s' := Next(s, a); Requests(s'.items, s'.wq, s'.workers, s'.clients, s'.loops)
  {
    hide Locks, LoopLocks, Wakeups, Exit, Leaving, Early;
    if a.DoneCall? { CallKeepsRequests(s, a.l); }
  }

  lemma ClientKeepsQueues(s: State, a: Action)
    requires Inv(s) && Enabled(s, a) && ClientAction(a)
    ensures var s' := Next(s, a); Queues(s'.items, s'.wq, s'.workers, s'.clients)
  {
    hide Locks, LoopLocks, Wakeups, Leaving, Early, Requests;
  }

  lemma WorkerKeepsQueues(s: State, a: Action)
    requires Inv(s) && Enabled(s, a) && WorkerAction(a)
    ensures var s' := Next(s, a); Queues(s'.items, s'.wq, s'.workers, s'.clients)
  {
    hide Locks, LoopLocks, Wakeups, Leaving, Early;
    if a.WorkerCheck? { CheckKeepsQueues(s, a.t, a.wake); }
  }

  lemma ReportKeepsQueues(s: State, a: Action)
    requires Inv(s) && Enabled(s, a) && ReportAction(a)
    ensures var s' := Next(s, a); Queues(s'.items, s'.wq, s'.workers, s'.clients)
  {
    hide Locks, LoopLocks, Wakeups, Leaving, Early;
    if a.WorkerLockLoop? {
      LockLoopKeepsQueues(s, a.t);
    } else {
      HandBackKeepsQueues(s, a.t);
    }
  }

  lemma LockLoopKeepsQueues(s: State, t: nat)
    requires Queues(s.items, s.wq, s.workers, s.clients) && Enabled(s, WorkerLockLoop(t))
    ensures var s' := DoWorkerLockLoop(s, t); Queues(s'.items, s'.wq, s'.workers, s'.clients)
  {
    hide Distinct;
  }

  lemma HandBackKeepsQueues(s: State, t: nat)
    requires Queues(s.items, s.wq, s.workers, s.clients) && Enabled(s, WorkerReport(t))
    ensures var s' := DoWorkerReport(s, t); Queues(s'.items, s'.wq, s'.workers, s'.clients)
  {
    hide Distinct;
  }

  lemma CancelKeepsQueues(s: State, a: Action)
    requires Inv(s) && Enabled(s, a) && CancelAction(a)
    ensures var s' := Next(s, a); Queues(s'.items, s'.wq, s'.workers, s'.clients)
  {
    hide Locks, LoopLocks, Wakeups, Leaving, Early, Requests, Exit, Distinct, Items;
  }

  lemma DoneKeepsQueues(s: State, a: Action)
    requires Inv(s) && Enabled(s, a) && DoneAction(a)
    ensures var s' := Next(s, a); Queues(s'.items, s'.wq, s'.workers, s'.clients)
  {
    hide Locks, LoopLocks, Wakeups, Leaving, Early, Requests, Posts, Busy;
  }

  lemma ClientKeepsLoopQueues(s: State, a: Action)
    requires Inv(s) && Enabled(s, a) && ClientAction(a)
    ensures var s' := Next(s, a); LoopQueues(s'.items, s'.loops)
  {
    hide Locks, LoopLocks, Wakeups, Exit, Leaving, Early;
  }

  lemma WorkerKeepsLoopQueues(s: State, a: Action)
    requires Inv(s) && Enabled(s, a) && WorkerAction(a)
    ensures var s' := Next(s, a); LoopQueues(s'.items, s'.loops)
  {
    hide Locks, LoopLocks, Wakeups, Exit, Leaving, Early, Items, Found, Requests;
  }

  lemma ReportKeepsLoopQueues(s: State, a: Action)
    requires Inv(s) && Enabled(s, a) && ReportAction(a)
    ensures var s' := Next(s, a); LoopQueues(s'.items, s'.loops)
  {
    hide Locks, LoopLocks, Wakeups, Exit, Leaving, Early, Requests, Wakes, LoopFits;
    if a.WorkerReport? {
      ReportedLoopQueues(s, a.t);
    } else {
      var l := s.items[s.workers[a.t].w].loop;
      assert LoopFits(s.items, l, s.loops[l]);
      SameLists(s.items, l, s.loops[l], Next(s, a).loops[l]);
    }
    hide Queues;
  }

  lemma SameLists(items: map<Item, Request>, l: nat, p: Loop, q: Loop)
    requires LoopFits(items, l, p) && q.drain == p.drain && q.wq == p.wq && q.pc == p.pc && q.asyncPending == p.asyncPending
    ensures LoopFits(items, l, q)
  {
  }

  lemma ReportedLoopQueues(s: State, t: nat)
    requires Queues(s.items, s.wq, s.workers, s.clients) && LoopQueues(s.items, s.loops) && Enabled(s, WorkerReport(t))
    ensures var s' := DoWorkerReport(s, t); LoopQueues(s'.items, s'.loops)
  {
    var i := s.workers[t].w;
    var l, s' := s.items[i].loop, DoWorkerReport(s, t);
    assert Is(s.items, i, WithWorker(t));
    hide Queues, Distinct;
    assert LoopFits(s.items, l, s.loops[l]);
    AppendedFits(s.items, l, s.loops[l], i, s'.items[i]);
    forall m | 0 <= m < |s'.loops|
      ensures LoopFits(s'.items, m, s'.loops[m])
    {
      if m != l {
        assert LoopFits(s.items, m, s.loops[m]);
        OtherFits(s.items, m, s.loops[m], i, s'.items[i]);
      }
    }
    hide LoopFits, LoopQueues;
  }

  /** The request of another loop, or one that is in no list of this loop yet, changes its fields. */
  lemma OtherFits(items: map<Item, Request>, l: nat, p: Loop, i: Item, r: Request)
    requires LoopFits(items, l, p) && i in items && items[i].place.WithWorker? && r.loop == items[i].loop != l
    ensures LoopFits(items[i := r], l, p)
  {
    hide Distinct;
  }

  lemma AppendedFits(items: map<Item, Request>, l: nat, p: Loop, i: Item, r: Request)
    requires LoopFits(items, l, p) && i in items && items[i].place.WithWorker? && r.loop == items[i].loop == l && r.place == Completed
    ensures LoopFits(items[i := r], l, p.(wq := p.wq + [i], asyncPending := true, wqMutex := Free))
  {
    var q := p.(wq := p.wq + [i], asyncPending := true, wqMutex := Free);
    InsertFacts(p, q, i);
    assert i !in Items(p);
    DistinctJoin(Items(p), [i]);
    hide Distinct, Items;
  }

  lemma InsertKeepsLoopQueues(s: State, a: Action)
    requires Inv(s) && Enabled(s, a) && (a.CancelInsert?)
    ensures var s' := Next(s, a); LoopQueues(s'.items, s'.loops)
  {
    hide Locks, LoopLocks, Wakeups, Exit, Leaving, Early;
    InsertFacts(s.loops[a.l], Next(s, a).loops[a.l], s.loops[a.l].pc.i);
  }

  lemma UnqueueKeepsLoopQueues(s: State, a: Action)
    requires Inv(s) && Enabled(s, a) && (a.CancelLockLoop? || a.CancelPutLock?)
    ensures var s' := Next(s, a); LoopQueues(s'.items, s'.loops)
  {
    hide Locks, LoopLocks, Wakeups, Exit, Leaving, Early;
  }

  lemma LockKeepsLoopQueues(s: State, a: Action)
    requires Inv(s) && Enabled(s, a) && (a.Cancel? || a.CancelLock?)
    ensures var s' := Next(s, a); LoopQueues(s'.items, s'.loops)
  {
    hide Locks, LoopLocks, Wakeups, Exit, Leaving, Early;
  }

  lemma CancelKeepsLoopQueues(s: State, a: Action)
    requires Inv(s) && Enabled(s, a) && CancelAction(a)
    ensures var s' := Next(s, a); LoopQueues(s'.items, s'.loops)
  {
    hide Inv, Enabled, Next;
    if a.CancelInsert? {
      InsertKeepsLoopQueues(s, a);
    } else if a.CancelLockLoop? || a.CancelPutLock? {
      UnqueueKeepsLoopQueues(s, a);
    } else {
      LockKeepsLoopQueues(s, a);
    }
  }

  lemma DoneKeepsLoopQueues(s: State, a: Action)
    requires Inv(s) && Enabled(s, a) && DoneAction(a)
    ensures var s' := Next(s, a); LoopQueues(s'.items, s'.loops)
  {
    hide Locks, LoopLocks, Wakeups, Exit, Leaving, Early;
    if a.DoneMove? { assert Items(Next(s, a).loops[a.l]) == Items(s.loops[a.l]); }
    if a.DoneCall? { CallKeepsLoopQueues(s, a.l); }
  }

  lemma ClientKeepsLocks(s: State, a: Action)
    requires Inv(s) && Enabled(s, a) && ClientAction(a)
    ensures var s' := Next(s, a); Locks(s'.mutex, s'.workers, s'.clients, s'.loops)
  {
    hide Requests, Queues, LoopQueues, LoopLocks, Wakeups, Exit, Leaving, Early;
  }

  lemma WorkerKeepsLocks(s: State, a: Action)
    requires Inv(s) && Enabled(s, a) && WorkerAction(a)
    ensures var s' := Next(s, a); Locks(s'.mutex, s'.workers, s'.clients, s'.loops)
  {
    hide Inv, Locks;
    if a.WorkerCheck? {
      CheckKeepsLocks(s, a.t, a.wake);
    } else {
      StirKeepsLocks(s, a);
    }
  }

  lemma CheckKeepsLocks(s: State, t: nat, wake: nat)
    requires Inv(s) && Enabled(s, WorkerCheck(t, wake))
    ensures var s' := DoWorkerCheck(s, t, wake); Locks(s'.mutex, s'.workers, s'.clients, s'.loops)
  {
    hide Requests, Queues, LoopQueues, LoopLocks, Wakeups, Exit, Leaving, Early, Wakes;
  }

  lemma StirKeepsLocks(s: State, a: Action)
    requires Inv(s) && Enabled(s, a) && WorkerAction(a) && !a.WorkerCheck?
    ensures var s' := Next(s, a); Locks(s'.mutex, s'.workers, s'.clients, s'.loops)
  {
    hide Requests, Queues, LoopQueues, LoopLocks, Wakeups, Exit, Leaving, Early, Wakes;
  }

  lemma ReportKeepsLocks(s: State, a: Action)
    requires Inv(s) && Enabled(s, a) && ReportAction(a)
    ensures var s' := Next(s, a); Locks(s'.mutex, s'.workers, s'.clients, s'.loops)
  {
    hide Requests, Queues, LoopQueues, LoopLocks, Wakeups, Exit, Leaving, Early;
  }

  lemma CancelKeepsLocks(s: State, a: Action)
    requires Inv(s) && Enabled(s, a) && CancelAction(a)
    ensures var s' := Next(s, a); Locks(s'.mutex, s'.workers, s'.clients, s'.loops)
  {
    hide Requests, Queues, LoopQueues, LoopLocks, Wakeups, Exit, Leaving, Early;
  }

  lemma DoneKeepsLocks(s: State, a: Action)
    requires Inv(s) && Enabled(s, a) && DoneAction(a)
    ensures var s' := Next(s, a); Locks(s'.mutex, s'.workers, s'.clients, s'.loops)
  {
    hide Requests, Queues, LoopQueues, LoopLocks, Wakeups, Exit, Leaving, Early;
  }

  lemma ClientKeepsLoopLocks(s: State, a: Action)
    requires Inv(s) && Enabled(s, a) && ClientAction(a)
    ensures var s' := Next(s, a); LoopLocks(s'.items, s'.workers, s'.loops)
  {
    hide Requests, Queues, LoopQueues, Locks, LoopLocks, Wakeups, Exit, Leaving, Early;
    var s' := Next(s, a);
    SameReports(s.items, s'.items, s.workers, s'.workers, s.loops);
  }

  lemma WorkerKeepsLoopLocks(s: State, a: Action)
    requires Inv(s) && Enabled(s, a) && WorkerAction(a)
    ensures var s' := Next(s, a); LoopLocks(s'.items, s'.workers, s'.loops)
  {
    hide Inv, LoopLocks, DoWorkerCheck;
    if a.WorkerCheck? {
      CheckKeepsLoopLocks(s, a.t, a.wake);
    } else {
      StirKeepsLoopLocks(s, a);
    }
  }

  lemma StirKeepsLoopLocks(s: State, a: Action)
    requires Inv(s) && Enabled(s, a) && WorkerAction(a) && !a.WorkerCheck?
    ensures var s' := Next(s, a); LoopLocks(s'.items, s'.workers, s'.loops)
  {
    hide Requests, Queues, LoopQueues, Locks, LoopLocks, Wakeups, Exit, Leaving, Early;
    var s' := Next(s, a);
    SameReports(s.items, s'.items, s.workers, s'.workers, s.loops);
  }

  lemma ReportKeepsLoopLocks(s: State, a: Action)
    requires Inv(s) && Enabled(s, a) && ReportAction(a)
    ensures var s' := Next(s, a); LoopLocks(s'.items, s'.workers, s'.loops)
  {
    hide Locks, Wakeups, Exit, Leaving, Early, Requests, Queues, LoopQueues, Wakes, Signal;
  }

  lemma InsertKeepsLoopLocks(s: State, a: Action)
    requires Inv(s) && Enabled(s, a) && (a.CancelInsert?)
    ensures var s' := Next(s, a); LoopLocks(s'.items, s'.workers, s'.loops)
  {
    hide Locks, Wakeups, Exit, Leaving, Early;
  }

  lemma UnqueueKeepsLoopLocks(s: State, a: Action)
    requires Inv(s) && Enabled(s, a) && (a.CancelLockLoop? || a.CancelPutLock?)
    ensures var s' := Next(s, a); LoopLocks(s'.items, s'.workers, s'.loops)
  {
    hide Locks, Wakeups, Exit, Leaving, Early;
  }

  lemma LockKeepsLoopLocks(s: State, a: Action)
    requires Inv(s) && Enabled(s, a) && (a.Cancel? || a.CancelLock?)
    ensures var s' := Next(s, a); LoopLocks(s'.items, s'.workers, s'.loops)
  {
    hide Locks, Wakeups, Exit, Leaving, Early;
  }

  lemma CancelKeepsLoopLocks(s: State, a: Action)
    requires Inv(s) && Enabled(s, a) && CancelAction(a)
    ensures var s' := Next(s, a); LoopLocks(s'.items, s'.workers, s'.loops)
  {
    hide Inv, Enabled, Next;
    if a.CancelInsert? {
      InsertKeepsLoopLocks(s, a);
    } else if a.CancelLockLoop? || a.CancelPutLock? {
      UnqueueKeepsLoopLocks(s, a);
    } else {
      LockKeepsLoopLocks(s, a);
    }
  }

  lemma DoneKeepsLoopLocks(s: State, a: Action)
    requires Inv(s) && Enabled(s, a) && DoneAction(a)
    ensures var s' := Next(s, a); LoopLocks(s'.items, s'.workers, s'.loops)
  {
    hide Locks, Wakeups, Exit, Leaving, Early, Requests, Queues, LoopQueues, Wakes, Signal, Items, Distinct;
  }

  lemma ClientKeepsWakeups(s: State, a: Action)
    requires Inv(s) && Enabled(s, a) && ClientAction(a)
    ensures var s' := Next(s, a); Wakeups(s'.idle, s'.workers, s'.wq)
  {
    hide Requests, Queues, LoopQueues, LoopLocks, Exit, Leaving, Early;
  }

  lemma WorkerKeepsWakeups(s: State, a: Action)
    requires Inv(s) && Enabled(s, a) && WorkerAction(a)
    ensures var s' := Next(s, a); Wakeups(s'.idle, s'.workers, s'.wq)
  {
    hide Inv, Wakeups, DoWorkerCheck;
    if a.WorkerCheck? {
      CheckKeepsWakeups(s, a.t, a.wake);
    } else {
      StirKeepsWakeups(s, a);
    }
  }

  lemma StirKeepsWakeups(s: State, a: Action)
    requires Inv(s) && Enabled(s, a) && WorkerAction(a) && !a.WorkerCheck?
    ensures var s' := Next(s, a); Wakeups(s'.idle, s'.workers, s'.wq)
  {
    hide Requests, Queues, LoopQueues, LoopLocks, Exit, Leaving, Early;
  }

  lemma ReportKeepsWakeups(s: State, a: Action)
    requires Inv(s) && Enabled(s, a) && ReportAction(a)
    ensures var s' := Next(s, a); Wakeups(s'.idle, s'.workers, s'.wq)
  {
    hide Requests, Queues, LoopQueues, LoopLocks, Exit, Leaving, Early;
  }

  lemma CancelKeepsWakeups(s: State, a: Action)
    requires Inv(s) && Enabled(s, a) && CancelAction(a)
    ensures var s' := Next(s, a); Wakeups(s'.idle, s'.workers, s'.wq)
  {
    hide Requests, Queues, LoopQueues, LoopLocks, Exit, Leaving, Early;
  }

  lemma DoneKeepsWakeups(s: State, a: Action)
    requires Inv(s) && Enabled(s, a) && DoneAction(a)
    ensures var s' := Next(s, a); Wakeups(s'.idle, s'.workers, s'.wq)
  {
    hide Requests, Queues, LoopQueues, LoopLocks, Exit, Leaving, Early;
  }

  lemma ClientKeepsExit(s: State, a: Action)
    requires Inv(s) && Enabled(s, a) && ClientAction(a)
    ensures var s' := Next(s, a);
            Exit(s'.exitAsked, s'.exitPosted, s'.early, s'.clients, s'.wq) &&
            Leaving(s'.workers, s'.wq) &&
            Early(s'.early, s'.items)
  {
    hide Locks, LoopLocks, Wakeups;
  }

  lemma WorkerKeepsExit(s: State, a: Action)
    requires Inv(s) && Enabled(s, a) && WorkerAction(a)
    ensures var s' := Next(s, a);
            Exit(s'.exitAsked, s'.exitPosted, s'.early, s'.clients, s'.wq) &&
            Leaving(s'.workers, s'.wq) &&
            Early(s'.early, s'.items)
  {
    hide Locks, LoopLocks, Wakeups, Requests, Queues;
  }

  lemma ReportKeepsExit(s: State, a: Action)
    requires Inv(s) && Enabled(s, a) && ReportAction(a)
    ensures var s' := Next(s, a);
            Exit(s'.exitAsked, s'.exitPosted, s'.early, s'.clients, s'.wq) &&
            Leaving(s'.workers, s'.wq) &&
            Early(s'.early, s'.items)
  {
    hide Locks, LoopLocks, Wakeups;
  }

  lemma CancelKeepsExit(s: State, a: Action)
    requires Inv(s) && Enabled(s, a) && CancelAction(a)
    ensures var s' := Next(s, a);
            Exit(s'.exitAsked, s'.exitPosted, s'.early, s'.clients, s'.wq) &&
            Leaving(s'.workers, s'.wq) &&
            Early(s'.early, s'.items)
  {
    hide Locks, LoopLocks, Wakeups;
  }

  lemma DoneKeepsExit(s: State, a: Action)
    requires Inv(s) && Enabled(s, a) && DoneAction(a)
    ensures var s' := Next(s, a);
            Exit(s'.exitAsked, s'.exitPosted, s'.early, s'.clients, s'.wq) &&
            Leaving(s'.workers, s'.wq) &&
            Early(s'.early, s'.items)
  {
    hide Locks, LoopLocks, Wakeups;
  }

  lemma DecideKeepsRequests(s: State, l: nat)
    requires Inv(s) && Enabled(s, CancelDecide(l))
    ensures var s' := DoCancelDecide(s, l); Requests(s'.items, s'.wq, s'.workers, s'.clients, s'.loops)
  {
    hide FieldsFit, Found, Queues, Locks, LoopLocks, Wakeups, Exit, Leaving, Early, LoopQueues, Without;
    DecideTarget(s, l);
    var s' := DoCancelDecide(s, l);
    forall i | i in s'.items
      ensures FieldsFit(s'.items[i]) && Found(i, s'.items[i], s'.wq, s'.workers, s'.clients, s'.loops)
    {
      DecideKeepsRequest(s, l, i);
    }
  }

  lemma DecideKeepsRequest(s: State, l: nat, i: Item)
    requires Inv(s) && Enabled(s, CancelDecide(l)) && i in s.items
    ensures var s' := DoCancelDecide(s, l);
            i in s'.items && FieldsFit(s'.items[i]) && Found(i, s'.items[i], s'.wq, s'.workers, s'.clients, s'.loops)
  {
    hide Without, Queues, LoopQueues, Locks, LoopLocks, Wakeups, Exit, Leaving, Early, Distinct, Busy, Carries, Posts;
    assert FieldsFit(s.items[i]) && Found(i, s.items[i], s.wq, s.workers, s.clients, s.loops);
    var r := s.items[s.loops[l].pc.i];
    if r.linked && r.work != Null {
      TargetKeepsRequest(s, l, i);
    }
  }

  lemma TargetKeepsRequest(s: State, l: nat, i: Item)
    requires Inv(s) && Enabled(s, CancelDecide(l)) && i in s.items
    requires s.items[s.loops[l].pc.i].linked && s.items[s.loops[l].pc.i].work != Null
    ensures var s' := DoCancelDecide(s, l);
            i in s'.items && FieldsFit(s'.items[i]) && Found(i, s'.items[i], s'.wq, s'.workers, s'.clients, s'.loops)
  {
    hide Without, Locks, LoopLocks, Wakeups, Exit, Leaving, Early, Distinct, Busy, Carries, Posts;
    DecideTarget(s, l);
    assert LoopFits(s.items, l, s.loops[l]);
    LoopWithout(s.loops[l], s.loops[l].pc.i);
    WithoutFacts(s.wq, Work(s.loops[l].pc.i));
    assert FieldsFit(s.items[i]) && Found(i, s.items[i], s.wq, s.workers, s.clients, s.loops);
  }

  lemma DecideKeepsQueues(s: State, l: nat)
    requires Inv(s) && Enabled(s, CancelDecide(l))
    ensures var s' := DoCancelDecide(s, l); Queues(s'.items, s'.wq, s'.workers, s'.clients)
  {
    hide Without, Requests, LoopQueues, Locks, LoopLocks, Wakeups, Exit, Leaving, Early;
    DecideTarget(s, l);
    WithoutFacts(s.wq, Work(s.loops[l].pc.i));
  }

  lemma DecideKeepsLoopQueues(s: State, l: nat)
    requires Inv(s) && Enabled(s, CancelDecide(l))
    ensures var s' := DoCancelDecide(s, l); LoopQueues(s'.items, s'.loops)
  {
    hide Without, Requests, Queues, Locks, LoopLocks, Wakeups, Exit, Leaving, Early;
    DecideTarget(s, l);
    LoopWithout(s.loops[l], s.loops[l].pc.i);
  }

  lemma DecideKeepsLocks(s: State, l: nat)
    requires Inv(s) && Enabled(s, CancelDecide(l))
    ensures var s' := DoCancelDecide(s, l); Locks(s'.mutex, s'.workers, s'.clients, s'.loops)
  {
    hide Without, Requests, Queues, LoopQueues, LoopLocks, Wakeups, Exit, Leaving, Early;
    DecideTarget(s, l);
  }

  lemma DecideKeepsLoopLocks(s: State, l: nat)
    requires Inv(s) && Enabled(s, CancelDecide(l))
    ensures var s' := DoCancelDecide(s, l); LoopLocks(s'.items, s'.workers, s'.loops)
  {
    hide Without, Requests, Locks, Wakeups, Exit, Leaving, Early, Items;
    DecideTarget(s, l);
  }

  lemma DecideKeepsWakeups(s: State, l: nat)
    requires Inv(s) && Enabled(s, CancelDecide(l))
    ensures var s' := DoCancelDecide(s, l); Wakeups(s'.idle, s'.workers, s'.wq)
  {
    hide Without, Requests, LoopQueues, Locks, LoopLocks, Exit, Leaving, Early;
    DecideTarget(s, l);
    WithoutFacts(s.wq, Work(s.loops[l].pc.i));
  }

  lemma DecideKeepsExit(s: State, l: nat)
    requires Inv(s) && Enabled(s, CancelDecide(l))
    ensures var s' := DoCancelDecide(s, l);
            Exit(s'.exitAsked, s'.exitPosted, s'.early, s'.clients, s'.wq) &&
            Leaving(s'.workers, s'.wq) &&
            Early(s'.early, s'.items)
  {
    hide Without, Requests, LoopQueues, Locks, LoopLocks, Wakeups;
    DecideTarget(s, l);
    WithoutFacts(s.wq, Work(s.loops[l].pc.i));
    WithoutOrder(s.wq, Work(s.loops[l].pc.i));
  }


  // ----- every step, every run -----

  /** Every step of any thread keeps the invariant. */
  lemma StepKeepsInv(s: State, a: Action)
    requires Inv(s) && Enabled(s, a)
    ensures Inv(Next(s, a))
  {
    hide Requests, Queues, LoopQueues, Locks, LoopLocks, Wakeups, Exit, Leaving, Early, Enabled;
    if ClientAction(a) {
      ClientKeepsRequests(s, a); ClientKeepsQueues(s, a); ClientKeepsLoopQueues(s, a); ClientKeepsLocks(s, a);
      ClientKeepsLoopLocks(s, a); ClientKeepsWakeups(s, a); ClientKeepsExit(s, a);
    } else if WorkerAction(a) {
      WorkerKeepsRequests(s, a); WorkerKeepsQueues(s, a); WorkerKeepsLoopQueues(s, a); WorkerKeepsLocks(s, a);
      WorkerKeepsLoopLocks(s, a); WorkerKeepsWakeups(s, a); WorkerKeepsExit(s, a);
    } else if ReportAction(a) {
      ReportKeepsRequests(s, a); ReportKeepsQueues(s, a); ReportKeepsLoopQueues(s, a); ReportKeepsLocks(s, a);
      ReportKeepsLoopLocks(s, a); ReportKeepsWakeups(s, a); ReportKeepsExit(s, a);
    } else if CancelAction(a) {
      CancelKeepsRequests(s, a); CancelKeepsQueues(s, a); CancelKeepsLoopQueues(s, a); CancelKeepsLocks(s, a);
      CancelKeepsLoopLocks(s, a); CancelKeepsWakeups(s, a); CancelKeepsExit(s, a);
    } else if DoneAction(a) {
      DoneKeepsRequests(s, a); DoneKeepsQueues(s, a); DoneKeepsLoopQueues(s, a); DoneKeepsLocks(s, a);
      DoneKeepsLoopLocks(s, a); DoneKeepsWakeups(s, a); DoneKeepsExit(s, a);
    } else {
      var l := a.l;
      DecideKeepsRequests(s, l); DecideKeepsQueues(s, l); DecideKeepsLoopQueues(s, l); DecideKeepsLocks(s, l);
      DecideKeepsLoopLocks(s, l); DecideKeepsWakeups(s, l); DecideKeepsExit(s, l);
    }
  }

  predicate IsRun(s: State, run: seq<Action>)
    decreases |run|
  {
    run == [] || (Enabled(s, run[0]) && IsRun(Next(s, run[0]), run[1..]))
  }

  function After(s: State, run: seq<Action>): (r: State)
    requires IsRun(s, run)
    decreases |run|
  {
    if run == [] then s else After(Next(s, run[0]), run[1..])
  }

  lemma {:induction false} RunKeepsInv(s: State, run: seq<Action>)
    requires Inv(s) && IsRun(s, run)
    ensures Inv(After(s, run))
    decreases |run|
  {
    hide Inv, Enabled, Next;
    if run != [] {
      StepKeepsInv(s, run[0]);
      RunKeepsInv(Next(s, run[0]), run[1..]);
    }
  }

  /**
   * Exactly once, in every interleaving: `done` runs at most once and the work function at most once; a finished item
   * with status 0 ran, one with UV_ECANCELED never did; and no item is in two queues or twice in one.
   */
  lemma ExactlyOnce(workers: nat, loops: nat, clients: nat, run: seq<Action>, i: Item)
    requires IsRun(Init(workers, loops, clients), run)
    requires i in After(Init(workers, loops, clients), run).items
    ensures var s := After(Init(workers, loops, clients), run);
            var r := s.items[i];
            && r.dones <= 1 && r.runs <= 1 && (r.dones == 1 <==> r.place.Done?)
            && (r.place == Done(Zero) ==> r.runs == 1) && (r.place == Done(Ecanceled) ==> r.runs == 0)
            && Distinct(s.wq) && (Work(i) in s.wq ==> forall l :: 0 <= l < |s.loops| ==> i !in Items(s.loops[l]))
            && (forall l, m :: 0 <= l < |s.loops| && 0 <= m < |s.loops| && i in Items(s.loops[l]) && i in Items(s.loops[m]) ==>
                  l == m)
            && (forall l :: 0 <= l < |s.loops| ==> Distinct(Items(s.loops[l])))
  {
    InitInv(workers, loops, clients);
    RunKeepsInv(Init(workers, loops, clients), run);
    assert FieldsFit(After(Init(workers, loops, clients), run).items[i]);
  }

  /** A state that some run of the pool reaches. */
  ghost predicate Reachable(s: State) {
    exists workers, loops, clients, run :: IsRun(Init(workers, loops, clients), run) && s == After(Init(workers, loops, clients), run)
  }

  lemma ReachableInv(s: State)
    requires Reachable(s)
    ensures Inv(s)
  {
    hide Inv;
    var workers, loops, clients, run :|
      IsRun(Init(workers, loops, clients), run) && s == After(Init(workers, loops, clients), run);
    InitInv(workers, loops, clients);
    RunKeepsInv(Init(workers, loops, clients), run);
  }

  /** No lost wakeup: as long as a worker sleeps, at least as many are awake for the queue as it has entries. */
  lemma NoLostWakeup(s: State)
    requires Reachable(s) && Waiting in s.workers
    ensures |s.wq| <= multiset(s.workers)[Woken] + multiset(s.workers)[Checking]
    ensures s.wq != [] ==> Woken in s.workers || Checking in s.workers
  {
    ReachableInv(s);
  }

  /** Orderly exit: once any worker has left, nothing posted before the exit message is still queued. */
  lemma OrderlyExit(s: State, i: Item)
    requires Reachable(s) && Exited in s.workers && i in s.early
    ensures s.exitPosted && Work(i) !in s.wq
  {
    ReachableInv(s);
    assert s.wq[0] == ExitMessage;
  }

  /** Thread `x` is at a lock operation on a lock that `y` holds. */
  ghost predicate WaitsFor(s: State, x: Owner, y: Owner) {
    y != Free &&
    match x
    case Free => false
    case ByWorker(t) =>
      t < |s.workers| &&
      (((s.workers[t] == Start || s.workers[t] == Woken) && s.mutex == y) ||
       (s.workers[t].Finished? && s.workers[t].w in s.items && s.items[s.workers[t].w].loop < |s.loops|
        && s.loops[s.items[s.workers[t].w].loop].wqMutex == y))
    case ByClient(c) => c < |s.clients| && s.clients[c].PostWant? && s.mutex == y
    case ByLoop(l) =>
      l < |s.loops| &&
      var pc := s.loops[l].pc;
      (pc.CancelWant? && s.mutex == y) ||
      ((pc.CancelHold? || pc.CancelPut? || pc.DoneWant?) && s.loops[l].wqMutex == y)
  }

  /** Whoever is waited for holds `mutex` or some loop's lock. */
  lemma WaitTarget(s: State, x: Owner, y: Owner) returns (l: nat)
    requires WaitsFor(s, x, y)
    ensures y != Free && (y == s.mutex || (l < |s.loops| && y == s.loops[l].wqMutex))
  {
    l := if x.ByLoop? then x.l
         else if x.ByWorker? && s.workers[x.t].Finished? && s.workers[x.t].w in s.items then s.items[s.workers[x.t].w].loop
         else 0;
  }

  /** The holder of a loop's lock waits for nothing. */
  lemma LoopHolderGoesOn(s: State, l: nat, z: Owner, w: Owner)
    requires LoopLocks(s.items, s.workers, s.loops) && l < |s.loops| && z == s.loops[l].wqMutex != Free
    ensures !WaitsFor(s, z, w)
  {
    assert LoopLock(s.workers, s.items, l, s.loops[l]);
  }

  /** The holder of `mutex` waits for a loop's lock at most. */
  lemma MutexHolderWaits(s: State, y: Owner, z: Owner)
    requires Locks(s.mutex, s.workers, s.clients, s.loops) && y == s.mutex && WaitsFor(s, y, z)
    ensures y.ByLoop? && y.l < |s.loops| && z == s.loops[y.l].wqMutex != Free
  {
  }

  /** No cyclic lock wait: a chain of waiting threads has at most two links, so it never closes. */
  lemma NoCyclicWait(s: State, x: Owner, y: Owner, z: Owner, w: Owner)
    requires Reachable(s) && WaitsFor(s, x, y) && WaitsFor(s, y, z)
    ensures !WaitsFor(s, z, w)
  {
    ReachableInv(s);
    hide WaitsFor, Locks, LoopLocks, Requests, Queues, LoopQueues, Wakeups, Exit, Leaving, Early;
    var l := WaitTarget(s, x, y);
    if y != s.mutex {
      LoopHolderGoesOn(s, l, y, z);
    } else {
      MutexHolderWaits(s, y, z);
      LoopHolderGoesOn(s, y.l, z, w);
    }
  }

  // ----- what the threads do on their own comes to an end, with everything done -----

  predicate Internal(a: Action) {
    !(a.Submit? || a.PostExit? || a.Cancel? || a.Spurious?)
  }

  function SomeWaiter(ws: seq<Worker>): (t: nat)
    ensures Wakes(ws, t)
  {
    if ws == [] then 0 else if ws[0] == Waiting then 0 else 1 + SomeWaiter(ws[1..])
  }

  /** Everything that was submitted has been handed back, but for what was posted behind the exit message. */
  ghost predicate Settled(s: State) {
    && (forall c :: 0 <= c < |s.clients| ==> s.clients[c] == Resting)
    && (forall l :: 0 <= l < |s.loops| ==> s.loops[l].pc == Idle && Items(s.loops[l]) == [])
    && (if s.exitPosted then
          && (forall t :: 0 <= t < |s.workers| ==> s.workers[t] == Exited)
          && (forall i :: i in s.items ==> s.items[i].place.Done? || (s.items[i].place == InPool && i !in s.early))
        else
          && s.wq == [] && (forall t :: 0 <= t < |s.workers| ==> s.workers[t] == Waiting)
          && (forall i :: i in s.items ==> s.items[i].place.Done?))
  }

  /** The holder of a loop's lock can always go on. */
  lemma LoopLockStep(s: State, l: nat) returns (a: Action)
    requires Inv(s) && l < |s.loops| && s.loops[l].wqMutex != Free
    ensures Internal(a) && Enabled(s, a)
  {
    hide Requests, Queues, Wakeups, Exit, Leaving, Early;
    assert LoopFits(s.items, l, s.loops[l]) && LoopLock(s.workers, s.items, l, s.loops[l]);
    if s.loops[l].wqMutex.ByWorker? {
      a := WorkerReport(s.loops[l].wqMutex.t);
    } else if s.loops[l].pc.CancelBoth? {
      a := CancelDecide(l);
    } else if s.loops[l].pc.CancelPutHold? {
      a := CancelInsert(l);
    } else {
      a := DoneMove(l);
    }
  }

  /** So can the holder of the global lock, once the loops' locks are free. */
  lemma GlobalLockStep(s: State) returns (a: Action)
    requires Inv(s) && s.mutex != Free && forall l :: 0 <= l < |s.loops| ==> s.loops[l].wqMutex == Free
    ensures Internal(a) && Enabled(s, a)
  {
    hide Requests, Queues, LoopQueues, Wakeups, Exit, Leaving, Early;
    match s.mutex {
      case ByWorker(t) => a := WorkerCheck(t, SomeWaiter(s.workers));
      case ByClient(c) => a := ClientPost(c, SomeWaiter(s.workers));
      case ByLoop(l) => a := CancelLockLoop(l);
    }
  }

  /** A worker that is not asleep and has not left. */
  predicate Awake(w: Worker) {
    w != Waiting && w != Exited
  }

  lemma WorkerStep(s: State, t: nat) returns (a: Action)
    requires Inv(s) && s.mutex == Free && forall l :: 0 <= l < |s.loops| ==> s.loops[l].wqMutex == Free
    requires t < |s.workers| && Awake(s.workers[t])
    ensures Internal(a) && Enabled(s, a)
  {
    hide LoopQueues, Wakeups, Exit, Leaving, Early;
    if s.workers[t].Running? {
      a := WorkerRun(t);
    } else if s.workers[t].Finished? {
      assert s.items[s.workers[t].w].loop < |s.loops|;
      a := WorkerLockLoop(t);
    } else {
      a := WorkerLock(t);
    }
  }

  lemma LoopStep(s: State, l: nat) returns (a: Action)
    requires Inv(s) && s.mutex == Free && l < |s.loops| && s.loops[l].wqMutex == Free
    requires s.loops[l].pc != Idle || Items(s.loops[l]) != []
    ensures Internal(a) && Enabled(s, a)
  {
    hide Requests, Queues, Wakeups, Exit, Leaving, Early;
    var p := s.loops[l];
    assert LoopFits(s.items, l, p);
    if p.pc.CancelWant? {
      a := CancelLock(l);
    } else if p.pc.CancelPut? {
      a := CancelPutLock(l);
    } else if p.pc.DoneWant? {
      a := DoneLock(l);
    } else if p.drain != [] {
      assert p.drain[0] in Items(p);
      a := DoneCall(l);
    } else {
      a := LoopWake(l);
    }
  }

  /** Nothing left to do: every request is where it should end. */
  lemma NothingLeft(s: State)
    requires Inv(s) && |s.workers| > 0
    requires forall t :: 0 <= t < |s.workers| ==> !Awake(s.workers[t])
    requires forall c :: 0 <= c < |s.clients| ==> s.clients[c] == Resting
    requires forall l :: 0 <= l < |s.loops| ==> s.loops[l].pc == Idle && Items(s.loops[l]) == []
    ensures Settled(s)
  {
    hide LoopQueues, Locks, LoopLocks;
    assert s.workers[0] in s.workers;
    forall i | i in s.items
      ensures s.items[i].place.Done? || (s.items[i].place == InPool && Work(i) in s.wq)
    {
      assert Found(i, s.items[i], s.wq, s.workers, s.clients, s.loops);
    }
  }

  /**
   * No deadlock and no stuck worker: in every reachable state either some thread can take a step of its own, or
   * everything is settled - all items done and all workers asleep, or, after the exit message, all workers gone.
   */
  lemma Progress(s: State) returns (a: Action)
    requires Reachable(s) && |s.workers| > 0 && !Settled(s)
    ensures Internal(a) && Enabled(s, a)
  {
    ReachableInv(s);
    hide Inv, Enabled;
    if l :| 0 <= l < |s.loops| && s.loops[l].wqMutex != Free {
      a := LoopLockStep(s, l);
    } else if s.mutex != Free {
      a := GlobalLockStep(s);
    } else if t :| 0 <= t < |s.workers| && Awake(s.workers[t]) {
      a := WorkerStep(s, t);
    } else if c :| 0 <= c < |s.clients| && s.clients[c] != Resting {
      a := ClientStep(s, c);
    } else if l :| 0 <= l < |s.loops| && (s.loops[l].pc != Idle || Items(s.loops[l]) != []) {
      a := LoopStep(s, l);
    } else {
      NothingLeft(s);
    }
  }

  lemma ClientStep(s: State, c: nat) returns (a: Action)
    requires Inv(s) && s.mutex == Free && c < |s.clients| && s.clients[c] != Resting
    ensures Internal(a) && Enabled(s, a)
  {
    hide Requests, Queues, LoopQueues, Wakeups, Exit, Leaving, Early, LoopLocks;
    a := ClientLock(c);
  }

  // ----- the threads cannot go on for ever -----

  function Sum<T>(f: T -> nat, s: seq<T>): (r: nat) {
    if s == [] then 0 else f(s[0]) + Sum(f, s[1..])
  }

  lemma {:induction false} SumUpdate<T>(f: T -> nat, s: seq<T>, k: nat, x: T)
    requires k < |s|
    ensures Sum(f, s[k := x]) == Sum(f, s) - f(s[k]) + f(x)
  {
    if k > 0 {
      assert s[k := x][1..] == s[1..][k - 1 := x];
      SumUpdate(f, s[1..], k - 1, x);
    } else {
      assert s[k := x][1..] == s[1..];
    }
  }

  /** Steps a worker can still take, counting what its item goes on to cost at the loop. */
  function WorkerCost(w: Worker): nat {
    match w
    case Exited => 0
    case Waiting => 4
    case Checking => 5
    case Start => 6
    case Woken => 6
    case Reporting(_) => 12
    case Finished(_) => 13
    case Running(_) => 14
  }

  function ClientCost(c: Client): nat {
    if c.Resting? then 0 else if c.PostHold? then 13 else 14
  }

  function LoopCost(p: Loop): nat {
    |Items(p)| + (if p.asyncPending then 4 else 0) +
    match p.pc
    case Idle => 0
    case DoneHold => 1
    case DoneWant => 2
    case CancelPutHold(_) => 6
    case CancelPut(_) => 7
    case CancelBoth(_) => 8
    case CancelHold(_) => 9
    case CancelWant(_) => 10
  }

  function Cost(s: State): nat {
    Sum(WorkerCost, s.workers) + Sum(LoopCost, s.loops) + Sum(ClientCost, s.clients) + 10 * |s.wq|
  }

  lemma SignalCost(ws: seq<Worker>, t: nat)
    ensures Sum(WorkerCost, Signal(ws, t)) <= Sum(WorkerCost, ws) + 2
  {
    if t < |ws| && ws[t] == Waiting {
      SumUpdate(WorkerCost, ws, t, Woken);
    }
  }

  /** Every step that a thread takes on its own lowers the cost, so there are at most `Cost(s)` of them in a row. */
  lemma StepLowersCost(s: State, a: Action)
    requires Inv(s) && Enabled(s, a) && Internal(a)
    ensures Cost(Next(s, a)) < Cost(s)
  {
    hide Inv, Cost, Enabled;
    if a.CancelDecide? {
      DecideLowersCost(s, a.l);
    } else if a.WorkerCheck? {
      CheckLowersCost(s, a.t, a.wake);
    } else if CancelAction(a) || DoneAction(a) {
      LoopLowersCost(s, a);
    } else {
      ThreadLowersCost(s, a);
    }
  }

  lemma ThreadLowersCost(s: State, a: Action)
    requires Enabled(s, a) && !a.WorkerCheck? && Internal(a) && (ClientAction(a) || WorkerAction(a) || ReportAction(a))
    ensures Cost(Next(s, a)) < Cost(s)
  {
    hide Sum, Signal;
    var s' := Next(s, a);
    if ClientAction(a) {
      SumUpdate(ClientCost, s.clients, a.c, s'.clients[a.c]);
      if a.ClientPost? { SignalCost(s.workers, a.wake); }
    } else {
      SumUpdate(WorkerCost, s.workers, a.t, s'.workers[a.t]);
      if ReportAction(a) {
        var l := s.items[s.workers[a.t].w].loop;
        SumUpdate(LoopCost, s.loops, l, s'.loops[l]);
      }
    }
  }

  lemma CheckLowersCost(s: State, t: nat, wake: nat)
    requires Enabled(s, WorkerCheck(t, wake))
    ensures Cost(DoWorkerCheck(s, t, wake)) < Cost(s)
  {
    hide Sum;
    var s' := DoWorkerCheck(s, t, wake);
    if s.wq != [] && s.wq[0] == ExitMessage {
      SignalCost(s.workers, wake);
      SumUpdate(WorkerCost, Signal(s.workers, wake), t, Exited);
    } else {
      SumUpdate(WorkerCost, s.workers, t, s'.workers[t]);
    }
  }

  lemma DecideLowersCost(s: State, l: nat)
    requires Inv(s) && Enabled(s, CancelDecide(l))
    ensures Cost(DoCancelDecide(s, l)) < Cost(s)
  {
    hide Sum, Without, Requests, Locks, LoopLocks, Wakeups, Exit, Leaving, Early, Distinct;
    var p := s.loops[l];
    DistinctSplit(p.drain, p.wq);
    WithoutFacts(p.drain, p.pc.i);
    WithoutFacts(p.wq, p.pc.i);
    WithoutFacts(s.wq, Work(p.pc.i));
    SumUpdate(LoopCost, s.loops, l, DoCancelDecide(s, l).loops[l]);
  }

  lemma LoopLowersCost(s: State, a: Action)
    requires Inv(s) && Enabled(s, a) && (CancelAction(a) || DoneAction(a)) && Internal(a)
    ensures Cost(Next(s, a)) < Cost(s)
  {
    hide Sum, Inv, LoopCost;
    LoopCostFalls(s, a);
    SumUpdate(LoopCost, s.loops, a.l, Next(s, a).loops[a.l]);
  }

  lemma LoopCostFalls(s: State, a: Action)
    requires Inv(s) && Enabled(s, a) && (CancelAction(a) || DoneAction(a)) && Internal(a)
    ensures var s' := Next(s, a);
            && a.l < |s.loops| == |s'.loops| && LoopCost(s'.loops[a.l]) < LoopCost(s.loops[a.l])
  {
    hide Requests, Queues, Locks, LoopLocks, Wakeups, Exit, Leaving, Early, Distinct, Wakes, Without;
    assert LoopFits(s.items, a.l, s.loops[a.l]);
  }

  lemma {:induction false} RunLength(s: State, run: seq<Action>)
    requires Inv(s) && IsRun(s, run) && forall a :: a in run ==> Internal(a)
    ensures |run| + Cost(After(s, run)) <= Cost(s)
    decreases |run|
  {
    hide Inv, Enabled, Next, Cost;
    if run != [] {
      StepLowersCost(s, run[0]);
      StepKeepsInv(s, run[0]);
      RunLength(Next(s, run[0]), run[1..]);
    }
  }

  lemma {:induction false} RunJoin(s: State, a: seq<Action>, b: seq<Action>)
    requires IsRun(s, a) && IsRun(After(s, a), b)
    ensures IsRun(s, a + b) && After(s, a + b) == After(After(s, a), b)
    decreases |a|
  {
    hide Enabled, Next;
    if a == [] {
      assert a + b == b;
    } else {
      assert (a + b)[0] == a[0] && (a + b)[1..] == a[1..] + b;
      RunJoin(Next(s, a[0]), a[1..], b);
    }
  }

  lemma RunStaysReachable(s: State, run: seq<Action>)
    requires Reachable(s) && IsRun(s, run)
    ensures Reachable(After(s, run))
  {
    hide Enabled, Next, IsRun, After;
    var workers, loops, clients, before :|
      IsRun(Init(workers, loops, clients), before) && s == After(Init(workers, loops, clients), before);
    RunJoin(Init(workers, loops, clients), before, run);
  }

  lemma StepKeepsWorkers(s: State, a: Action)
    requires Enabled(s, a)
    ensures |Next(s, a).workers| == |s.workers|
  {
  }

  lemma {:induction false} RunKeepsWorkers(s: State, run: seq<Action>)
    requires IsRun(s, run)
    ensures |After(s, run).workers| == |s.workers|
    decreases |run|
  {
    hide Enabled, Next;
    if run != [] {
      StepKeepsWorkers(s, run[0]);
      RunKeepsWorkers(Next(s, run[0]), run[1..]);
    }
  }

  /**
   * The pool comes to rest after boundedly many steps of its own, and then everything is settled: every submitted item
   * is done, but for those posted behind an exit message.
   */
  lemma RestIsSettled(s: State, run: seq<Action>)
    requires Reachable(s) && |s.workers| > 0 && IsRun(s, run) && forall a :: a in run ==> Internal(a)
    requires forall a {:trigger Enabled(After(s, run), a)} :: Internal(a) ==> !Enabled(After(s, run), a)
    ensures |run| <= Cost(s) && Settled(After(s, run))
    ensures !After(s, run).exitPosted ==> forall i :: i in After(s, run).items ==> After(s, run).items[i].place.Done?
  {
    var end := After(s, run);
    ReachableInv(s);
    RunLength(s, run);
    RunStaysReachable(s, run);
    RunKeepsWorkers(s, run);
    if !Settled(end) {
      var a := Progress(end);
    }
    hide Inv, Enabled, Next, IsRun, After, Internal, Cost, Reachable;
  }
}
