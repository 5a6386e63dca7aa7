/**
 * The asynchronous task queue as a protocol: client threads that call `add`, the worker threads
 * they create, the destructor, and an environment that makes futures ready and wakes blocked
 * threads for no reason. A step is one action of one thread between two points at which another
 * thread can interfere.
 *
 * `add` works on one of two sides, which share no lock and no data: the ordered queue for a
 * future that is deferred when it is looked at, and the keep-alive queue for every other one.
 */
module AsyncTaskProtocol {
  import opened Options

  type Future = nat
  type Thread = nat

  // ---- The ordered side ----

  /** Where a client thread is in `add` of a deferred future. */
  datatype OrderedPc =
    | Wanting(f: Future)      // about to lock orderedTasksMutex_
    | Holding(f: Future)      // about to push
    | Pushed(f: Future)       // about to create the worker if there is none
    | Spawned(f: Future)      // about to notify
    | Notified                // about to unlock

  /** Where a worker thread is in `executeTask`. */
  datatype WorkPc =
    | WantsLock               // about to lock orderedTasksMutex_
    | Testing                 // lock held, about to evaluate the wait predicate
    | ToBlock                 // lock held, predicate was false, about to unlock and block in one step
    | Blocked
    | Woken                   // about to lock again
    | Deciding                // lock held, predicate was true, about to test shuttingDown_
    | Popped(f: Future)       // lock held, front taken, about to unlock
    | Calling(f: Future)      // about to call get
    | Running(f: Future)      // inside get
    | Leaving                 // lock held, left the loop, about to unlock
    | Exited
    | UndefinedFront          // took the front of an empty queue

  datatype DtorPc = NotStarted | FlagSet | AllNotified | Joining | Destroyed

  datatype Holder = Client(t: Thread) | Worker(i: nat)

  datatype Event = Called(f: Future) | Returned(f: Future)

  datatype Ordered = Ordered(
    clients: map<Thread, OrderedPc>,
    workers: seq<WorkPc>,              // all worker threads ever created
    thread: Option<nat>,               // the handle: which of them, if any
    mutex: Option<Holder>,
    queue: seq<Future>,
    shuttingDown: bool,
    dtor: DtorPc,
    // history
    adds: seq<Future>,                 // the futures pushed
    finished: seq<Future>,             // the futures whose get has returned to a worker
    log: seq<Event>,                   // the get calls and returns of the workers
    gapAtFlag: bool,                   // shuttingDown_ was written while a worker was at ToBlock
    gapAtNotify: bool)                 // notify_all was called while a worker was at ToBlock

  predicate HeldByClient(pc: OrderedPc) {
    !pc.Wanting?
  }

  predicate HeldByWorker(pc: WorkPc) {
    pc.Testing? || pc.ToBlock? || pc.Deciding? || pc.Popped? || pc.Leaving? || pc.UndefinedFront?
  }

  predicate AnyBlocked(workers: seq<WorkPc>) {
    exists i | 0 <= i < |workers| :: workers[i].Blocked?
  }

  predicate AnyAtGap(workers: seq<WorkPc>) {
    exists i | 0 <= i < |workers| :: workers[i].ToBlock?
  }

  predicate ClientEnabled(o: Ordered, t: Thread, woken: nat) {
    && t in o.clients
    && (o.clients[t].Wanting? ==> o.mutex.None?)
    && (o.clients[t].Spawned? && AnyBlocked(o.workers) ==> woken < |o.workers| && o.workers[woken].Blocked?)
  }

  /** One step of `add`. Creating a worker stores its handle; notify_one wakes `woken` if any worker is blocked. */
  function ClientStep(o: Ordered, t: Thread, woken: nat): Ordered
    requires ClientEnabled(o, t, woken)
  {
    match o.clients[t]
    case Wanting(f) => o.(mutex := Some(Client(t)), clients := o.clients[t := Holding(f)])
    case Holding(f) => o.(queue := o.queue + [f], adds := o.adds + [f], clients := o.clients[t := Pushed(f)])
    case Pushed(f) =>
      if o.thread.None? then
        o.(thread := Some(|o.workers|), workers := o.workers + [WantsLock], clients := o.clients[t := Spawned(f)])
      else o.(clients := o.clients[t := Spawned(f)])
    case Spawned(f) =>
      o.(workers := if AnyBlocked(o.workers) then o.workers[woken := WorkPc.Woken] else o.workers,
         clients := o.clients[t := Notified])
    case Notified => o.(mutex := None, clients := o.clients - {t})
  }

  predicate WorkerEnabled(o: Ordered, i: nat) {
    && i < |o.workers|
    && !o.workers[i].Blocked? && !o.workers[i].Exited? && !o.workers[i].UndefinedFront?
    && (o.workers[i].WantsLock? || o.workers[i].Woken? ==> o.mutex.None?)
  }

  function WorkerStep(o: Ordered, i: nat): Ordered
    requires WorkerEnabled(o, i)
  {
    match o.workers[i]
    case WantsLock => o.(mutex := Some(Worker(i)), workers := o.workers[i := Testing])
    case Woken => o.(mutex := Some(Worker(i)), workers := o.workers[i := Testing])
    case Testing => o.(workers := o.workers[i := if |o.queue| > 0 || o.shuttingDown then Deciding else ToBlock])
    case ToBlock => o.(mutex := None, workers := o.workers[i := Blocked])
    case Deciding =>
      if o.shuttingDown then o.(workers := o.workers[i := Leaving])
      else if o.queue == [] then o.(workers := o.workers[i := UndefinedFront])
      else o.(workers := o.workers[i := Popped(o.queue[0])], queue := o.queue[1..])
    case Popped(f) => o.(mutex := None, workers := o.workers[i := Calling(f)])
    case Calling(f) => o.(log := o.log + [Called(f)], workers := o.workers[i := Running(f)])
    case Running(f) =>
      o.(log := o.log + [Returned(f)], finished := o.finished + [f], workers := o.workers[i := WantsLock])
    case Leaving => o.(mutex := None, workers := o.workers[i := Exited])
  }

  predicate DtorEnabled(o: Ordered) {
    && !o.dtor.Destroyed?
    && (o.dtor.Joining? ==> o.thread.Some? && o.thread.value < |o.workers| && o.workers[o.thread.value].Exited?)
  }

  function WakeAll(workers: seq<WorkPc>): seq<WorkPc> {
    seq(|workers|, i requires 0 <= i < |workers| => if workers[i].Blocked? then WorkPc.Woken else workers[i])
  }

  /** The destructor writes the flag and notifies without the mutex, then joins the worker if there is one. */
  function DtorStep(o: Ordered): Ordered
    requires DtorEnabled(o)
  {
    match o.dtor
    case NotStarted => o.(shuttingDown := true, dtor := FlagSet, gapAtFlag := AnyAtGap(o.workers))
    case FlagSet => o.(workers := WakeAll(o.workers), dtor := AllNotified, gapAtNotify := AnyAtGap(o.workers))
    case AllNotified => o.(dtor := if o.thread.None? then Destroyed else Joining)
    case Joining => o.(dtor := Destroyed)
  }

  // ---- The keep-alive side ----

  /** Where a client thread is in `add` of any other future. */
  datatype TasksPc =
    | WantsTasks(f: Future)                 // about to lock tasksMutex_
    | Purging(f: Future)                    // at the head of the erase loop
    | Purged(f: Future, seen: set<Future>)  // loop left; `seen` were the ready futures at its last check
    | Added(f: Future, seen: set<Future>)   // pushed, about to unlock

  datatype Tasks = Tasks(
    clients: map<Thread, TasksPc>,
    mutex: Option<Thread>,
    queue: seq<Future>,
    // history
    adds: seq<Future>,                      // the futures pushed
    purged: seq<Future>)                    // the futures erased

  predicate PurgerEnabled(k: Tasks, t: Thread) {
    t in k.clients && (k.clients[t].WantsTasks? ==> k.mutex.None?)
  }

  function PurgerStep(k: Tasks, t: Thread, ready: set<Future>): Tasks
    requires PurgerEnabled(k, t)
  {
    match k.clients[t]
    case WantsTasks(f) => k.(mutex := Some(t), clients := k.clients[t := Purging(f)])
    case Purging(f) =>
      if k.queue != [] && k.queue[0] in ready then k.(queue := k.queue[1..], purged := k.purged + [k.queue[0]])
      else k.(clients := k.clients[t := Purged(f, ready)])
    case Purged(f, seen) => k.(queue := k.queue + [f], adds := k.adds + [f], clients := k.clients[t := Added(f, seen)])
    case Added(f, seen) => k.(mutex := None, clients := k.clients - {t})
  }

  // ---- The whole protocol ----

  datatype State = State(ordered: Ordered, tasks: Tasks, ready: set<Future>)

  const INIT_ORDERED := Ordered(map[], [], None, None, [], false, NotStarted, [], [], [], false, false)
  const INIT_TASKS := Tasks(map[], None, [], [], [])
  const INIT := State(INIT_ORDERED, INIT_TASKS, {})

  datatype Action =
    | StartAdd(t: Thread, f: Future, isDeferred: bool)   // enter add, with the answer of wait_until
    | AddOrdered(t: Thread, woken: nat)
    | AddAsync(t: Thread)
    | Work(i: nat)
    | SpuriousWake(i: nat)
    | BecomeReady(f: Future)
    | Destroy

  predicate Enabled(s: State, a: Action) {
    match a
    case StartAdd(t, f, isDeferred) =>
      t !in s.ordered.clients && t !in s.tasks.clients && (isDeferred ==> f !in s.ready)
    case AddOrdered(t, woken) => ClientEnabled(s.ordered, t, woken)
    case AddAsync(t) => PurgerEnabled(s.tasks, t)
    case Work(i) => WorkerEnabled(s.ordered, i)
    case SpuriousWake(i) => i < |s.ordered.workers| && s.ordered.workers[i].Blocked?
    case BecomeReady(f) => true
    case Destroy => DtorEnabled(s.ordered)
  }

  function OrderedNext(s: State, a: Action): Ordered
    requires Enabled(s, a)
  {
    var o := s.ordered;
    match a
    case StartAdd(t, f, isDeferred) => if isDeferred then o.(clients := o.clients[t := Wanting(f)]) else o
    case AddOrdered(t, woken) => ClientStep(o, t, woken)
    case Work(i) => WorkerStep(o, i)
    case SpuriousWake(i) => o.(workers := o.workers[i := WorkPc.Woken])
    case Destroy => DtorStep(o)
    case AddAsync(_) => o
    case BecomeReady(_) => o
  }

  function TasksNext(s: State, a: Action): Tasks
    requires Enabled(s, a)
  {
    var k := s.tasks;
    match a
    case StartAdd(t, f, isDeferred) => if isDeferred then k else k.(clients := k.clients[t := WantsTasks(f)])
    case AddAsync(t) => PurgerStep(k, t, s.ready)
    case _ => k
  }

  /** Futures become ready by themselves, and when a worker's get returns; they stay ready. */
  function ReadyNext(s: State, a: Action): set<Future>
    requires Enabled(s, a)
  {
    match a
    case BecomeReady(f) => s.ready + {f}
    case Work(i) =>
      if s.ordered.workers[i].Running? then s.ready + {s.ordered.workers[i].f} else s.ready
    case _ => s.ready
  }

  function Next(s: State, a: Action): State
    requires Enabled(s, a)
  {
    State(OrderedNext(s, a), TasksNext(s, a), ReadyNext(s, a))
  }

  predicate Steps(s: State, run: seq<Action>)
    decreases |run|
  {
    run == [] || (Enabled(s, run[0]) && Steps(Next(s, run[0]), run[1..]))
  }

  function Exec(s: State, run: seq<Action>): State
    requires Steps(s, run)
    decreases |run|
  {
    if run == [] then s else Exec(Next(s, run[0]), run[1..])
  }

  ghost predicate Reachable(s: State) {
    exists run :: Steps(INIT, run) && Exec(INIT, run) == s
  }
}
