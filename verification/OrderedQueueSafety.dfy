/** What every step keeps of the ordered side: locks, conservation, wake-ups and shutdown. */
module OrderedQueueSafety {
  import opened AsyncTaskProtocol
  import opened Options

  /** There is no handle and no worker, or the handle refers to the only worker. */
  ghost predicate OneWorker(o: Ordered) {
    || (o.thread == None && o.workers == [])
    || (o.thread == Some(0) && |o.workers| == 1)
  }

  ghost predicate ClientHolds(o: Ordered, t: Thread) {
    o.mutex == Some(Client(t)) <==> t in o.clients && HeldByClient(o.clients[t])
  }

  ghost predicate WorkerHolds(o: Ordered, i: nat) {
    o.mutex == Some(Worker(i)) <==> i < |o.workers| && HeldByWorker(o.workers[i])
  }

  /** The mutex is held by exactly the thread whose program point says so. */
  ghost predicate MutexHeld(o: Ordered) {
    && (forall t :: ClientHolds(o, t))
    && (forall i :: WorkerHolds(o, i))
  }

  function InFlight(o: Ordered): seq<Future> {
    if |o.workers| == 1 && (o.workers[0].Popped? || o.workers[0].Calling? || o.workers[0].Running?)
    then [o.workers[0].f] else []
  }

  function OpenCall(o: Ordered): seq<Event> {
    if |o.workers| == 1 && o.workers[0].Running? then [Called(o.workers[0].f)] else []
  }

  /** The calls and returns of running these futures one after the other. */
  function RunLog(fs: seq<Future>): seq<Event> {
    if fs == [] then []
    else RunLog(fs[..|fs| - 1]) + [Called(fs[|fs| - 1]), Returned(fs[|fs| - 1])]
  }

  /** No future is lost, duplicated or reordered, and they run one at a time. */
  ghost predicate Conserved(o: Ordered) {
    && o.adds == o.finished + InFlight(o) + o.queue
    && o.log == RunLog(o.finished) + OpenCall(o)
  }

  /** A client that holds the mutex has pushed and not yet notified. */
  ghost predicate NotifyPending(o: Ordered) {
    && o.mutex.Some? && o.mutex.value.Client? && o.mutex.value.t in o.clients
    && (o.clients[o.mutex.value.t].Pushed? || o.clients[o.mutex.value.t].Spawned?)
  }

  /** A client that holds the mutex has pushed and not yet looked for a worker. */
  ghost predicate SpawnPending(o: Ordered) {
    NotifyPending(o) && o.clients[o.mutex.value.t].Pushed?
  }

  /** The worker neither blocks on a task that nobody will tell it of, nor pops when there is none. */
  ghost predicate WakeUpsKept(o: Ordered) {
    && (o.workers == [] && o.queue != [] ==> SpawnPending(o))
    && (|o.workers| == 1 ==>
      && (o.workers[0].Blocked? && o.queue != [] ==> NotifyPending(o))
      && (o.workers[0].ToBlock? ==> o.queue == [])
      && (o.workers[0].Deciding? ==> o.queue != [] || o.shuttingDown)
      && !o.workers[0].UndefinedFront?)
  }

  ghost predicate HasNotified(d: DtorPc) {
    d.AllNotified? || d.Joining? || d.Destroyed?
  }

  ghost predicate ShutdownTracked(o: Ordered) {
    && (o.shuttingDown <==> !o.dtor.NotStarted?)
    && (o.gapAtNotify ==> o.gapAtFlag && HasNotified(o.dtor))
    && (o.gapAtFlag ==> o.shuttingDown)
    && (o.dtor.Joining? ==> o.thread.Some?)
    && (|o.workers| == 1 ==>
      && (o.workers[0].Leaving? || o.workers[0].Exited? ==> o.shuttingDown)
      && (o.workers[0].ToBlock? && o.shuttingDown ==> o.gapAtFlag)
      && ((o.workers[0].ToBlock? || o.workers[0].Blocked?) && HasNotified(o.dtor) ==> o.gapAtNotify))
  }

  ghost predicate OrderedInv(o: Ordered) {
    OneWorker(o) && MutexHeld(o) && Conserved(o) && WakeUpsKept(o) && ShutdownTracked(o)
  }

  // ---- Clients ----

  lemma ClientKeepsMutex(o: Ordered, t: Thread, woken: nat)
    requires OneWorker(o) && MutexHeld(o) && ClientEnabled(o, t, woken)
    ensures OneWorker(ClientStep(o, t, woken)) && MutexHeld(ClientStep(o, t, woken))
  {
    var o' := ClientStep(o, t, woken);
    assert ClientHolds(o, t);
    forall u ensures ClientHolds(o', u) { assert ClientHolds(o, u); }
    forall i ensures WorkerHolds(o', i) { assert WorkerHolds(o, i); }
  }

  lemma ClientConserves(o: Ordered, t: Thread, woken: nat)
    requires OneWorker(o) && Conserved(o) && ClientEnabled(o, t, woken)
    ensures Conserved(ClientStep(o, t, woken))
  {
    if o.clients[t].Holding? {
      PushConserves(o, t, woken);
    } else {
      assert ClientStep(o, t, woken).queue == o.queue;
      NoneMovesInFlight(o, t, woken);
    }
  }

  lemma PushConserves(o: Ordered, t: Thread, woken: nat)
    requires Conserved(o) && ClientEnabled(o, t, woken) && o.clients[t].Holding?
    ensures Conserved(ClientStep(o, t, woken))
  {
    var f := o.clients[t].f;
    assert o.finished + InFlight(o) + (o.queue + [f]) == o.finished + InFlight(o) + o.queue + [f];
  }

  lemma NoneMovesInFlight(o: Ordered, t: Thread, woken: nat)
    requires OneWorker(o) && ClientEnabled(o, t, woken)
    ensures InFlight(ClientStep(o, t, woken)) == InFlight(o)
    ensures OpenCall(ClientStep(o, t, woken)) == OpenCall(o)
  {
  }

  lemma ClientKeepsWakeUps(o: Ordered, t: Thread, woken: nat)
    requires OneWorker(o) && MutexHeld(o) && WakeUpsKept(o) && ClientEnabled(o, t, woken)
    ensures WakeUpsKept(ClientStep(o, t, woken))
  {
    assert ClientHolds(o, t) && WorkerHolds(o, 0);
    if o.clients[t].Spawned? {
      NotifyKeepsWakeUps(o, t, woken);
    } else {
      OtherStepsKeepWakeUps(o, t, woken);
    }
  }

  /** After notify_one no worker is blocked, so nothing is pending any more. */
  lemma NotifyKeepsWakeUps(o: Ordered, t: Thread, woken: nat)
    requires OneWorker(o) && WakeUpsKept(o) && ClientEnabled(o, t, woken)
    requires o.clients[t].Spawned? && o.mutex == Some(Client(t))
    ensures WakeUpsKept(ClientStep(o, t, woken))
  {
  }

  lemma OtherStepsKeepWakeUps(o: Ordered, t: Thread, woken: nat)
    requires OneWorker(o) && WakeUpsKept(o) && ClientEnabled(o, t, woken) && !o.clients[t].Spawned?
    requires ClientHolds(o, t) && WorkerHolds(o, 0)
    ensures WakeUpsKept(ClientStep(o, t, woken))
  {
  }

  lemma ClientKeepsShutdown(o: Ordered, t: Thread, woken: nat)
    requires OneWorker(o) && ShutdownTracked(o) && ClientEnabled(o, t, woken)
    ensures ShutdownTracked(ClientStep(o, t, woken))
  {
  }

  // ---- Workers ----

  lemma WorkerKeepsMutex(o: Ordered, i: nat)
    requires OneWorker(o) && MutexHeld(o) && WorkerEnabled(o, i)
    ensures OneWorker(WorkerStep(o, i)) && MutexHeld(WorkerStep(o, i))
  {
    var o' := WorkerStep(o, i);
    if Waiting(o.workers[i]) { WaitingMovesMutex(o, i); } else { WorkingMovesMutex(o, i); }
    assert WorkerHolds(o, i);
    forall u ensures ClientHolds(o', u) { assert ClientHolds(o, u); }
    forall j ensures WorkerHolds(o', j) { assert WorkerHolds(o, j); }
  }

  /** A worker step takes a free mutex, keeps it, or gives it back, as the worker's program points say. */
  ghost predicate MutexMoved(o: Ordered, o': Ordered, i: nat) {
    && i < |o.workers| == |o'.workers|
    && o'.clients == o.clients && o'.thread == o.thread
    && (forall j | 0 <= j < |o.workers| && j != i :: o'.workers[j] == o.workers[j])
    && (HeldByWorker(o'.workers[i]) && !HeldByWorker(o.workers[i]) ==> o.mutex == None && o'.mutex == Some(Worker(i)))
    && (!HeldByWorker(o'.workers[i]) && HeldByWorker(o.workers[i]) ==> o'.mutex == None)
    && (HeldByWorker(o'.workers[i]) == HeldByWorker(o.workers[i]) ==> o'.mutex == o.mutex)
  }

  predicate Waiting(pc: WorkPc) {
    pc.WantsLock? || pc.Woken? || pc.Testing? || pc.ToBlock?
  }

  lemma WaitingMovesMutex(o: Ordered, i: nat)
    requires WorkerEnabled(o, i) && Waiting(o.workers[i])
    ensures MutexMoved(o, WorkerStep(o, i), i)
  {
  }

  lemma WorkingMovesMutex(o: Ordered, i: nat)
    requires WorkerEnabled(o, i) && !Waiting(o.workers[i])
    ensures MutexMoved(o, WorkerStep(o, i), i)
  {
  }

  lemma WorkerConserves(o: Ordered, i: nat)
    requires OneWorker(o) && Conserved(o) && WorkerEnabled(o, i)
    ensures Conserved(WorkerStep(o, i))
  {
    if o.workers[i].Deciding? {
      TakingConserves(o, i);
    } else if o.workers[i].Running? {
      FinishingConserves(o, i);
    } else {
      MovingConserves(o, i);
    }
  }

  lemma MovingConserves(o: Ordered, i: nat)
    requires OneWorker(o) && Conserved(o) && WorkerEnabled(o, i)
    requires !o.workers[i].Deciding? && !o.workers[i].Running?
    ensures Conserved(WorkerStep(o, i))
  {
    var o' := WorkerStep(o, i);
    if Waiting(o.workers[i]) { WaitingKeepsFutures(o, i); } else { MovingKeepsFutures(o, i); }
    assert RunLog(o.finished) + [] + OpenCall(o') == RunLog(o.finished) + OpenCall(o');
  }

  ghost predicate FuturesKept(o: Ordered, o': Ordered) {
    && o'.adds == o.adds && o'.queue == o.queue && o'.finished == o.finished
    && InFlight(o') == InFlight(o)
    && OpenCall(o) == [] && o'.log == o.log + OpenCall(o')
  }

  lemma WaitingKeepsFutures(o: Ordered, i: nat)
    requires OneWorker(o) && WorkerEnabled(o, i) && Waiting(o.workers[i])
    ensures FuturesKept(o, WorkerStep(o, i))
  {
  }

  lemma MovingKeepsFutures(o: Ordered, i: nat)
    requires OneWorker(o) && WorkerEnabled(o, i)
    requires !Waiting(o.workers[i]) && !o.workers[i].Deciding? && !o.workers[i].Running?
    ensures FuturesKept(o, WorkerStep(o, i))
  {
  }

  lemma TakingConserves(o: Ordered, i: nat)
    requires OneWorker(o) && Conserved(o) && WorkerEnabled(o, i) && o.workers[i].Deciding?
    ensures Conserved(WorkerStep(o, i))
  {
    var o' := WorkerStep(o, i);
    assert InFlight(o) == [] && OpenCall(o) == OpenCall(o') == [];
    if !o.shuttingDown && o.queue != [] {
      assert InFlight(o') + o'.queue == o.queue;
      assert o.finished + InFlight(o') + o'.queue == o.finished + (InFlight(o') + o'.queue);
    }
  }

  lemma FinishingConserves(o: Ordered, i: nat)
    requires OneWorker(o) && Conserved(o) && WorkerEnabled(o, i) && o.workers[i].Running?
    ensures Conserved(WorkerStep(o, i))
  {
    FinishingStep(o, i);
    FinishedMoves(o.adds, o.finished, o.workers[i].f, o.queue, o.log);
  }

  lemma FinishingStep(o: Ordered, i: nat)
    requires OneWorker(o) && WorkerEnabled(o, i) && o.workers[i].Running?
    ensures
      var o', f := WorkerStep(o, i), o.workers[i].f;
      && o'.adds == o.adds && o'.finished == o.finished + [f] && o'.queue == o.queue
      && o'.log == o.log + [Returned(f)]
      && InFlight(o) == [f] && InFlight(o') == [] && OpenCall(o) == [Called(f)] && OpenCall(o') == []
  {
  }

  lemma FinishedMoves(adds: seq<Future>, finished: seq<Future>, f: Future, queue: seq<Future>, log: seq<Event>)
    requires adds == finished + [f] + queue && log == RunLog(finished) + [Called(f)]
    ensures adds == (finished + [f]) + [] + queue
    ensures log + [Returned(f)] == RunLog(finished + [f]) + []
  {
    RunLogOneMore(finished, f);
  }

  lemma RunLogOneMore(fs: seq<Future>, f: Future)
    ensures RunLog(fs + [f]) == RunLog(fs) + [Called(f), Returned(f)]
  {
    assert (fs + [f])[..|fs|] == fs;
  }

  lemma WorkerKeepsWakeUps(o: Ordered, i: nat)
    requires OneWorker(o) && MutexHeld(o) && WakeUpsKept(o) && WorkerEnabled(o, i)
    ensures WakeUpsKept(WorkerStep(o, i))
  {
    assert WorkerHolds(o, i);
  }

  lemma WorkerKeepsShutdown(o: Ordered, i: nat)
    requires OneWorker(o) && ShutdownTracked(o) && WorkerEnabled(o, i)
    ensures ShutdownTracked(WorkerStep(o, i))
  {
  }

  // ---- The destructor ----

  lemma DtorKeepsOrderedInv(o: Ordered)
    requires OrderedInv(o) && DtorEnabled(o)
    ensures OrderedInv(DtorStep(o))
  {
    DtorKeepsMutex(o);
    DtorConserves(o);
    DtorKeepsWakeUps(o);
    DtorKeepsShutdown(o);
  }

  lemma DtorKeepsMutex(o: Ordered)
    requires OneWorker(o) && MutexHeld(o) && DtorEnabled(o)
    ensures OneWorker(DtorStep(o)) && MutexHeld(DtorStep(o))
  {
    var o' := DtorStep(o);
    forall u ensures ClientHolds(o', u) { assert ClientHolds(o, u); }
    forall j ensures WorkerHolds(o', j) { assert WorkerHolds(o, j); }
  }

  lemma DtorConserves(o: Ordered)
    requires OneWorker(o) && Conserved(o) && DtorEnabled(o)
    ensures Conserved(DtorStep(o))
  {
    assert InFlight(DtorStep(o)) == InFlight(o) && OpenCall(DtorStep(o)) == OpenCall(o);
  }

  lemma DtorKeepsWakeUps(o: Ordered)
    requires OneWorker(o) && WakeUpsKept(o) && DtorEnabled(o)
    ensures WakeUpsKept(DtorStep(o))
  {
  }

  lemma DtorKeepsShutdown(o: Ordered)
    requires OneWorker(o) && ShutdownTracked(o) && DtorEnabled(o)
    ensures ShutdownTracked(DtorStep(o))
  {
  }

  // ---- Every step ----

  lemma OrderedStepKeepsInv(s: State, a: Action)
    requires OrderedInv(s.ordered) && Enabled(s, a)
    ensures OrderedInv(OrderedNext(s, a))
  {
    var o := s.ordered;
    match a
    case AddOrdered(t, woken) =>
      ClientKeepsMutex(o, t, woken);
      ClientConserves(o, t, woken);
      ClientKeepsWakeUps(o, t, woken);
      ClientKeepsShutdown(o, t, woken);
    case Work(i) =>
      WorkerKeepsMutex(o, i);
      WorkerConserves(o, i);
      WorkerKeepsWakeUps(o, i);
      WorkerKeepsShutdown(o, i);
    case Destroy => DtorKeepsOrderedInv(o);
    case _ =>
      var o' := OrderedNext(s, a);
      forall u ensures ClientHolds(o', u) { assert ClientHolds(o, u); }
      forall j ensures WorkerHolds(o', j) { assert WorkerHolds(o, j); }
  }
}
