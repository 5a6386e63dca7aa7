/** Progress of the worker: it drains the ordered queue, and it leaves when told to shut down. */
module AsyncTaskProgress {
  import opened AsyncTaskProtocol
  import opened OrderedQueueSafety
  import opened KeepAliveSafety
  import opened AsyncTaskRuns

  function WorkSteps(run: seq<Action>): nat {
    if run == [] then 0 else (if run[0].Work? then 1 else 0) + WorkSteps(run[1..])
  }

  // ---- Steps without clients ----

  lemma OrderedStepWithoutClients(s: State, a: Action)
    requires Enabled(s, a) && (a.Work? || a.SpuriousWake? || a.BecomeReady? || a.Destroy?)
    ensures
      var o, o' := s.ordered, OrderedNext(s, a);
      && o'.clients == o.clients && o'.adds == o.adds && |o'.workers| == |o.workers|
      && (HasNotified(o.dtor) ==> HasNotified(o'.dtor))
      && (!a.Destroy? ==> o'.shuttingDown == o.shuttingDown)
      && (HasNotified(o.dtor) && !a.Work? && !a.SpuriousWake? ==> o'.workers == o.workers)
  {
    match a
    case Work(i) => WorkWithoutClients(s.ordered, i);
    case _ =>
  }

  lemma WorkWithoutClients(o: Ordered, i: nat)
    requires WorkerEnabled(o, i)
    ensures
      var o' := WorkerStep(o, i);
      && o'.clients == o.clients && o'.adds == o.adds && |o'.workers| == |o.workers|
      && o'.dtor == o.dtor && o'.shuttingDown == o.shuttingDown
  {
  }

  // ---- Draining ----

  /** No client adds any more: only the worker and the environment move, and nobody shuts down. */
  predicate WorkerAndEnvironment(run: seq<Action>) {
    forall a | a in run :: a.Work? || a.SpuriousWake? || a.BecomeReady?
  }

  ghost predicate Calm(s: State) {
    Inv(s) && !ClientInside(s.ordered) && !s.ordered.shuttingDown
  }

  predicate Drained(o: Ordered) {
    o.queue == [] && InFlight(o) == []
  }

  function Rank(pc: WorkPc): nat {
    match pc
    case Popped(_) => 6
    case Calling(_) => 5
    case Running(_) => 4
    case WantsLock => 3
    case Woken => 3
    case Testing => 2
    case Deciding => 1
    case _ => 0
  }

  /** Queue length first, then how far the worker is from its next pop. */
  function DrainMeasure(o: Ordered): nat {
    if |o.workers| != 1 then 0 else 8 * |o.queue| + Rank(o.workers[0])
  }

  /** While something is queued or in flight the worker can move, and it is not blocked. */
  lemma WorkerCanMove(s: State)
    requires Calm(s) && !Drained(s.ordered)
    ensures |s.ordered.workers| == 1 && Enabled(s, Work(0))
    ensures !s.ordered.workers[0].Blocked?
    ensures DrainMeasure(s.ordered) > 0
  {
    var o := s.ordered;
    assert o.mutex.Some? && o.mutex.value.Client? ==> ClientHolds(o, o.mutex.value.t);
    assert o.mutex.Some? && o.mutex.value.Worker? ==> WorkerHolds(o, o.mutex.value.i);
  }

  lemma CalmStays(s: State, a: Action)
    requires Calm(s) && Enabled(s, a) && (a.Work? || a.SpuriousWake? || a.BecomeReady?)
    ensures Calm(Next(s, a)) && Next(s, a).ordered.adds == s.ordered.adds
  {
    OrderedStepWithoutClients(s, a);
    assert OrderedInv(OrderedNext(s, a)) by { OrderedStepKeepsInv(s, a); }
    assert TasksInv(TasksNext(s, a), ReadyNext(s, a)) by { TasksStepKeepsInv(s, a); }
  }

  lemma WorkLowersMeasure(o: Ordered)
    requires OneWorker(o) && WakeUpsKept(o) && ShutdownTracked(o)
    requires !o.shuttingDown && !Drained(o) && WorkerEnabled(o, 0)
    ensures DrainMeasure(WorkerStep(o, 0)) < DrainMeasure(o)
  {
  }

  /** Every worker step before the queue is drained lowers the measure, and no step of the environment raises it. */
  lemma DrainMeasureFalls(s: State, a: Action)
    requires Calm(s) && !Drained(s.ordered) && Enabled(s, a)
    requires a.Work? || a.SpuriousWake? || a.BecomeReady?
    ensures Calm(Next(s, a)) && Next(s, a).ordered.adds == s.ordered.adds
    ensures a.Work? ==> DrainMeasure(Next(s, a).ordered) < DrainMeasure(s.ordered)
    ensures !a.Work? ==> DrainMeasure(Next(s, a).ordered) == DrainMeasure(s.ordered)
  {
    CalmStays(s, a);
    WorkerCanMove(s);
    if a.Work? {
      WorkLowersMeasure(s.ordered);
    }
  }

  lemma DrainedStaysDrained(s: State, a: Action)
    requires Calm(s) && Drained(s.ordered) && Enabled(s, a)
    requires a.Work? || a.SpuriousWake? || a.BecomeReady?
    ensures Calm(Next(s, a)) && Next(s, a).ordered.adds == s.ordered.adds
    ensures Drained(Next(s, a).ordered)
  {
    CalmStays(s, a);
    if a.Work? {
      IdleWorkStaysDrained(s.ordered);
    }
  }

  lemma IdleWorkStaysDrained(o: Ordered)
    requires OneWorker(o) && WakeUpsKept(o) && !o.shuttingDown && Drained(o) && WorkerEnabled(o, 0)
    ensures Drained(WorkerStep(o, 0))
  {
  }

  /**
   * Without further adds, every run in which the worker takes as many steps as the measure says
   * has run every future that was added, in order, whatever the environment does in between.
   */
  lemma {:induction false} WorkerDrainsTheQueue(s: State, run: seq<Action>)
    requires Calm(s) && Steps(s, run) && WorkerAndEnvironment(run)
    requires WorkSteps(run) >= DrainMeasure(s.ordered) || Drained(s.ordered)
    ensures Drained(Exec(s, run).ordered)
    ensures Exec(s, run).ordered.finished == s.ordered.adds
    decreases |run|
  {
    if run == [] {
      if !Drained(s.ordered) {
        WorkerCanMove(s);
      }
      assert s.ordered.adds == s.ordered.finished + [] + [];
    } else {
      if Drained(s.ordered) {
        DrainedStaysDrained(s, run[0]);
      } else {
        DrainMeasureFalls(s, run[0]);
      }
      assert forall a | a in run[1..] :: a in run;
      WorkerDrainsTheQueue(Next(s, run[0]), run[1..]);
    }
  }

  // ---- Shutting down ----

  /** The destructor is joining, or about to find out that there is nothing to join. */
  ghost predicate Closing(s: State) {
    Inv(s) && !ClientInside(s.ordered) && HasNotified(s.ordered.dtor) && |s.ordered.workers| == 1
  }

  /** No client adds any more; the destructor may move as well. */
  predicate NoClients(run: seq<Action>) {
    forall a | a in run :: a.Work? || a.SpuriousWake? || a.BecomeReady? || a.Destroy?
  }

  /** How many steps the worker is from its exit once the flag is set. */
  function ExitRank(pc: WorkPc): nat {
    match pc
    case Popped(_) => 7
    case Calling(_) => 6
    case Running(_) => 5
    case WantsLock => 4
    case Woken => 4
    case Testing => 3
    case Deciding => 2
    case Leaving => 1
    case _ => 0
  }

  predicate Stuck(pc: WorkPc) {
    pc.ToBlock? || pc.Blocked?
  }

  /** Steps without clients keep a closing state closing. */
  lemma ClosingStays(s: State, a: Action)
    requires Closing(s) && Enabled(s, a)
    requires a.Work? || a.SpuriousWake? || a.BecomeReady? || a.Destroy?
    ensures Closing(Next(s, a)) && Next(s, a).ordered.adds == s.ordered.adds
    ensures !a.Work? && !a.SpuriousWake? ==> Next(s, a).ordered.workers == s.ordered.workers
  {
    OrderedStepWithoutClients(s, a);
    assert OrderedInv(OrderedNext(s, a)) by { OrderedStepKeepsInv(s, a); }
    assert TasksInv(TasksNext(s, a), ReadyNext(s, a)) by { TasksStepKeepsInv(s, a); }
  }

  lemma ExitRankFalls(s: State)
    requires Closing(s) && !Stuck(s.ordered.workers[0]) && Enabled(s, Work(0))
    ensures
      var pc, pc' := s.ordered.workers[0], WorkerStep(s.ordered, 0).workers[0];
      !Stuck(pc') && ExitRank(pc') == ExitRank(pc) - 1
  {
    assert s.ordered.shuttingDown;
  }

  lemma WorkerCanLeave(s: State)
    requires Closing(s) && !Stuck(s.ordered.workers[0]) && !s.ordered.workers[0].Exited?
    ensures Enabled(s, Work(0))
  {
    var o := s.ordered;
    assert o.mutex.Some? && o.mutex.value.Client? ==> ClientHolds(o, o.mutex.value.t);
    assert o.mutex.Some? && o.mutex.value.Worker? ==> WorkerHolds(o, o.mutex.value.i);
  }

  /** The destructor has returned, or needs at most two more steps of its own, which nothing holds up. */
  predicate DestructorReturns(s: State) {
    s.ordered.dtor.Destroyed? || (Enabled(s, Destroy) &&
      var next := Next(s, Destroy);
      next.ordered.dtor.Destroyed? || (Enabled(next, Destroy) && Next(next, Destroy).ordered.dtor.Destroyed?))
  }

  /**
   * After notify_all, a worker that is neither blocked nor about to block exits in at most seven
   * of its own steps, in every run; then the join returns, and what it never ran is the queue.
   */
  lemma {:induction false} WorkerExits(s: State, run: seq<Action>)
    requires Closing(s) && !Stuck(s.ordered.workers[0])
    requires Steps(s, run) && NoClients(run) && WorkSteps(run) >= ExitRank(s.ordered.workers[0])
    ensures ExitRank(s.ordered.workers[0]) <= 7
    ensures
      var e := Exec(s, run);
      && e.ordered.workers == [Exited]
      && DestructorReturns(e)
      && s.ordered.adds == e.ordered.finished + e.ordered.queue
    decreases |run|
  {
    if run == [] {
      assert s.ordered.workers == [Exited];
    } else {
      assert run[0] in run;
      ClosingStays(s, run[0]);
      if run[0].Work? {
        ExitRankFalls(s);
      }
      assert forall a | a in run[1..] :: a in run;
      WorkerExits(Next(s, run[0]), run[1..]);
    }
  }

  /** Nothing but a spurious wake-up moves a blocked worker after notify_all: the join waits for ever. */
  lemma {:induction false} BlockedWorkerStays(s: State, run: seq<Action>)
    requires Closing(s) && s.ordered.workers[0].Blocked? && Steps(s, run) && NoClients(run)
    requires forall a | a in run :: !a.SpuriousWake?
    ensures Closing(Exec(s, run)) && Exec(s, run).ordered.workers[0].Blocked?
    ensures !Exec(s, run).ordered.dtor.Destroyed? || s.ordered.dtor.Destroyed?
    decreases |run|
  {
    if run != [] {
      assert run[0] in run;
      ClosingStays(s, run[0]);
      assert forall a | a in run[1..] :: a in run;
      BlockedWorkerStays(Next(s, run[0]), run[1..]);
    }
  }

  /** A spurious wake-up is always possible then; after it every run with four worker steps ends the wait. */
  lemma SpuriousWakeRescues(s: State, run: seq<Action>)
    requires Closing(s) && s.ordered.workers[0].Blocked?
    requires Steps(Next(s, SpuriousWake(0)), run) && NoClients(run) && WorkSteps(run) >= 4
    ensures
      var e := Exec(Next(s, SpuriousWake(0)), run);
      e.ordered.workers == [Exited] && DestructorReturns(e)
  {
    ClosingStays(s, SpuriousWake(0));
    WorkerExits(Next(s, SpuriousWake(0)), run);
  }

  /** A run of the worker alone, for as long as it can move. */
  function WorkerAlone(s: State, n: nat): State
    decreases n
  {
    if n == 0 || !Enabled(s, Work(0)) then s else WorkerAlone(Next(s, Work(0)), n - 1)
  }

  lemma {:induction false} AloneExits(s: State, n: nat)
    requires Closing(s) && !Stuck(s.ordered.workers[0]) && n >= ExitRank(s.ordered.workers[0])
    ensures WorkerAlone(s, n).ordered.workers == [Exited]
    decreases n
  {
    if s.ordered.workers[0].Exited? {
      assert s.ordered.workers == [Exited];
    } else {
      WorkerCanLeave(s);
      ClosingStays(s, Work(0));
      ExitRankFalls(s);
      AloneExits(Next(s, Work(0)), n - 1);
    }
  }

  lemma AloneBlocks(s: State, n: nat)
    requires Closing(s) && s.ordered.workers[0].ToBlock?
    ensures WorkerAlone(s, n).ordered.workers == if n == 0 then [ToBlock] else [Blocked]
  {
    if n > 0 {
      var blocked := Next(s, Work(0));
      assert blocked.ordered.workers[0].Blocked? && !Enabled(blocked, Work(0));
      assert WorkerAlone(blocked, n - 1) == blocked;
    }
  }

  /** The destructor has set the flag and is about to call notify_all, with no client inside. */
  ghost predicate AboutToNotify(s: State) {
    && Reachable(s) && !ClientInside(s.ordered)
    && s.ordered.dtor.FlagSet? && |s.ordered.workers| == 1
  }

  lemma NotifiedIsClosing(s: State)
    requires AboutToNotify(s)
    ensures Closing(Next(s, Destroy)) && Next(s, Destroy).ordered.adds == s.ordered.adds
    ensures Stuck(Next(s, Destroy).ordered.workers[0]) <==> s.ordered.workers[0].ToBlock?
    ensures s.ordered.workers[0].ToBlock? ==> Next(s, Destroy).ordered.workers[0].ToBlock? && s.ordered.gapAtFlag
  {
    ReachableInv(s);
    OrderedStepKeepsInv(s, Destroy);
    TasksStepKeepsInv(s, Destroy);
    assert Next(s, Destroy).ordered.clients == s.ordered.clients;
  }

  /**
   * Exactly when shutting down works: the worker exits by its own steps after notify_all if and
   * only if notify_all does not fall between its test of the predicate and its block. Otherwise
   * it ends up blocked with nobody left to wake it.
   */
  lemma WorkerExitsIffNotNotifiedInTheGap(s: State)
    requires AboutToNotify(s)
    ensures (exists n: nat :: WorkerAlone(Next(s, Destroy), n).ordered.workers == [Exited])
       <==> !s.ordered.workers[0].ToBlock?
    ensures !s.ordered.workers[0].ToBlock? ==> WorkerAlone(Next(s, Destroy), 7).ordered.workers == [Exited]
    ensures s.ordered.workers[0].ToBlock? ==> WorkerAlone(Next(s, Destroy), 1).ordered.workers == [Blocked]
  {
    NotifiedIsClosing(s);
    var s' := Next(s, Destroy);
    if s.ordered.workers[0].ToBlock? {
      forall n: nat ensures WorkerAlone(s', n).ordered.workers != [Exited] {
        AloneBlocks(s', n);
      }
      assert WorkerAlone(Next(s', Work(0)), 0) == Next(s', Work(0));
    } else {
      AloneExits(s', 7);
    }
  }

  /**
   * When the flag was not written between a test and its block, notify_all finds the worker
   * outside that gap: in every run without clients it exits within seven of its own steps, and
   * the destructor returns.
   */
  lemma AtomicFlagWriteSuffices(s: State, run: seq<Action>)
    requires AboutToNotify(s) && !s.ordered.gapAtFlag
    requires Steps(Next(s, Destroy), run) && NoClients(run) && WorkSteps(run) >= 7
    ensures
      var e := Exec(Next(s, Destroy), run);
      && e.ordered.workers == [Exited]
      && DestructorReturns(e)
      && s.ordered.adds == e.ordered.finished + e.ordered.queue
  {
    NotifiedIsClosing(s);
    WorkerExits(Next(s, Destroy), run);
  }
}
