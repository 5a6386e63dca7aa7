/** What holds after every interleaving of clients, workers, destructor and environment. */
module AsyncTaskRuns {
  import opened AsyncTaskProtocol
  import opened Options
  import opened OrderedQueueSafety
  import opened KeepAliveSafety

  ghost predicate Inv(s: State) {
    OrderedInv(s.ordered) && TasksInv(s.tasks, s.ready)
  }

  lemma {:induction false} InvAlong(s: State, run: seq<Action>)
    requires Inv(s) && Steps(s, run)
    ensures Inv(Exec(s, run))
    decreases |run|
  {
    if run != [] {
      OrderedStepKeepsInv(s, run[0]);
      TasksStepKeepsInv(s, run[0]);
      InvAlong(Next(s, run[0]), run[1..]);
    }
  }

  lemma ReachableInv(s: State)
    requires Reachable(s)
    ensures Inv(s)
  {
    assert Inv(INIT);
    var run :| Steps(INIT, run) && Exec(INIT, run) == s;
    InvAlong(INIT, run);
  }

  /** A client that holds the ordered mutex. */
  ghost predicate ClientInside(o: Ordered) {
    exists t :: t in o.clients && HeldByClient(o.clients[t])
  }

  /** No wake-up for a task is lost: with no client inside, a blocked worker has an empty queue. */
  lemma NoTaskWakeUpIsLost(s: State, i: nat)
    requires Reachable(s) && i < |s.ordered.workers|
    requires s.ordered.workers[i].Blocked? && !ClientInside(s.ordered)
    ensures s.ordered.queue == []
  {
    ReachableInv(s);
    var o := s.ordered;
    assert o.mutex.Some? && o.mutex.value.Client? ==> ClientHolds(o, o.mutex.value.t);
  }

  /** However many clients add, at most one worker is created, and queued tasks have one once the mutex is free. */
  lemma AtMostOneWorker(s: State)
    requires Reachable(s)
    ensures |s.ordered.workers| <= 1
    ensures s.ordered.thread == if s.ordered.workers == [] then None else Some(0)
    ensures s.ordered.mutex.None? && s.ordered.queue != [] ==> |s.ordered.workers| == 1
  {
    ReachableInv(s);
  }

  predicate ClientInOrdered(s: State, t: Thread) {
    t in s.ordered.clients && HeldByClient(s.ordered.clients[t])
  }

  predicate ClientInTasks(s: State, t: Thread) {
    t in s.tasks.clients && !s.tasks.clients[t].WantsTasks?
  }

  /** At most one thread is inside each critical section. */
  lemma MutualExclusion(s: State, t: Thread, u: Thread, i: nat)
    requires Reachable(s)
    ensures ClientInOrdered(s, t) && ClientInOrdered(s, u) ==> t == u
    ensures ClientInOrdered(s, t) && i < |s.ordered.workers| ==> !HeldByWorker(s.ordered.workers[i])
    ensures ClientInTasks(s, t) && ClientInTasks(s, u) ==> t == u
  {
    ReachableInv(s);
    assert ClientHolds(s.ordered, t) && ClientHolds(s.ordered, u) && WorkerHolds(s.ordered, i);
    assert PurgerHolds(s.tasks, t) && PurgerHolds(s.tasks, u);
  }

  /**
   * Conservation and order: the futures pushed are those finished, then the one in flight, then
   * the queue; the log is one call and return after the other, in that order, with at most one
   * call open. The queue is never read when it is empty.
   */
  lemma OrderedFuturesAreConserved(s: State)
    requires Reachable(s)
    ensures s.ordered.adds == s.ordered.finished + InFlight(s.ordered) + s.ordered.queue
    ensures |InFlight(s.ordered)| <= 1
    ensures s.ordered.log == RunLog(s.ordered.finished) + OpenCall(s.ordered)
    ensures forall i | 0 <= i < |s.ordered.workers| :: !s.ordered.workers[i].UndefinedFront?
  {
    ReachableInv(s);
  }

  /** Position 2k of a sequential log is the call of the k-th future, position 2k + 1 its return. */
  lemma {:induction false} RunLogIsSequential(fs: seq<Future>, k: nat)
    requires k < |fs|
    ensures |RunLog(fs)| == 2 * |fs|
    ensures RunLog(fs)[2 * k] == Called(fs[k]) && RunLog(fs)[2 * k + 1] == Returned(fs[k])
  {
    var n := |fs| - 1;
    if n > 0 {
      RunLogIsSequential(fs[..n], if k < n then k else 0);
    } else {
      assert fs[..n] == [];
    }
  }

  /** A worker that leaves holds no future, and what it never ran is the queue, a suffix of the adds. */
  lemma ExitLeavesExactlyTheQueue(s: State)
    requires Reachable(s) && |s.ordered.workers| == 1
    requires s.ordered.workers[0].Leaving? || s.ordered.workers[0].Exited?
    ensures s.ordered.shuttingDown
    ensures s.ordered.adds == s.ordered.finished + s.ordered.queue
    ensures s.ordered.log == RunLog(s.ordered.finished)
  {
    ReachableInv(s);
  }

  /** The keep-alive queue is a suffix of the async adds, and whatever was purged from it had become ready. */
  lemma KeepAliveQueueIsSuffix(s: State)
    requires Reachable(s)
    ensures s.tasks.adds == s.tasks.purged + s.tasks.queue
    ensures forall f | f in s.tasks.purged :: f in s.ready
  {
    ReachableInv(s);
  }

  /** Right after a client's push the queue is its future alone, or its head was unready when the purge ended. */
  lemma HeadWasUnreadyAfterAdd(s: State, t: Thread)
    requires Reachable(s) && t in s.tasks.clients && s.tasks.clients[t].Added?
    ensures
      var queue, f, seen := s.tasks.queue, s.tasks.clients[t].f, s.tasks.clients[t].seen;
      && queue != [] && queue[|queue| - 1] == f
      && (queue == [f] || queue[0] !in seen)
      && seen <= s.ready
  {
    ReachableInv(s);
    assert PurgeKnown(s.tasks, t, s.ready);
    var queue := s.tasks.queue;
    assert queue == queue[..|queue| - 1] + [queue[|queue| - 1]];
  }
}
