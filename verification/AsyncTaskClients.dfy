/** Clients make progress: whoever can have a lock gets it, gives it back, and its future is in a queue by then. */
module AsyncTaskClients {
  import opened AsyncTaskProtocol
  import opened Options
  import opened OrderedQueueSafety
  import opened KeepAliveSafety
  import opened AsyncTaskRuns
  import opened AsyncTaskDelivery

  // ---- Who can move ----

  /** A client adding a deferred future can move unless it waits for a mutex that another thread holds. */
  lemma OrderedClientCanMove(s: State, t: Thread)
    requires Reachable(s) && t in s.ordered.clients
    ensures (exists woken :: Enabled(s, AddOrdered(t, woken)))
       <==> (s.ordered.clients[t].Wanting? ==> s.ordered.mutex.None?)
  {
    AtMostOneWorker(s);
    assert Enabled(s, AddOrdered(t, 0)) <==> (s.ordered.clients[t].Wanting? ==> s.ordered.mutex.None?);
  }

  /** The same for any other future and its mutex. */
  lemma AsyncClientCanMove(s: State, t: Thread)
    requires t in s.tasks.clients
    ensures Enabled(s, AddAsync(t)) <==> (s.tasks.clients[t].WantsTasks? ==> s.tasks.mutex.None?)
  {
  }

  /** A worker can move unless it is blocked, has exited, or waits for a mutex that another thread holds. */
  lemma WorkerCanMoveUnlessWaiting(s: State, i: nat)
    requires Reachable(s) && i < |s.ordered.workers|
    ensures
      var pc := s.ordered.workers[i];
      Enabled(s, Work(i)) <==> !pc.Blocked? && !pc.Exited? && (pc.WantsLock? || pc.Woken? ==> s.ordered.mutex.None?)
  {
    OrderedFuturesAreConserved(s);
  }

  /** The destructor can always move, but for its join, which waits until the worker has exited. */
  lemma DestructorCanMove(s: State)
    requires Reachable(s)
    ensures Enabled(s, Destroy) <==>
      !s.ordered.dtor.Destroyed? && (s.ordered.dtor.Joining? ==> s.ordered.workers == [Exited])
  {
    ReachableInv(s);
    assert |s.ordered.workers| == 1 ==> s.ordered.workers == [s.ordered.workers[0]];
  }

  /** A mutex is held by a client or a worker that can move. */
  lemma HolderCanMove(s: State)
    requires Reachable(s)
    ensures s.ordered.mutex.Some? ==>
      match s.ordered.mutex.value
      case Client(t) => t in s.ordered.clients && exists woken :: Enabled(s, AddOrdered(t, woken))
      case Worker(i) => Enabled(s, Work(i))
    ensures s.tasks.mutex.Some? ==> Enabled(s, AddAsync(s.tasks.mutex.value))
  {
    ReachableInv(s);
    var o, k := s.ordered, s.tasks;
    if k.mutex.Some? { assert PurgerHolds(k, k.mutex.value); }
    if o.mutex.Some? {
      match o.mutex.value
      case Client(t) =>
        assert ClientHolds(o, t);
        OrderedClientCanMove(s, t);
      case Worker(i) =>
        assert WorkerHolds(o, i);
        WorkerCanMoveUnlessWaiting(s, i);
    }
  }

  /** No deadlock while a client is inside add: it or the thread that it waits for can move. */
  lemma AddNeverDeadlocks(s: State, t: Thread)
    requires Reachable(s)
    ensures t in s.ordered.clients ==> exists a :: Enabled(s, a) && (a.AddOrdered? || a.Work?)
    ensures t in s.tasks.clients ==> exists a :: Enabled(s, a) && a.AddAsync?
  {
    HolderCanMove(s);
    if t in s.ordered.clients {
      if s.ordered.mutex.None? {
        OrderedClientCanMove(s, t);
      } else if s.ordered.mutex.value.Worker? {
        assert Enabled(s, Work(s.ordered.mutex.value.i));
      }
    }
    if t in s.tasks.clients && s.tasks.mutex.None? {
      AsyncClientCanMove(s, t);
    }
  }

  // ---- How far a client is from leaving add ----

  predicate StepOf(a: Action, t: Thread) {
    (a.AddOrdered? && a.t == t) || (a.AddAsync? && a.t == t)
  }

  function OwnSteps(run: seq<Action>, t: Thread): nat {
    if run == [] then 0 else (if StepOf(run[0], t) then 1 else 0) + OwnSteps(run[1..], t)
  }

  /** The client does not enter add again. */
  predicate StaysOut(run: seq<Action>, t: Thread) {
    forall a | a in run :: !(a.StartAdd? && a.t == t)
  }

  lemma OnOneSideStep(s: State, a: Action, t: Thread)
    requires Enabled(s, a) && (t !in s.ordered.clients || t !in s.tasks.clients)
    ensures t !in OrderedNext(s, a).clients || t !in TasksNext(s, a).clients
    ensures !(a.StartAdd? && a.t == t) && t !in s.ordered.clients ==> t !in OrderedNext(s, a).clients
    ensures !(a.StartAdd? && a.t == t) && t !in s.tasks.clients ==> t !in TasksNext(s, a).clients
  {
    if a.Work? { WorkKeepsClients(s.ordered, a.i); }
  }

  lemma {:induction false} OnOneSideAlong(s: State, run: seq<Action>, t: Thread)
    requires Steps(s, run) && (t !in s.ordered.clients || t !in s.tasks.clients)
    ensures t !in Exec(s, run).ordered.clients || t !in Exec(s, run).tasks.clients
    decreases |run|
  {
    if run != [] {
      OnOneSideStep(s, run[0], t);
      OnOneSideAlong(Next(s, run[0]), run[1..], t);
    }
  }

  /** A client works on one of the two sides only. */
  lemma OnOneSide(s: State, t: Thread)
    requires Reachable(s)
    ensures t !in s.ordered.clients || t !in s.tasks.clients
  {
    var run :| Steps(INIT, run) && Exec(INIT, run) == s;
    OnOneSideAlong(INIT, run, t);
  }

  function OrderedRank(o: Ordered, t: Thread): nat {
    if t !in o.clients then 0
    else match o.clients[t]
      case Wanting(_) => 5
      case Holding(_) => 4
      case Pushed(_) => 3
      case Spawned(_) => 2
      case Notified => 1
  }

  lemma OrderedRankFalls(s: State, a: Action, t: Thread)
    requires Enabled(s, a) && !(a.StartAdd? && a.t == t)
    ensures OrderedRank(OrderedNext(s, a), t)
         == OrderedRank(s.ordered, t) - (if a.AddOrdered? && a.t == t then 1 else 0)
  {
    if a.Work? {
      WorkKeepsClients(s.ordered, a.i);
    } else if a.AddOrdered? {
      ClientRankFalls(s.ordered, a.t, a.woken, t);
    }
  }

  lemma WorkKeepsClients(o: Ordered, i: nat)
    requires WorkerEnabled(o, i)
    ensures WorkerStep(o, i).clients == o.clients
  {
  }

  lemma ClientRankFalls(o: Ordered, u: Thread, woken: nat, t: Thread)
    requires ClientEnabled(o, u, woken)
    ensures OrderedRank(ClientStep(o, u, woken), t) == OrderedRank(o, t) - (if u == t then 1 else 0)
  {
  }

  /**
   * In every run a client that is adding a deferred future leaves add with its fifth own step at
   * the latest, and not before; its future is pushed by then.
   */
  lemma {:induction false} OrderedAddFinishes(s: State, run: seq<Action>, t: Thread)
    requires Reachable(s) && Steps(s, run) && StaysOut(run, t) && t in s.ordered.clients
    ensures OrderedRank(s.ordered, t) <= 5
    ensures OwnSteps(run, t) <= OrderedRank(s.ordered, t)
    ensures t !in Exec(s, run).ordered.clients <==> OwnSteps(run, t) == OrderedRank(s.ordered, t)
    ensures OwnSteps(run, t) == OrderedRank(s.ordered, t)
        ==> By(Pushes(s, run, true), t) == Pending(s, t, true)
  {
    OnOneSide(s, t);
    RankAlong(s, run, t);
    RunDelivers(s, run, t, true);
    NothingStarted(run, t, true);
    if OwnSteps(run, t) == OrderedRank(s.ordered, t) {
      assert Pending(Exec(s, run), t, true) == [];
      assert Pending(s, t, true) + [] == Pending(s, t, true);
      assert By(Pushes(s, run, true), t) + [] == By(Pushes(s, run, true), t);
    }
  }

  lemma {:induction false} NothingStarted(run: seq<Action>, t: Thread, deferred: bool)
    requires StaysOut(run, t)
    ensures Started(run, t, deferred) == []
  {
    if run != [] {
      assert run[0] in run;
      assert forall a | a in run[1..] :: a in run;
      NothingStarted(run[1..], t, deferred);
    }
  }

  lemma {:induction false} RankAlong(s: State, run: seq<Action>, t: Thread)
    requires Steps(s, run) && StaysOut(run, t) && t !in s.tasks.clients
    ensures OrderedRank(Exec(s, run).ordered, t) == OrderedRank(s.ordered, t) - OwnSteps(run, t)
    decreases |run|
  {
    if run != [] {
      assert run[0] in run;
      assert forall a | a in run[1..] :: a in run;
      OrderedRankFalls(s, run[0], t);
      OnOneSideStep(s, run[0], t);
      RankAlong(Next(s, run[0]), run[1..], t);
    }
  }

  /** For any other future, once the client has the mutex: at most one step for each queued future, and three. */
  function AsyncRank(k: Tasks, t: Thread): nat {
    if t !in k.clients then 0
    else match k.clients[t]
      case WantsTasks(_) => |k.queue| + 4
      case Purging(_) => |k.queue| + 3
      case Purged(_, _) => 2
      case Added(_, _) => 1
  }

  ghost predicate PastLock(k: Tasks, t: Thread) {
    t in k.clients ==> !k.clients[t].WantsTasks?
  }

  lemma AsyncRankFalls(s: State, a: Action, t: Thread)
    requires TasksInv(s.tasks, s.ready) && PastLock(s.tasks, t) && Enabled(s, a) && !(a.StartAdd? && a.t == t)
    ensures
      var k' := TasksNext(s, a);
      && PastLock(k', t)
      && (a.AddAsync? && a.t == t ==> AsyncRank(k', t) < AsyncRank(s.tasks, t))
      && (!(a.AddAsync? && a.t == t) ==> AsyncRank(k', t) == AsyncRank(s.tasks, t))
  {
    assert PurgerHolds(s.tasks, t);
    if a.AddAsync? { assert PurgerHolds(s.tasks, a.t); }
  }

  lemma {:induction false} AsyncRankAlong(s: State, run: seq<Action>, t: Thread)
    requires Inv(s) && Steps(s, run) && StaysOut(run, t) && PastLock(s.tasks, t)
    requires t !in s.ordered.clients
    ensures AsyncRank(Exec(s, run).tasks, t) + OwnSteps(run, t) <= AsyncRank(s.tasks, t)
    ensures PastLock(Exec(s, run).tasks, t)
    decreases |run|
  {
    if run != [] {
      assert run[0] in run;
      assert forall a | a in run[1..] :: a in run;
      var next := Next(s, run[0]);
      AsyncRankFalls(s, run[0], t);
      assert Inv(next) by {
        OrderedStepKeepsInv(s, run[0]);
        TasksStepKeepsInv(s, run[0]);
      }
      OnOneSideStep(s, run[0], t);
      AsyncRankAlong(next, run[1..], t);
    }
  }

  /**
   * In every run a client that has locked the keep-alive mutex leaves add within one own step for
   * each queued future and three more; its future is pushed by then.
   */
  lemma AsyncAddFinishes(s: State, run: seq<Action>, t: Thread)
    requires Reachable(s) && Steps(s, run) && StaysOut(run, t)
    requires t in s.tasks.clients && !s.tasks.clients[t].WantsTasks?
    ensures OwnSteps(run, t) <= AsyncRank(s.tasks, t) <= |s.tasks.queue| + 3
    ensures OwnSteps(run, t) == AsyncRank(s.tasks, t) ==> t !in Exec(s, run).tasks.clients
    ensures t !in Exec(s, run).tasks.clients ==> By(Pushes(s, run, false), t) == Pending(s, t, false)
  {
    ReachableInv(s);
    OnOneSide(s, t);
    AsyncRankAlong(s, run, t);
    RunDelivers(s, run, t, false);
    NothingStarted(run, t, false);
    if t !in Exec(s, run).tasks.clients {
      assert Pending(s, t, false) + [] == Pending(s, t, false);
      assert By(Pushes(s, run, false), t) + [] == By(Pushes(s, run, false), t);
    }
  }

  // ---- Readiness ----

  /** A future is ready exactly when the environment made it so or a worker has run it. */
  lemma {:induction false} ReadinessIsExplained(s: State, run: seq<Action>, f: Future)
    requires Steps(s, run) && (f in s.ordered.finished ==> f in s.ready)
    ensures f in Exec(s, run).ready
       <==> f in s.ready || BecomeReady(f) in run || f in Exec(s, run).ordered.finished
    decreases |run|
  {
    if run != [] {
      var a, next := run[0], Next(s, run[0]);
      ReadinessStep(s, a, f);
      ReadinessIsExplained(next, run[1..], f);
      FinishedGrows(next, run[1..], f);
      assert BecomeReady(f) in run <==> a == BecomeReady(f) || BecomeReady(f) in run[1..];
    }
  }

  lemma ReadinessStep(s: State, a: Action, f: Future)
    requires Enabled(s, a) && (f in s.ordered.finished ==> f in s.ready)
    ensures f in Next(s, a).ready <==> f in s.ready || a == BecomeReady(f) || f in Next(s, a).ordered.finished
  {
    match a
    case Work(i) =>
      var o' := WorkerStep(s.ordered, i);
      assert o'.finished == if s.ordered.workers[i].Running? then s.ordered.finished + [s.ordered.workers[i].f]
                            else s.ordered.finished;
    case _ =>
  }

  lemma {:induction false} FinishedGrows(s: State, run: seq<Action>, f: Future)
    requires Steps(s, run)
    ensures f in s.ordered.finished ==> f in Exec(s, run).ordered.finished
    decreases |run|
  {
    if run != [] {
      if run[0].Work? {
        assert s.ordered.finished <= WorkerStep(s.ordered, run[0].i).finished;
      }
      FinishedGrows(Next(s, run[0]), run[1..], f);
    }
  }

  /** Whatever was ready when a run began is among what a purge that ends during the run has seen. */
  ghost predicate SeesAll(k: Tasks, t: Thread, ready: set<Future>) {
    t in k.clients && (k.clients[t].Purged? || k.clients[t].Added?) ==> ready <= k.clients[t].seen
  }

  lemma {:induction false} PurgeSeesWhatWasReady(s: State, run: seq<Action>, t: Thread, ready: set<Future>)
    requires Steps(s, run) && ready <= s.ready && SeesAll(s.tasks, t, ready)
    ensures SeesAll(Exec(s, run).tasks, t, ready)
    decreases |run|
  {
    if run != [] {
      PurgeSeesWhatWasReady(Next(s, run[0]), run[1..], t, ready);
    }
  }

  /**
   * Every add of a future that is not deferred purges first: in the queue that it leaves, the
   * head is the new future or was unready when the client locked the mutex, and whenever before.
   */
  lemma HeadWasUnreadyAtLock(s: State, run: seq<Action>, t: Thread)
    requires Reachable(s) && Steps(s, run)
    requires t in s.tasks.clients ==> s.tasks.clients[t].WantsTasks? || s.tasks.clients[t].Purging?
    requires t in Exec(s, run).tasks.clients && Exec(s, run).tasks.clients[t].Added?
    ensures
      var e := Exec(s, run);
      && e.tasks.queue != [] && e.tasks.queue[|e.tasks.queue| - 1] == e.tasks.clients[t].f
      && (e.tasks.queue == [e.tasks.clients[t].f] || e.tasks.queue[0] !in s.ready)
  {
    ReachableInv(s);
    InvAlong(s, run);
    var k := Exec(s, run).tasks;
    assert PurgeKnown(k, t, Exec(s, run).ready);
    PurgeSeesWhatWasReady(s, run, t, s.ready);
    assert k.queue == k.queue[..|k.queue| - 1] + [k.queue[|k.queue| - 1]];
  }
}
