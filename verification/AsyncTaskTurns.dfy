/**
 * What each thread of the protocol does when it runs alone for a while: exactly what the methods
 * of the queue object do in one go.
 */
module AsyncTaskTurns {
  import opened AsyncTaskProtocol
  import opened Options
  import opened OrderedQueueSafety
  import opened AsyncTaskRuns
  import Q = AsyncTaskQueue

  /** The state after n times the same action, if it is possible each time. */
  function Repeated(s: State, a: Action, n: nat): Option<State>
    decreases n, s
  {
    if n == 0 then Some(s)
    else if !Enabled(s, a) then None
    else Repeated(Next(s, a), a, n - 1)
  }

  // ---- Adding a deferred future ----

  /** The ordered side while client t runs through add, starting from o. */
  function AddStage(o: Ordered, t: Thread, f: Future, i: nat): Ordered {
    var inside := o.(mutex := Some(Client(t)));
    var pushed := inside.(queue := o.queue + [f], adds := o.adds + [f]);
    var spawned := pushed.(thread := Some(0), workers := if o.workers == [] then [WantsLock] else o.workers);
    var notified := spawned.(workers := if o.workers == [Blocked] then [WorkPc.Woken] else spawned.workers);
    match i
    case 0 => o.(clients := o.clients[t := Wanting(f)])
    case 1 => inside.(clients := o.clients[t := Holding(f)])
    case 2 => pushed.(clients := o.clients[t := Pushed(f)])
    case 3 => spawned.(clients := o.clients[t := Spawned(f)])
    case 4 => notified.(clients := o.clients[t := Notified])
    case _ => notified.(mutex := None)
  }

  lemma FirstAddStages(o: Ordered, t: Thread, f: Future, i: nat)
    requires o.mutex.None? && t !in o.clients && i < 2
    ensures ClientEnabled(AddStage(o, t, f, i), t, 0)
    ensures ClientStep(AddStage(o, t, f, i), t, 0) == AddStage(o, t, f, i + 1)
  {
    assert i == 0 || i == 1;
    assert o.clients[t := Wanting(f)][t := Holding(f)] == o.clients[t := Holding(f)];
    assert o.clients[t := Holding(f)][t := Pushed(f)] == o.clients[t := Pushed(f)];
  }

  lemma SpawnStage(o: Ordered, t: Thread, f: Future)
    requires OneWorker(o) && t !in o.clients
    ensures ClientEnabled(AddStage(o, t, f, 2), t, 0)
    ensures ClientStep(AddStage(o, t, f, 2), t, 0) == AddStage(o, t, f, 3)
  {
    assert o.clients[t := Pushed(f)][t := Spawned(f)] == o.clients[t := Spawned(f)];
  }

  lemma LastAddStages(o: Ordered, t: Thread, f: Future, i: nat)
    requires OneWorker(o) && o.mutex.None? && t !in o.clients && 3 <= i < 5
    ensures ClientEnabled(AddStage(o, t, f, i), t, 0)
    ensures ClientStep(AddStage(o, t, f, i), t, 0) == AddStage(o, t, f, i + 1)
  {
    assert i == 3 || i == 4;
    assert |o.workers| == 1 ==> o.workers == [o.workers[0]];
    assert o.clients[t := Spawned(f)][t := Notified] == o.clients[t := Notified];
    assert o.clients[t := Notified] - {t} == o.clients;
  }

  lemma AddStageStep(o: Ordered, t: Thread, f: Future, i: nat)
    requires OneWorker(o) && o.mutex.None? && t !in o.clients && i < 5
    ensures ClientEnabled(AddStage(o, t, f, i), t, 0)
    ensures ClientStep(AddStage(o, t, f, i), t, 0) == AddStage(o, t, f, i + 1)
  {
    if i < 2 {
      FirstAddStages(o, t, f, i);
    } else if i == 2 {
      SpawnStage(o, t, f);
    } else {
      LastAddStages(o, t, f, i);
    }
  }

  lemma {:induction false} AddStages(s: State, o: Ordered, t: Thread, f: Future, i: nat)
    requires OneWorker(o) && o.mutex.None? && t !in o.clients && i <= 5
    requires s.ordered == AddStage(o, t, f, i)
    ensures Repeated(s, AddOrdered(t, 0), 5 - i) == Some(s.(ordered := AddStage(o, t, f, 5)))
    decreases 5 - i
  {
    if i < 5 {
      AddStageStep(o, t, f, i);
      AddStages(Next(s, AddOrdered(t, 0)), o, t, f, i + 1);
    }
  }

  /**
   * Any thread can add an unready future as a deferred one. With the mutex free it is done after
   * five steps: the future is at the end of the queue, there is a worker, a blocked worker is
   * awake, and nothing else is changed.
   */
  lemma OrderedAddAlone(s: State, t: Thread, f: Future)
    requires Reachable(s) && t !in s.ordered.clients && t !in s.tasks.clients
    requires f !in s.ready && s.ordered.mutex.None?
    ensures Enabled(s, StartAdd(t, f, true))
    ensures
      var o := s.ordered;
      Repeated(Next(s, StartAdd(t, f, true)), AddOrdered(t, 0), 5) == Some(s.(ordered := o.(
        queue := o.queue + [f], adds := o.adds + [f], thread := Some(0),
        workers :=
          if o.workers == [] then [WantsLock]
          else if o.workers == [Blocked] then [WorkPc.Woken]
          else o.workers)))
  {
    ReachableInv(s);
    AddStages(Next(s, StartAdd(t, f, true)), s.ordered, t, f, 0);
  }

  // ---- The worker ----

  /** The ordered side while the worker runs the front of the queue, starting from o. */
  function RunStage(o: Ordered, i: nat): Ordered
    requires o.queue != []
  {
    var f := o.queue[0];
    var inside := o.(mutex := Some(Worker(0)));
    var taken := o.(queue := o.queue[1..]);
    var called := taken.(log := o.log + [Called(f)]);
    match i
    case 0 => o
    case 1 => inside.(workers := [Testing])
    case 2 => inside.(workers := [Deciding])
    case 3 => taken.(mutex := Some(Worker(0)), workers := [Popped(f)])
    case 4 => taken.(workers := [Calling(f)])
    case 5 => called.(workers := [WorkPc.Running(f)])
    case _ => called.(log := called.log + [Returned(f)], finished := o.finished + [f], workers := [WantsLock])
  }

  /** The worker begins a turn, or was woken, and the mutex is free. */
  ghost predicate AboutToLock(o: Ordered) {
    o.mutex.None? && (o.workers == [WantsLock] || o.workers == [WorkPc.Woken])
  }

  lemma TakingStages(o: Ordered, i: nat)
    requires AboutToLock(o) && o.queue != [] && !o.shuttingDown && i < 3
    ensures WorkerEnabled(RunStage(o, i), 0) && WorkerStep(RunStage(o, i), 0) == RunStage(o, i + 1)
  {
    assert i == 0 || i == 1 || i == 2;
  }

  lemma GettingStages(o: Ordered, i: nat)
    requires AboutToLock(o) && o.queue != [] && 3 <= i < 6
    ensures WorkerEnabled(RunStage(o, i), 0) && WorkerStep(RunStage(o, i), 0) == RunStage(o, i + 1)
  {
    assert i == 3 || i == 4 || i == 5;
  }

  lemma RunStageStep(o: Ordered, i: nat)
    requires AboutToLock(o) && o.queue != [] && !o.shuttingDown && i < 6
    ensures WorkerEnabled(RunStage(o, i), 0) && WorkerStep(RunStage(o, i), 0) == RunStage(o, i + 1)
    ensures i == 5 <==> RunStage(o, i).workers[0].Running?
  {
    if i < 3 { TakingStages(o, i); } else { GettingStages(o, i); }
  }

  lemma LastRunStage(o: Ordered)
    requires o.mutex.None? && o.queue != []
    ensures RunStage(o, 6) == o.(
      queue := o.queue[1..], finished := o.finished + [o.queue[0]],
      log := o.log + [Called(o.queue[0]), Returned(o.queue[0])], workers := [WantsLock])
  {
    var f := o.queue[0];
    assert o.log + [Called(f)] + [Returned(f)] == o.log + [Called(f), Returned(f)];
  }

  lemma {:induction false} RunStages(s: State, o: Ordered, i: nat)
    requires AboutToLock(o) && o.queue != [] && !o.shuttingDown && i <= 6
    requires s.ordered == RunStage(o, i)
    ensures Repeated(s, Work(0), 6 - i)
         == Some(State(o.(
              queue := o.queue[1..], finished := o.finished + [o.queue[0]],
              log := o.log + [Called(o.queue[0]), Returned(o.queue[0])], workers := [WantsLock]),
              s.tasks, if i < 6 then s.ready + {o.queue[0]} else s.ready))
    decreases 6 - i
  {
    if i == 6 {
      LastRunStage(o);
    } else {
      RunStageStep(o, i);
      RunStages(Next(s, Work(0)), o, i + 1);
    }
  }

  /** A turn of the worker when the queue is shutting down: it leaves, and nothing else is changed. */
  lemma WorkerLeaves(s: State)
    requires AboutToLock(s.ordered) && s.ordered.shuttingDown
    ensures Repeated(s, Work(0), 4) == Some(s.(ordered := s.ordered.(workers := [Exited])))
  {
    var o := s.ordered;
    var inside := o.(mutex := Some(Worker(0)));
    var s1 := Next(s, Work(0));
    assert s1 == s.(ordered := inside.(workers := [Testing]));
    var s2 := Next(s1, Work(0));
    assert s2 == s.(ordered := inside.(workers := [Deciding]));
    var s3 := Next(s2, Work(0));
    assert s3 == s.(ordered := inside.(workers := [Leaving]));
    var s4 := Next(s3, Work(0));
    assert s4 == s.(ordered := o.(workers := [Exited]));
    assert Repeated(s3, Work(0), 1) == Some(s4) by { assert Repeated(s4, Work(0), 0) == Some(s4); }
    assert Repeated(s2, Work(0), 2) == Some(s4);
    assert Repeated(s1, Work(0), 3) == Some(s4);
  }

  /** With an empty queue it blocks. */
  lemma WorkerBlocks(s: State)
    requires AboutToLock(s.ordered) && s.ordered.queue == [] && !s.ordered.shuttingDown
    ensures Repeated(s, Work(0), 3) == Some(s.(ordered := s.ordered.(workers := [Blocked])))
  {
    var o := s.ordered;
    var inside := o.(mutex := Some(Worker(0)));
    var s1 := Next(s, Work(0));
    assert s1 == s.(ordered := inside.(workers := [Testing]));
    var s2 := Next(s1, Work(0));
    assert s2 == s.(ordered := inside.(workers := [ToBlock]));
    var s3 := Next(s2, Work(0));
    assert s3 == s.(ordered := o.(workers := [Blocked]));
    assert Repeated(s2, Work(0), 1) == Some(s3) by { assert Repeated(s3, Work(0), 0) == Some(s3); }
    assert Repeated(s1, Work(0), 2) == Some(s3);
  }

  /** Else it takes the front, runs it, and is back where a turn begins. */
  lemma WorkerRunsFront(s: State)
    requires AboutToLock(s.ordered) && s.ordered.queue != [] && !s.ordered.shuttingDown
    ensures
      var o := s.ordered;
      Repeated(s, Work(0), 6) == Some(State(o.(
        queue := o.queue[1..], finished := o.finished + [o.queue[0]],
        log := o.log + [Called(o.queue[0]), Returned(o.queue[0])], workers := [WantsLock]),
        s.tasks, s.ready + {o.queue[0]}))
  {
    RunStages(s, s.ordered, 0);
  }

  // ---- The destructor ----

  /**
   * The destructor reaches its join, or its end if there is no worker, whatever else happens to be
   * the case: it sets the flag, wakes a blocked worker, and leaves the queues alone.
   */
  lemma DestructorAlone(s: State)
    requires Reachable(s) && s.ordered.dtor.NotStarted?
    ensures
      var o := s.ordered;
      Repeated(s, Destroy, 3) == Some(s.(ordered := o.(
        shuttingDown := true, dtor := if o.workers == [] then Destroyed else Joining,
        workers := if o.workers == [Blocked] then [WorkPc.Woken] else o.workers,
        gapAtFlag := o.workers == [ToBlock], gapAtNotify := o.workers == [ToBlock])))
  {
    ReachableInv(s);
    var o := s.ordered;
    assert |o.workers| == 1 ==> o.workers == [o.workers[0]];
    var awake := if o.workers == [Blocked] then [WorkPc.Woken] else o.workers;
    assert WakeAll(o.workers) == awake;
    assert AnyAtGap(o.workers) <==> o.workers == [ToBlock];
    var s1 := Next(s, Destroy);
    var s2 := Next(s1, Destroy);
    assert s2.ordered.workers == awake;
    var s3 := Next(s2, Destroy);
    assert Repeated(s2, Destroy, 1) == Some(s3) by { assert Repeated(s3, Destroy, 0) == Some(s3); }
    assert Repeated(s1, Destroy, 2) == Some(s3);
  }

  // ---- Adding any other future ----

  /** The state when client t has purged the first n futures and found the next one unready. */
  function Dropped(s: State, t: Thread, n: nat): State
    requires n <= |s.tasks.queue| && t in s.tasks.clients
  {
    var k := s.tasks;
    s.(tasks := k.(queue := k.queue[n..], purged := k.purged + k.queue[..n],
                   clients := k.clients[t := Purged(k.clients[t].f, s.ready)]))
  }

  lemma DropOne(s: State, t: Thread, n: nat)
    requires t in s.tasks.clients && s.tasks.clients[t].Purging?
    requires 1 <= n <= |s.tasks.queue| && s.tasks.queue[0] in s.ready
    ensures Enabled(s, AddAsync(t))
    ensures
      var next := Next(s, AddAsync(t));
      && next.tasks.queue == s.tasks.queue[1..] && next.ready == s.ready
      && t in next.tasks.clients && next.tasks.clients[t].Purging?
      && Dropped(next, t, n - 1) == Dropped(s, t, n)
  {
    var k := s.tasks;
    assert k.queue[n..] == k.queue[1..][n - 1..];
    assert k.purged + k.queue[..n] == k.purged + [k.queue[0]] + k.queue[1..][..n - 1];
  }

  lemma DropNone(s: State, t: Thread)
    requires t in s.tasks.clients && s.tasks.clients[t].Purging?
    requires s.tasks.queue == [] || s.tasks.queue[0] !in s.ready
    ensures Enabled(s, AddAsync(t)) && Next(s, AddAsync(t)) == Dropped(s, t, 0)
  {
    var k := s.tasks;
    assert k.queue[0..] == k.queue && k.purged + k.queue[..0] == k.purged;
  }

  /** How many futures a purge drops. */
  function DropCount(queue: seq<Future>, ready: set<Future>): (n: nat)
    ensures n <= |queue|
  {
    Q.PurgeDropsSome(Q.Handles(queue), seq(|queue|, i => ready));
    |queue| - |Q.AfterPurge(Q.Handles(queue), seq(|queue|, i => ready))|
  }

  lemma PurgeOfRest(queue: seq<Future>, ready: set<Future>)
    requires queue != [] && queue[0] in ready
    ensures DropCount(queue, ready) == DropCount(queue[1..], ready) + 1
  {
    assert Q.Handles(queue)[1..] == Q.Handles(queue[1..]);
    assert seq(|queue|, i => ready)[1..] == seq(|queue[1..]|, i => ready);
  }

  /** The purge, run alone, drops from the queue what the purge of the object does. */
  lemma {:induction false} PurgeAlone(s: State, t: Thread)
    requires t in s.tasks.clients && s.tasks.clients[t].Purging?
    ensures
      var n := DropCount(s.tasks.queue, s.ready);
      Repeated(s, AddAsync(t), n + 1) == Some(Dropped(s, t, n))
    decreases |s.tasks.queue|
  {
    var k, n, next := s.tasks, DropCount(s.tasks.queue, s.ready), Next(s, AddAsync(t));
    if k.queue != [] && k.queue[0] in s.ready {
      PurgeOfRest(k.queue, s.ready);
      DropOne(s, t, n);
      PurgeAlone(next, t);
    } else {
      DropNone(s, t);
      assert n == 0 && Repeated(next, AddAsync(t), 0) == Some(next);
    }
  }

  lemma DroppedIsPurged(queue: seq<Future>, ready: set<Future>)
    ensures
      var all := seq(|queue|, i => ready);
      Q.AfterPurge(Q.Handles(queue), all) == Q.Handles(queue[DropCount(queue, ready)..])
  {
    var all, n := seq(|queue|, i => ready), DropCount(queue, ready);
    Q.PurgeDropsSome(Q.Handles(queue), all);
    Q.PurgeLeavesSuffix(Q.Handles(queue), all, n);
    assert Q.Handles(queue)[n..] == Q.Handles(queue[n..]);
  }

  lemma {:induction false} RepeatedTwice(s: State, a: Action, m: nat, n: nat)
    requires Repeated(s, a, m).Some?
    ensures Repeated(s, a, m + n) == Repeated(Repeated(s, a, m).value, a, n)
    decreases m
  {
    if m > 0 { RepeatedTwice(Next(s, a), a, m - 1, n); }
  }

  lemma PushAlone(s: State, t: Thread)
    requires t in s.tasks.clients && s.tasks.clients[t].Purged?
    ensures
      var k, f := s.tasks, s.tasks.clients[t].f;
      Repeated(s, AddAsync(t), 2) == Some(s.(tasks := k.(
        queue := k.queue + [f], adds := k.adds + [f], clients := k.clients - {t}, mutex := None)))
  {
    var k := s.tasks;
    var s1 := Next(s, AddAsync(t));
    var s2 := Next(s1, AddAsync(t));
    assert s1.tasks.clients - {t} == k.clients - {t};
    assert Repeated(s1, AddAsync(t), 1) == Some(s2) by { assert Repeated(s2, AddAsync(t), 0) == Some(s2); }
  }

  /**
   * Any thread can add any future as one that is not deferred. With the mutex free it is done
   * after one step for each future that it purges and four more: the purge has dropped what the
   * purge of the object drops, the future is at the end, and nothing else is changed.
   */
  lemma AsyncAddAlone(s: State, t: Thread, f: Future)
    requires t !in s.ordered.clients && t !in s.tasks.clients && s.tasks.mutex.None?
    ensures Enabled(s, StartAdd(t, f, false))
    ensures
      var k, n := s.tasks, DropCount(s.tasks.queue, s.ready);
      && Q.Handles(k.queue[n..]) == Q.AfterPurge(Q.Handles(k.queue), seq(|k.queue|, i => s.ready))
      && Repeated(Next(s, StartAdd(t, f, false)), AddAsync(t), n + 4) == Some(s.(tasks := k.(
           queue := k.queue[n..] + [f], adds := k.adds + [f], purged := k.purged + k.queue[..n])))
  {
    var k, started := s.tasks, Next(s, StartAdd(t, f, false));
    var locked, n := Next(started, AddAsync(t)), DropCount(k.queue, s.ready);
    DroppedIsPurged(k.queue, s.ready);
    PurgeAlone(locked, t);
    PushAlone(Dropped(locked, t, n), t);
    RepeatedTwice(locked, AddAsync(t), n + 1, 2);
    assert Dropped(locked, t, n).tasks.clients - {t} == k.clients;
    assert Repeated(started, AddAsync(t), n + 4) == Repeated(locked, AddAsync(t), n + 3);
  }

  // ---- The environment ----

  /** At any moment any futures may become ready, and nothing else happens then. */
  lemma {:induction false} AnyCanBecomeReady(s: State, fs: seq<Future>) returns (run: seq<Action>)
    ensures Steps(s, run) && (forall a | a in run :: a.BecomeReady? && a.f in fs)
    ensures Exec(s, run) == s.(ready := s.ready + set f | f in fs)
    decreases |fs|
  {
    if fs == [] {
      run := [];
      assert s.ready + (set f | f in fs) == s.ready;
    } else {
      var next := Next(s, BecomeReady(fs[0]));
      var rest := AnyCanBecomeReady(next, fs[1..]);
      run := [BecomeReady(fs[0])] + rest;
      assert run[1..] == rest;
      assert s.ready + {fs[0]} + (set f | f in fs[1..]) == s.ready + set f | f in fs;
    }
  }
}
