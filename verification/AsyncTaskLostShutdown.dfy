/** A run in which the destructor's wake-up is lost. */
module AsyncTaskLostShutdown {
  import opened AsyncTaskProtocol
  import opened Options

  lemma {:induction false} StepsExtend(s: State, run: seq<Action>, a: Action)
    requires Steps(s, run) && Enabled(Exec(s, run), a)
    ensures Steps(s, run + [a]) && Exec(s, run + [a]) == Next(Exec(s, run), a)
    decreases |run|
  {
    if run == [] {
      assert [a][1..] == [];
    } else {
      assert (run + [a])[1..] == run[1..] + [a];
      StepsExtend(Next(s, run[0]), run[1..], a);
    }
  }

  lemma ReachNext(s: State, a: Action)
    requires Reachable(s) && Enabled(s, a)
    ensures Reachable(Next(s, a))
  {
    var run :| Steps(INIT, run) && Exec(INIT, run) == s;
    StepsExtend(INIT, run, a);
  }

  /** Thread 0 adds future 0; these are the states on its way through add. */
  function Adding(i: nat): Ordered {
    var o := INIT_ORDERED.(mutex := Some(Client(0)), queue := [0], adds := [0]);
    match i
    case 0 => INIT_ORDERED.(clients := map[0 := Wanting(0)])
    case 1 => INIT_ORDERED.(clients := map[0 := Holding(0)], mutex := Some(Client(0)))
    case 2 => o.(clients := map[0 := Pushed(0)])
    case 3 => o.(clients := map[0 := Spawned(0)], thread := Some(0), workers := [WantsLock])
    case 4 => o.(clients := map[0 := Notified], thread := Some(0), workers := [WantsLock])
    case _ => o.(mutex := None, thread := Some(0), workers := [WantsLock])
  }

  /** The worker runs it and goes on to the point where it is about to block. */
  function RunningIt(i: nat): Ordered {
    var o := INIT_ORDERED.(thread := Some(0), adds := [0]);
    var done := o.(finished := [0], log := [Called(0), Returned(0)]);
    match i
    case 0 => o.(queue := [0], workers := [WantsLock])
    case 1 => o.(queue := [0], workers := [Testing], mutex := Some(Worker(0)))
    case 2 => o.(queue := [0], workers := [Deciding], mutex := Some(Worker(0)))
    case 3 => o.(workers := [Popped(0)], mutex := Some(Worker(0)))
    case 4 => o.(workers := [Calling(0)])
    case 5 => o.(workers := [WorkPc.Running(0)], log := [Called(0)])
    case 6 => done.(workers := [WantsLock])
    case 7 => done.(workers := [Testing], mutex := Some(Worker(0)))
    case _ => done.(workers := [ToBlock], mutex := Some(Worker(0)))
  }

  lemma AddingStep(i: nat)
    requires i < 5
    ensures ClientEnabled(Adding(i), 0, 0) && ClientStep(Adding(i), 0, 0) == Adding(i + 1)
  {
    assert i == 0 || i == 1 || i == 2 || i == 3 || i == 4;
  }

  lemma RunningStep(i: nat)
    requires i < 8
    ensures WorkerEnabled(RunningIt(i), 0) && WorkerStep(RunningIt(i), 0) == RunningIt(i + 1)
    ensures RunningIt(i).workers[0].Running? <==> i == 5
  {
    assert i == 0 || i == 1 || i == 2 || i == 3 || i == 4 || i == 5 || i == 6 || i == 7;
  }

  /** The worker has run the only future, found the queue empty, and is about to block. */
  lemma WorkerReachesTheGap() returns (s: State)
    ensures Reachable(s) && s.ordered == RunningIt(8) && s.tasks == INIT_TASKS
  {
    s := INIT;
    assert Steps(INIT, []) && Exec(INIT, []) == INIT;
    ReachNext(s, StartAdd(0, 0, true));
    s := Next(s, StartAdd(0, 0, true));
    for i := 0 to 5
      invariant Reachable(s) && s.tasks == INIT_TASKS && s.ordered == Adding(i)
    {
      AddingStep(i);
      ReachNext(s, AddOrdered(0, 0));
      s := Next(s, AddOrdered(0, 0));
    }
    assert Adding(5) == RunningIt(0);
    for i := 0 to 8
      invariant Reachable(s) && s.tasks == INIT_TASKS && s.ordered == RunningIt(i)
    {
      RunningStep(i);
      ReachNext(s, Work(0));
      s := Next(s, Work(0));
    }
  }

  /**
   * The destructor can wait for ever: a reachable state in which it is joining, the worker is
   * blocked, no client is adding, and neither of the two can take a step.
   */
  lemma ShutdownWakeUpCanBeLost()
    ensures exists s ::
      && Reachable(s)
      && s.ordered.dtor.Joining? && s.ordered.shuttingDown && s.ordered.workers == [Blocked]
      && s.ordered.clients == map[] && s.tasks.clients == map[]
      && !Enabled(s, Destroy) && (forall i :: !Enabled(s, Work(i)))
  {
    var s := WorkerReachesTheGap();
    var o := RunningIt(8);
    assert o.workers[0].ToBlock?;
    ReachNext(s, Destroy);
    s := Next(s, Destroy);
    assert s.ordered == o.(shuttingDown := true, dtor := FlagSet, gapAtFlag := true);
    ReachNext(s, Destroy);
    s := Next(s, Destroy);
    assert WakeAll([ToBlock]) == [ToBlock];
    assert s.ordered == o.(shuttingDown := true, dtor := AllNotified, gapAtFlag := true, gapAtNotify := true);
    ReachNext(s, Work(0));
    s := Next(s, Work(0));
    ReachNext(s, Destroy);
    s := Next(s, Destroy);
    assert s.ordered.workers == [Blocked];
  }
}
