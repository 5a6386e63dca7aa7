/**
 * The queue object as one thread at a time sees it: `add` and the erase loop of `purgeCompleted`,
 * in place. Which futures are ready is read anew at each check, so it is a parameter per check.
 */
module AsyncTaskQueue {
  import opened Options
  import P = AsyncTaskProtocol

  /** A shared future: a handle without a shared state is invalid. */
  datatype SharedFuture = Invalid | Shared(f: P.Future)

  /** A future that the purge may drop: a ready one, or one that is invalid. */
  predicate Finished(x: SharedFuture, ready: set<P.Future>) {
    x.Shared? ==> x.f in ready
  }

  /** What a purge leaves, when its i-th check finds `ready[i]` ready. */
  function AfterPurge(queue: seq<SharedFuture>, ready: seq<set<P.Future>>): seq<SharedFuture>
    requires |ready| >= |queue|
  {
    if queue == [] || !Finished(queue[0], ready[0]) then queue
    else AfterPurge(queue[1..], ready[1..])
  }

  class AsyncTaskQueue {
    var tasksQueue: seq<SharedFuture>
    var orderedTasksQueue: seq<SharedFuture>
    var hasOrderedTaskThread: bool
    var shuttingDown: bool

    constructor ()
      ensures tasksQueue == [] && orderedTasksQueue == [] && !hasOrderedTaskThread && !shuttingDown
    {
      tasksQueue := [];
      orderedTasksQueue := [];
      hasOrderedTaskThread := false;
      shuttingDown := false;
    }

    /** Erases finished futures from the front, up to the first that is not. */
    method PurgeCompleted(ready: seq<set<P.Future>>)
      requires |ready| >= |tasksQueue|
      modifies this`tasksQueue
      ensures tasksQueue == AfterPurge(old(tasksQueue), ready)
    {
      ghost var n := |tasksQueue|;
      var pass := 0;
      while tasksQueue != []
        invariant pass + |tasksQueue| == n
        invariant AfterPurge(tasksQueue, ready[pass..]) == AfterPurge(old(tasksQueue), ready)
        decreases |tasksQueue|
      {
        var doRemove := false;
        if tasksQueue[0].Shared? {
          if tasksQueue[0].f in ready[pass] {
            doRemove := true;
          }
        } else {
          doRemove := true;
        }
        assert ready[pass..][0] == ready[pass] && ready[pass..][1..] == ready[pass + 1..];
        if doRemove {
          tasksQueue := tasksQueue[1..];
        } else {
          break;
        }
        pass := pass + 1;
      }
    }

    /**
     * Adds a future. A deferred one goes to the end of the ordered queue and there is a worker
     * from then on; any other one goes to the end of the keep-alive queue after a purge.
     */
    method Add(f: SharedFuture, isDeferred: bool, ready: seq<set<P.Future>>)
      requires f.Shared?
      requires |ready| >= |tasksQueue|
      modifies this
      ensures orderedTasksQueue == old(orderedTasksQueue) + if isDeferred then [f] else []
      ensures hasOrderedTaskThread <==> old(hasOrderedTaskThread) || isDeferred
      ensures tasksQueue == if isDeferred then old(tasksQueue) else AfterPurge(old(tasksQueue), ready) + [f]
      ensures shuttingDown == old(shuttingDown)
    {
      if isDeferred {
        orderedTasksQueue := orderedTasksQueue + [f];
        if !hasOrderedTaskThread {
          hasOrderedTaskThread := true;
        }
      } else {
        PurgeCompleted(ready);
        tasksQueue := tasksQueue + [f];
      }
    }

    /** The worker's critical section once its wait has returned: leave, or take the front of the ordered queue. */
    method TakeNext() returns (next: Option<SharedFuture>)
      requires |orderedTasksQueue| > 0 || shuttingDown
      modifies this`orderedTasksQueue
      ensures next.None? <==> shuttingDown
      ensures old(orderedTasksQueue) == (if next.Some? then [next.value] else []) + orderedTasksQueue
    {
      if shuttingDown {
        return None;
      }
      next := Some(orderedTasksQueue[0]);
      orderedTasksQueue := orderedTasksQueue[1..];
    }
  }

  /** A purge drops n futures: each was invalid, or ready at its own check, and the next one was neither. */
  ghost predicate Drops(queue: seq<SharedFuture>, ready: seq<set<P.Future>>, n: nat)
    requires |ready| >= |queue|
  {
    && n <= |queue|
    && (forall i | 0 <= i < n :: queue[i].Invalid? || queue[i].f in ready[i])
    && (n < |queue| ==> queue[n].Shared? && queue[n].f !in ready[n])
  }

  /** The purge leaves exactly the suffix that starts at the first future that is valid and unready at its check. */
  lemma {:induction false} PurgeLeavesSuffix(queue: seq<SharedFuture>, ready: seq<set<P.Future>>, n: nat)
    requires |ready| >= |queue|
    requires Drops(queue, ready, n)
    ensures AfterPurge(queue, ready) == queue[n..]
  {
    if n > 0 {
      assert queue[0].Invalid? || queue[0].f in ready[0];
      forall i | 0 <= i < n - 1 ensures queue[1..][i].Invalid? || queue[1..][i].f in ready[1..][i] {
        assert queue[i + 1].Invalid? || queue[i + 1].f in ready[i + 1];
      }
      PurgeLeavesSuffix(queue[1..], ready[1..], n - 1);
    }
  }

  lemma {:induction false} PurgeDropsSome(queue: seq<SharedFuture>, ready: seq<set<P.Future>>)
    requires |ready| >= |queue|
    ensures |AfterPurge(queue, ready)| <= |queue|
    ensures Drops(queue, ready, |queue| - |AfterPurge(queue, ready)|)
  {
    if queue != [] && Finished(queue[0], ready[0]) {
      PurgeDropsSome(queue[1..], ready[1..]);
      var n := |queue| - |AfterPurge(queue, ready)|;
      forall i | 0 <= i < n ensures queue[i].Invalid? || queue[i].f in ready[i] {
        if i > 0 { assert queue[1..][i - 1].Invalid? || queue[1..][i - 1].f in ready[1..][i - 1]; }
      }
    }
  }

  /** When readiness only grows, all that a purge dropped is finished at its end, and a purge then would drop no less. */
  lemma {:induction false} DroppedStayFinished(queue: seq<SharedFuture>, ready: seq<set<P.Future>>, last: set<P.Future>)
    requires |ready| >= |queue|
    requires forall i | 0 <= i < |ready| :: ready[i] <= last
    ensures forall i | 0 <= i < |queue| - |AfterPurge(queue, ready)| :: queue[i].Invalid? || queue[i].f in last
    ensures |AfterPurge(queue, seq(|queue|, i => last))| <= |AfterPurge(queue, ready)|
  {
    if queue != [] && Finished(queue[0], ready[0]) {
      assert forall i | 0 <= i < |ready[1..]| :: ready[1..][i] == ready[i + 1];
      DroppedStayFinished(queue[1..], ready[1..], last);
      assert seq(|queue|, i => last)[1..] == seq(|queue[1..]|, i => last);
      forall i | 0 <= i < |queue| - |AfterPurge(queue, ready)| ensures queue[i].Invalid? || queue[i].f in last {
        if i > 0 { assert queue[1..][i - 1] == queue[i]; }
      }
    } else {
      PurgeDropsSome(queue, seq(|queue|, i => last));
    }
  }

  function Handles(fs: seq<P.Future>): seq<SharedFuture> {
    seq(|fs|, i requires 0 <= i < |fs| => Shared(fs[i]))
  }
}
