/** Every future handed to `add` reaches its queue: each client's futures once, and in the client's own order. */
module AsyncTaskDelivery {
  import opened AsyncTaskProtocol
  import opened OrderedQueueSafety
  import opened AsyncTaskRuns

  datatype Push = Push(t: Thread, f: Future)

  /** The futures that client t has started to add, those found deferred or the others. */
  function Started(run: seq<Action>, t: Thread, deferred: bool): seq<Future> {
    if run == [] then []
    else StartedBy(run[0], t, deferred) + Started(run[1..], t, deferred)
  }

  function StartedBy(a: Action, t: Thread, deferred: bool): seq<Future> {
    if a.StartAdd? && a.t == t && a.isDeferred == deferred then [a.f] else []
  }

  /** The pushes to the ordered queue, or to the keep-alive queue, that a run makes. */
  function Pushes(s: State, run: seq<Action>, deferred: bool): seq<Push>
    requires Steps(s, run)
    decreases |run|
  {
    if run == [] then []
    else PushesOf(s, run[0], deferred) + Pushes(Next(s, run[0]), run[1..], deferred)
  }

  function PushesOf(s: State, a: Action, deferred: bool): seq<Push>
    requires Enabled(s, a)
  {
    if deferred && a.AddOrdered? && s.ordered.clients[a.t].Holding? then [Push(a.t, s.ordered.clients[a.t].f)]
    else if !deferred && a.AddAsync? && s.tasks.clients[a.t].Purged? then [Push(a.t, s.tasks.clients[a.t].f)]
    else []
  }

  function Futures(pushes: seq<Push>): seq<Future> {
    seq(|pushes|, i requires 0 <= i < |pushes| => pushes[i].f)
  }

  function By(pushes: seq<Push>, t: Thread): seq<Future> {
    if pushes == [] then []
    else (if pushes[0].t == t then [pushes[0].f] else []) + By(pushes[1..], t)
  }

  /** The future that client t is adding to a queue and has not pushed yet. */
  function Pending(s: State, t: Thread, deferred: bool): seq<Future> {
    if deferred then
      if t in s.ordered.clients && (s.ordered.clients[t].Wanting? || s.ordered.clients[t].Holding?)
      then [s.ordered.clients[t].f] else []
    else
      if t in s.tasks.clients && !s.tasks.clients[t].Added? then [s.tasks.clients[t].f] else []
  }

  function AddsTo(s: State, deferred: bool): seq<Future> {
    if deferred then s.ordered.adds else s.tasks.adds
  }

  lemma ByPrepend(now: seq<Push>, later: seq<Push>, t: Thread)
    requires |now| <= 1
    ensures By(now + later, t) == By(now, t) + By(later, t)
  {
    if now == [] {
      assert now + later == later;
    } else {
      assert (now + later)[1..] == later && By(now[1..], t) == [];
    }
  }

  /** One step: what was pending or is started is pushed or still pending. */
  lemma StepDelivers(s: State, a: Action, t: Thread, deferred: bool)
    requires Enabled(s, a)
    ensures Pending(s, t, deferred) + StartedBy(a, t, deferred)
         == By(PushesOf(s, a, deferred), t) + Pending(Next(s, a), t, deferred)
  {
    match a
    case AddOrdered(u, woken) => if deferred { OrderedStepDelivers(s, u, woken, t); }
    case AddAsync(u) => if !deferred { AsyncStepDelivers(s, u, t); }
    case Work(i) => assert WorkerStep(s.ordered, i).clients == s.ordered.clients;
    case _ =>
  }

  lemma OrderedStepDelivers(s: State, u: Thread, woken: nat, t: Thread)
    requires ClientEnabled(s.ordered, u, woken)
    ensures Pending(s, t, true) == By(PushesOf(s, AddOrdered(u, woken), true), t)
                                 + Pending(Next(s, AddOrdered(u, woken)), t, true)
  {
  }

  lemma AsyncStepDelivers(s: State, u: Thread, t: Thread)
    requires PurgerEnabled(s.tasks, u)
    ensures Pending(s, t, false) == By(PushesOf(s, AddAsync(u), false), t) + Pending(Next(s, AddAsync(u)), t, false)
  {
  }

  lemma StepPushes(s: State, a: Action, deferred: bool)
    requires Enabled(s, a)
    ensures AddsTo(Next(s, a), deferred) == AddsTo(s, deferred) + Futures(PushesOf(s, a, deferred))
  {
    match a
    case Work(i) => assert WorkerStep(s.ordered, i).adds == s.ordered.adds;
    case _ =>
  }

  lemma {:induction false} RunDelivers(s: State, run: seq<Action>, t: Thread, deferred: bool)
    requires Steps(s, run)
    ensures Pending(s, t, deferred) + Started(run, t, deferred)
         == By(Pushes(s, run, deferred), t) + Pending(Exec(s, run), t, deferred)
    decreases |run|
  {
    if run != [] {
      var next := Next(s, run[0]);
      var now, later := PushesOf(s, run[0], deferred), Pushes(next, run[1..], deferred);
      assert Pending(s, t, deferred) + StartedBy(run[0], t, deferred) == By(now, t) + Pending(next, t, deferred) by {
        StepDelivers(s, run[0], t, deferred);
      }
      RunDelivers(next, run[1..], t, deferred);
      ByPrepend(now, later, t);
      DeliveryChains(Pending(s, t, deferred), StartedBy(run[0], t, deferred), Started(run[1..], t, deferred),
                     By(now, t), Pending(next, t, deferred), By(later, t), Pending(Exec(s, run), t, deferred));
    }
  }

  lemma {:induction false} RunPushes(s: State, run: seq<Action>, deferred: bool)
    requires Steps(s, run)
    ensures AddsTo(Exec(s, run), deferred) == AddsTo(s, deferred) + Futures(Pushes(s, run, deferred))
    decreases |run|
  {
    if run != [] {
      var next := Next(s, run[0]);
      var now, later := PushesOf(s, run[0], deferred), Pushes(next, run[1..], deferred);
      assert AddsTo(next, deferred) == AddsTo(s, deferred) + Futures(now) by {
        StepPushes(s, run[0], deferred);
      }
      RunPushes(next, run[1..], deferred);
      assert Futures(now + later) == Futures(now) + Futures(later);
    }
  }

  lemma DeliveryChains(pending: seq<Future>, started: seq<Future>, rest: seq<Future>, pushed: seq<Future>,
                       pending': seq<Future>, later: seq<Future>, end: seq<Future>)
    requires pending + started == pushed + pending' && pending' + rest == later + end
    ensures pending + (started + rest) == (pushed + later) + end
  {
    assert pending + (started + rest) == (pending + started) + rest;
    assert (pushed + pending') + rest == pushed + (pending' + rest);
  }

  /**
   * Nothing is lost on the way into a queue. The pushes of every run are the history of the
   * queue; those of one client are the futures it started to add to that queue, in its order,
   * but for the one it may still be adding.
   */
  lemma EveryAddIsDelivered(run: seq<Action>, t: Thread, deferred: bool)
    requires Steps(INIT, run)
    ensures AddsTo(Exec(INIT, run), deferred) == Futures(Pushes(INIT, run, deferred))
    ensures Started(run, t, deferred) == By(Pushes(INIT, run, deferred), t) + Pending(Exec(INIT, run), t, deferred)
    ensures |Pending(Exec(INIT, run), t, deferred)| <= 1
  {
    RunDelivers(INIT, run, t, deferred);
    RunPushes(INIT, run, deferred);
  }

  /** Hence what is finished, in flight and queued is what the clients pushed as deferred, in push order. */
  lemma WorkerRunsWhatWasAdded(run: seq<Action>)
    requires Steps(INIT, run)
    ensures
      var o := Exec(INIT, run).ordered;
      o.finished + InFlight(o) + o.queue == Futures(Pushes(INIT, run, true))
  {
    assert Reachable(Exec(INIT, run));
    OrderedFuturesAreConserved(Exec(INIT, run));
    EveryAddIsDelivered(run, 0, true);
  }

  lemma {:induction false} FinishedStayReady(s: State, run: seq<Action>)
    requires Steps(s, run) && (forall f | f in s.ordered.finished :: f in s.ready)
    ensures forall f | f in Exec(s, run).ordered.finished :: f in Exec(s, run).ready
    decreases |run|
  {
    if run != [] {
      var next := Next(s, run[0]);
      assert forall f | f in next.ordered.finished :: f in next.ready by {
        if run[0].Work? {
          var o' := WorkerStep(s.ordered, run[0].i);
          assert s.ordered.workers[run[0].i].Running? || o'.finished == s.ordered.finished;
        }
      }
      FinishedStayReady(next, run[1..]);
    }
  }

  /** In every reachable state each future whose get returned to the worker is ready. */
  lemma FinishedAreReady(s: State)
    requires Reachable(s)
    ensures forall f | f in s.ordered.finished :: f in s.ready
  {
    var run :| Steps(INIT, run) && Exec(INIT, run) == s;
    FinishedStayReady(INIT, run);
  }
}
