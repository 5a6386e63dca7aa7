/** What every step keeps of the keep-alive side: its lock, and what a purge may erase. */
module KeepAliveSafety {
  import opened AsyncTaskProtocol
  import opened Options

  ghost predicate PurgerHolds(k: Tasks, t: Thread) {
    k.mutex == Some(t) <==> t in k.clients && !k.clients[t].WantsTasks?
  }

  /** A future at the head of a purged queue was not ready at the check that ended the purge. */
  ghost predicate HeadUnready(queue: seq<Future>, seen: set<Future>) {
    queue == [] || queue[0] !in seen
  }

  /** What a client knows of the queue while it holds the mutex. */
  ghost predicate PurgeKnown(k: Tasks, t: Thread, ready: set<Future>)
    requires t in k.clients
  {
    match k.clients[t]
    case Purged(f, seen) => seen <= ready && HeadUnready(k.queue, seen)
    case Added(f, seen) =>
      && seen <= ready
      && k.queue != [] && k.queue[|k.queue| - 1] == f
      && HeadUnready(k.queue[..|k.queue| - 1], seen)
    case _ => true
  }

  ghost predicate TasksInv(k: Tasks, ready: set<Future>) {
    && (forall t :: PurgerHolds(k, t))
    && k.adds == k.purged + k.queue
    && (forall f | f in k.purged :: f in ready)
    && (forall t | t in k.clients :: PurgeKnown(k, t, ready))
  }

  lemma PurgerKeepsInv(k: Tasks, t: Thread, ready: set<Future>)
    requires TasksInv(k, ready) && PurgerEnabled(k, t)
    ensures TasksInv(PurgerStep(k, t, ready), ready)
  {
    var k' := PurgerStep(k, t, ready);
    assert PurgerHolds(k, t) && PurgeKnown(k, t, ready);
    forall u ensures PurgerHolds(k', u) { assert PurgerHolds(k, u); }
    forall u | u in k'.clients ensures PurgeKnown(k', u, ready) {
      assert PurgerHolds(k, u) && PurgeKnown(k, u, ready);
    }
    if k.queue != [] {
      assert k.queue == [k.queue[0]] + k.queue[1..];
    }
  }

  lemma TasksStepKeepsInv(s: State, a: Action)
    requires TasksInv(s.tasks, s.ready) && Enabled(s, a)
    ensures TasksInv(TasksNext(s, a), ReadyNext(s, a))
  {
    var k, k', ready' := s.tasks, TasksNext(s, a), ReadyNext(s, a);
    if a.AddAsync? {
      PurgerKeepsInv(k, a.t, s.ready);
    } else {
      forall u ensures PurgerHolds(k', u) { assert PurgerHolds(k, u); }
      forall u | u in k'.clients ensures PurgeKnown(k', u, ready') {
        assert u in k.clients ==> PurgeKnown(k, u, s.ready);
      }
    }
  }
}
