/**
 * The plain registry as a sequence of weak pointers, and the insertion-ordered set of live
 * listeners that it simulates although entries may expire between any two locks.
 */
module VectorRegistry {
  import opened WeakPointers

  /**
   * The liveness that the locks of one pass over the entries see: entry i is locked at
   * instant i, and a pass that compares it then locks the given listener at `again[i]`, while
   * the locked entry is held.
   */
  ghost predicate PassOf(entries: seq<Obj>, clock: seq<Snapshot>, again: seq<Snapshot>) {
    && |clock| == |again| == |entries|
    && (forall i | 0 <= i < |entries| :: Placed(again[i]))
    && (forall i | 0 <= i < |entries| && entries[i] in clock[i] :: entries[i] in again[i])
  }

  /** A pass that runs between two instants: it sees nothing revived, and nothing dead that is alive at its end. */
  ghost predicate PassBetween(entries: seq<Obj>, clock: seq<Snapshot>, begin: Snapshot, end: Snapshot) {
    && |clock| == |entries|
    && (forall i | 0 <= i < |entries| && entries[i] in clock[i] :: entries[i] in begin)
    && (forall i | 0 <= i < |entries| && entries[i] in end :: entries[i] in clock[i])
  }

  /** What an erasing pass leaves: the entries alive when it examined them, but not those in `drop`. */
  function Kept(entries: seq<Obj>, clock: seq<Snapshot>, drop: set<Obj>): seq<Obj>
    requires |clock| == |entries|
  {
    if entries == [] then []
    else
      var n := |entries| - 1;
      Kept(entries[..n], clock[..n], drop) + if entries[n] in clock[n] && entries[n] !in drop then [entries[n]] else []
  }

  function Registered(entries: seq<Obj>, live: Snapshot, w: Obj): seq<Obj> {
    if w in live && w !in entries then entries + [w] else entries
  }

  function RegisterStatus(entries: seq<Obj>, live: Snapshot, w: Obj): Status {
    if w !in live then INVALIDPARAM else if w in entries then ALREADY else SUCCESS
  }

  function DeregisterStatus(entries: seq<Obj>, clock: seq<Snapshot>, w: Obj): Status
    requires |clock| == |entries|
  {
    if exists i | 0 <= i < |entries| :: entries[i] == w && w in clock[i] then SUCCESS else NOSUCH
  }

  // ---- Single operations on the stored entries ----

  /** An erasing pass looks at each entry by itself and keeps the order. */
  lemma {:induction false} KeptEntryByEntry(entries: seq<Obj>, clock: seq<Snapshot>, drop: set<Obj>, n: nat)
    requires |clock| == |entries| && n <= |entries|
    ensures Kept(entries, clock, drop) == Kept(entries[..n], clock[..n], drop) + Kept(entries[n..], clock[n..], drop)
    ensures |entries| == 1 ==>
      Kept(entries, clock, drop) == if entries[0] in clock[0] && entries[0] !in drop then entries else []
  {
    if n == |entries| {
      assert entries[..n] == entries && clock[..n] == clock && Kept(entries[n..], clock[n..], drop) == [];
    } else {
      var last := |entries| - 1;
      KeptEntryByEntry(entries[..last], clock[..last], drop, n);
      assert entries[..last][..n] == entries[..n] && clock[..last][..n] == clock[..n];
      assert entries[n..][..last - n] == entries[..last][n..] && clock[n..][..last - n] == clock[..last][n..];
    }
  }

  /** Registering keeps all stored entries, expired ones too, and adds at most the listener. */
  lemma RegisterAppends(entries: seq<Obj>, live: Snapshot, w: Obj)
    ensures Registered(entries, live, w) ==
      entries + if RegisterStatus(entries, live, w) == SUCCESS then [w] else []
    ensures RegisterStatus(entries, live, w) == SUCCESS <==> w in live && w !in entries
    ensures RegisterStatus(entries, live, w) == INVALIDPARAM <==> w !in live
  {
  }

  /** Deregistering answers SUCCESS exactly for a listener that a listing at the same instants shows. */
  lemma {:induction false} DeregisterAnswersAsListing(entries: seq<Obj>, clock: seq<Snapshot>, w: Obj)
    requires |clock| == |entries|
    ensures DeregisterStatus(entries, clock, w) == SUCCESS <==> w in Kept(entries, clock, {})
  {
    if entries != [] {
      var n := |entries| - 1;
      DeregisterAnswersAsListing(entries[..n], clock[..n], w);
      if DeregisterStatus(entries[..n], clock[..n], w) == SUCCESS {
        var i :| 0 <= i < n && entries[..n][i] == w && w in clock[..n][i];
        assert entries[i] == w && w in clock[i];
      }
      if DeregisterStatus(entries, clock, w) == SUCCESS {
        var i :| 0 <= i < |entries| && entries[i] == w && w in clock[i];
        assert i < n ==> entries[..n][i] == w && w in clock[..n][i];
      }
    }
  }

  // ---- Single operations against the set of live listeners ----

  /** To every later snapshot, an erasing pass has removed exactly the dropped listeners. */
  lemma {:induction false} KeptIsRemoval(
    entries: seq<Obj>, clock: seq<Snapshot>, drop: set<Obj>, begin: Snapshot, end: Snapshot)
    requires PassBetween(entries, clock, begin, end)
    ensures Live(Kept(entries, clock, drop), end) == Live(Live(entries, begin), end - drop)
  {
    if entries != [] {
      var n := |entries| - 1;
      var w := entries[n];
      KeptIsRemoval(entries[..n], clock[..n], drop, begin, end);
      LiveAppend(Live(entries[..n], begin), if w in begin then [w] else [], end - drop);
      LiveAppend(Kept(entries[..n], clock[..n], drop), if w in clock[n] && w !in drop then [w] else [], end);
      LiveOfOne(w, end);
      LiveOfOne(w, end - drop);
    }
  }

  lemma LiveOfOne(w: Obj, live: Snapshot)
    ensures Live([w], live) == if w in live then [w] else []
    ensures Live([], live) == []
  {
    assert [w][..0] == [];
  }

  /** A listing lies between the live set at its start and the live set at its end, in the same order. */
  lemma ListingIsBetween(entries: seq<Obj>, clock: seq<Snapshot>, begin: Snapshot, end: Snapshot)
    requires PassBetween(entries, clock, begin, end)
    ensures Live(Kept(entries, clock, {}), end) == Live(Live(entries, begin), end)
    ensures Live(Kept(entries, clock, {}), begin) == Kept(entries, clock, {})
    ensures (forall w | w in entries && w in begin :: w in end) ==> Kept(entries, clock, {}) == Live(entries, begin)
  {
    KeptIsRemoval(entries, clock, {}, begin, end);
    assert end - {} == end;
    ListedAreLive(entries, clock, begin);
    if forall w | w in entries && w in begin :: w in end {
      AllAliveListing(entries, clock, begin, end);
    }
  }

  lemma {:induction false} ListedAreLive(entries: seq<Obj>, clock: seq<Snapshot>, begin: Snapshot)
    requires |clock| == |entries|
    requires forall i | 0 <= i < |entries| && entries[i] in clock[i] :: entries[i] in begin
    ensures Live(Kept(entries, clock, {}), begin) == Kept(entries, clock, {})
  {
    if entries != [] {
      var n := |entries| - 1;
      ListedAreLive(entries[..n], clock[..n], begin);
      LiveAppend(Kept(entries[..n], clock[..n], {}), if entries[n] in clock[n] then [entries[n]] else [], begin);
      assert Live([entries[n]], begin) == if entries[n] in begin then [entries[n]] else [];
    }
  }

  lemma {:induction false} AllAliveListing(entries: seq<Obj>, clock: seq<Snapshot>, begin: Snapshot, end: Snapshot)
    requires PassBetween(entries, clock, begin, end)
    requires forall w | w in entries && w in begin :: w in end
    ensures Kept(entries, clock, {}) == Live(entries, begin)
  {
    if entries != [] {
      var n := |entries| - 1;
      assert entries[n] in entries;
      AllAliveListing(entries[..n], clock[..n], begin, end);
    }
  }

  /**
   * Deregistering answers as the live set dictates: SUCCESS only for a listener in the set at the
   * start, NOSUCH only for one that is not in it at the end, hence exactly for one that stays alive.
   */
  lemma DeregisterStatusIsExact(
    entries: seq<Obj>, clock: seq<Snapshot>, w: Obj, begin: Snapshot, end: Snapshot)
    requires PassBetween(entries, clock, begin, end)
    ensures DeregisterStatus(entries, clock, w) in {SUCCESS, NOSUCH}
    ensures DeregisterStatus(entries, clock, w) == SUCCESS ==> w in Live(entries, begin)
    ensures w in Live(Live(entries, begin), end) ==> DeregisterStatus(entries, clock, w) == SUCCESS
    ensures (w in begin ==> w in end) ==> (DeregisterStatus(entries, clock, w) == SUCCESS <==> w in Live(entries, begin))
  {
    if w in entries && w in end {
      var i :| 0 <= i < |entries| && entries[i] == w;
      assert w in clock[i];
    }
  }

  /** Registering a live listener answers as the live set dictates, and a dead one changes nothing. */
  lemma RegisterIsInsertion(entries: seq<Obj>, w: Obj, begin: Snapshot, end: Snapshot)
    requires NoRevival(entries, begin, end) && (w in begin ==> w in end)
    ensures RegisterStatus(entries, begin, w) ==
      if w !in begin then INVALIDPARAM else if w in Live(entries, begin) then ALREADY else SUCCESS
    ensures Live(Registered(entries, begin, w), end) ==
      Live(Live(entries, begin), end) + if w in begin && w !in Live(entries, begin) then [w] else []
  {
    assert Live(entries, end) == Live(Live(entries, begin), end) by {
      LiveTwice(entries, begin, end);
      LiveAgrees(entries, begin * end, end);
    }
    if w in begin && w !in entries {
      assert Live(entries + [w], end) == Live(entries, end) + [w] by {
        LiveAppend(entries, [w], end);
      }
    }
  }

  lemma {:induction false} KeptStaysDistinct(entries: seq<Obj>, clock: seq<Snapshot>, drop: set<Obj>)
    requires |clock| == |entries| && Distinct(entries)
    ensures Distinct(Kept(entries, clock, drop))
    ensures forall w | w in Kept(entries, clock, drop) :: w in entries && w !in drop
  {
    if entries != [] {
      var n := |entries| - 1;
      KeptStaysDistinct(entries[..n], clock[..n], drop);
      assert entries[n] !in entries[..n];
    }
  }

  // ---- Whole runs ----

  /** One call, or a moment in which listeners expire and new objects are created; `end` is the liveness after it. */
  datatype VectorOp =
    | Register(w: Obj, end: Snapshot)
    | Deregister(w: Obj, clock: seq<Snapshot>, end: Snapshot)
    | List(clock: seq<Snapshot>, end: Snapshot)
    | Elapse(end: Snapshot)

  function LivenessAfter(ops: seq<VectorOp>): Snapshot {
    if ops == [] then {} else ops[|ops| - 1].end
  }

  ghost predicate OpFeasible(entries: seq<Obj>, begin: Snapshot, op: VectorOp) {
    && NoRevival(entries, begin, op.end)
    && match op
       case Register(w, end) => w in begin ==> w in end   // held by the call
       case Deregister(_, clock, end) => PassBetween(entries, clock, begin, end)
       case List(clock, end) => PassBetween(entries, clock, begin, end)
       case Elapse(_) => true
  }

  ghost predicate Feasible(ops: seq<VectorOp>)
    decreases |ops|, 0
  {
    ops == [] ||
    var prior := ops[..|ops| - 1];
    Feasible(prior) && OpFeasible(Stored(prior), LivenessAfter(prior), ops[|ops| - 1])
  }

  /** The stored entries after a run. */
  ghost function Stored(ops: seq<VectorOp>): seq<Obj>
    requires Feasible(ops)
    decreases |ops|, 1
  {
    if ops == [] then []
    else
      var prior := ops[..|ops| - 1];
      match ops[|ops| - 1]
      case Register(w, _) => Registered(Stored(prior), LivenessAfter(prior), w)
      case Deregister(w, clock, _) => Kept(Stored(prior), clock, {w})
      case List(clock, _) => Kept(Stored(prior), clock, {})
      case Elapse(_) => Stored(prior)
  }

  /** The insertion-ordered set of live listeners that the run stands for; it knows no entries and no clocks. */
  ghost function LiveSet(ops: seq<VectorOp>): seq<Obj> {
    if ops == [] then []
    else
      var prior := ops[..|ops| - 1];
      var listeners := LiveSet(prior);
      match ops[|ops| - 1]
      case Register(w, end) =>
        Live(listeners, end) + if w in LivenessAfter(prior) && w !in listeners then [w] else []
      case Deregister(w, _, end) => Live(listeners, end - {w})
      case List(_, end) => Live(listeners, end)
      case Elapse(end) => Live(listeners, end)
  }

  /** After every run the live entries are exactly that set, in its order and without duplicates. */
  lemma {:induction false} VectorRegistrySimulatesSet(ops: seq<VectorOp>)
    requires Feasible(ops)
    ensures Live(Stored(ops), LivenessAfter(ops)) == LiveSet(ops)
    ensures Distinct(Stored(ops))
  {
    if ops != [] {
      var prior, op := ops[..|ops| - 1], ops[|ops| - 1];
      VectorRegistrySimulatesSet(prior);
      var entries, begin := Stored(prior), LivenessAfter(prior);
      match op
      case Register(w, end) =>
        RegisterIsInsertion(entries, w, begin, end);
      case Deregister(w, clock, end) =>
        KeptIsRemoval(entries, clock, {w}, begin, end);
        KeptStaysDistinct(entries, clock, {w});
      case List(clock, end) =>
        ListingIsBetween(entries, clock, begin, end);
        KeptStaysDistinct(entries, clock, {});
      case Elapse(end) =>
        LiveTwice(entries, begin, end);
        LiveAgrees(entries, begin * end, end);
    }
  }

  /** What the calls of a run return is what that set dictates at the moment of the call. */
  lemma CallsAnswerAsTheSet(ops: seq<VectorOp>, op: VectorOp)
    requires Feasible(ops) && OpFeasible(Stored(ops), LivenessAfter(ops), op)
    ensures
      var entries, begin, listeners := Stored(ops), LivenessAfter(ops), LiveSet(ops);
      match op
      case Register(w, _) =>
        RegisterStatus(entries, begin, w) ==
        if w !in begin then INVALIDPARAM else if w in listeners then ALREADY else SUCCESS
      case Deregister(w, clock, end) =>
        && (DeregisterStatus(entries, clock, w) == SUCCESS ==> w in listeners)
        && (w in Live(listeners, end) ==> DeregisterStatus(entries, clock, w) == SUCCESS)
      case List(clock, end) =>
        && Live(Kept(entries, clock, {}), end) == Live(listeners, end)
        && ((forall w | w in listeners :: w in end) ==> Kept(entries, clock, {}) == listeners)
      case Elapse(_) => true
  {
    VectorRegistrySimulatesSet(ops);
    match op
    case Register(w, end) => RegisterIsInsertion(Stored(ops), w, LivenessAfter(ops), end);
    case Deregister(w, clock, end) => DeregisterStatusIsExact(Stored(ops), clock, w, LivenessAfter(ops), end);
    case List(clock, end) => ListingIsBetween(Stored(ops), clock, LivenessAfter(ops), end);
    case Elapse(_) =>
  }
}
