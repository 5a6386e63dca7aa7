/**
 * What calls on the registry by indication can answer, and when they can lose listeners, over
 * all the moments at which stored listeners may expire during the call.
 */
module IndicationLimits {
  import opened WeakPointers
  import opened ListenerSet
  import opened ListenerSetLimits
  import opened ListenerSetTrees
  import opened IndicationRegistry

  // ---- Calls without any condition on the stored order ----

  /**
   * Registering w, wherever expired entries stand and whenever entries expire: it creates the
   * selected bits, leaves the other bits as they are, and brings in nothing but w.
   */
  lemma RegisterBringsInOnly(m: Registrations, w: Obj, mask: seq<bool>, access: Access)
    requires Shaped(m, mask, access)
    ensures
      var after := AfterRegister(m, w, mask, access);
      && after.Keys == m.Keys + SelectedBits(mask)
      && (forall bit: nat | !Selected(mask, bit) :: SetFor(after, bit) == SetFor(m, bit))
      && (forall bit: nat | Selected(mask, bit) ::
           multiset(SetFor(after, bit)) <= multiset(SetFor(m, bit)) + multiset{w})
  {
    var after := AfterRegister(m, w, mask, access);
    forall bit: nat | Selected(mask, bit)
      ensures multiset(SetFor(after, bit)) <= multiset(SetFor(m, bit)) + multiset{w}
    {
      InsertBringsInOnly(access.shapes(bit), w, access.clocks(bit));
    }
  }

  /** While nothing expires, the sets of the selected bits lose nothing, wherever expired entries stand. */
  lemma RegisterLosesNothingWhileStill(m: Registrations, w: Obj, mask: seq<bool>, access: Access, live: Snapshot)
    requires Shaped(m, mask, access) && Placed(live) && w in live
    ensures forall bit: nat | Selected(mask, bit) && Still(access.clocks(bit), live) ::
      var before, after := SetFor(m, bit), SetFor(AfterRegister(m, w, mask, access), bit);
      (after == before && w in before) || multiset(after) == multiset(before) + multiset{w}
  {
    forall bit: nat | Selected(mask, bit) && Still(access.clocks(bit), live)
      ensures
        var before, after := SetFor(m, bit), SetFor(AfterRegister(m, w, mask, access), bit);
        (after == before && w in before) || multiset(after) == multiset(before) + multiset{w}
    {
      StillInsertLosesNothing(access.shapes(bit), w, access.clocks(bit), live);
    }
  }

  /**
   * Deregistering w, wherever expired entries stand and whenever entries expire: other bits stay
   * as they are, nothing is gained, and the answer is SUCCESS exactly when some set has shrunk.
   * While nothing expires a selected bit that does not hold w stays as it is.
   */
  lemma DeregisterReportsWhatItTakes(m: Registrations, w: Obj, mask: seq<bool>, access: Access, live: Snapshot)
    requires Shaped(m, mask, access) && Placed(live) && w in live
    ensures
      var after := AfterDeregister(m, w, mask, access);
      && after.Keys == m.Keys
      && (forall bit: nat | !Selected(mask, bit) :: SetFor(after, bit) == SetFor(m, bit))
      && (forall bit: nat :: multiset(SetFor(after, bit)) <= multiset(SetFor(m, bit)))
      && (forall bit: nat | Selected(mask, bit) && Still(access.clocks(bit), live) && w !in SetFor(m, bit) ::
           SetFor(after, bit) == SetFor(m, bit))
      && ((exists bit: nat :: |SetFor(after, bit)| < |SetFor(m, bit)|) <==>
           DeregisterStatus(m, w, mask, access) == SUCCESS)
  {
    var after := AfterDeregister(m, w, mask, access);
    forall bit: nat
      ensures multiset(SetFor(after, bit)) <= multiset(SetFor(m, bit))
      ensures |SetFor(after, bit)| < |SetFor(m, bit)| <==>
        bit in m && Selected(mask, bit) && ErasedCount(access.shapes(bit), w, access.clocks(bit)) > 0
    {
      EraseTakesWhatItCounts(access.shapes(bit), w, access.clocks(bit));
    }
    forall bit: nat | Selected(mask, bit) && Still(access.clocks(bit), live) && w !in SetFor(m, bit)
      ensures SetFor(after, bit) == SetFor(m, bit)
    {
      StillEraseOfMissing(access.shapes(bit), w, access.clocks(bit), live);
    }
  }

  // ---- The moments of expiry during a call ----

  /** What has died when one bit is served is dead when a later bit is. */
  ghost predicate InBitOrder(clocks: nat -> Clock, first: Snapshot) {
    forall b: nat, b': nat, i: nat, j: nat, x | b < b' && x in first && x in clocks(b')(j) :: x in clocks(b)(i)
  }

  /** Clocks that a call between two instants can see while it searches the given trees. */
  ghost predicate Legal(m: Registrations, w: Obj, mask: seq<bool>, shapes: nat -> Tree, clocks: nat -> Clock,
                        first: Snapshot, last: Snapshot)
  {
    CallBetween(m, w, mask, Access(shapes, clocks), first, last) && InBitOrder(clocks, first)
  }

  ghost predicate CallPossible(
    m: Registrations, w: Obj, mask: seq<bool>, shapes: nat -> Tree, first: Snapshot, last: Snapshot)
  {
    forall bit: nat | Selected(mask, bit) ::
      Entries(shapes(bit)) == SetFor(m, bit) && Searchable(SetFor(m, bit), w, first, last)
  }

  lemma CallIsPossible(m: Registrations, w: Obj, mask: seq<bool>, access: Access, first: Snapshot, last: Snapshot)
    requires CallBetween(m, w, mask, access, first, last)
    requires Placed(first) && AllSorted(m, first) && NothingRevives(m, first, last)
    ensures CallPossible(m, w, mask, access.shapes, first, last)
  {
  }

  /** Everything that expires does so while one bit is served. */
  function DuringBit(bit: nat, clock: Clock, first: Snapshot, last: Snapshot): nat -> Clock {
    (b: nat) => ClockOf(b, bit, clock, first, last)
  }

  function ClockOf(b: nat, bit: nat, clock: Clock, first: Snapshot, last: Snapshot): Clock {
    if b < bit then Frozen(first) else if b == bit then clock else Frozen(last)
  }

  lemma FrozenIsSearch(s: seq<Obj>, k: Obj, live: Snapshot, first: Snapshot, last: Snapshot)
    requires Searchable(s, k, first, last) && (live == first || live == last)
    ensures Search(s, k, Frozen(live), first, last)
  {
    forall y | y in s ensures Fades(y, Frozen(live), first, last) {}
  }

  lemma DuringBitIsLegal(m: Registrations, w: Obj, mask: seq<bool>, shapes: nat -> Tree, bit: nat, clock: Clock,
                         first: Snapshot, last: Snapshot)
    requires CallPossible(m, w, mask, shapes, first, last)
    requires Selected(mask, bit) ==> Search(SetFor(m, bit), w, clock, first, last)
    requires forall i: nat :: first * last <= clock(i)
    ensures Legal(m, w, mask, shapes, DuringBit(bit, clock, first, last), first, last)
  {
    var clocks := DuringBit(bit, clock, first, last);
    forall b: nat | Selected(mask, b) ensures Search(SetFor(m, b), w, clocks(b), first, last) {
      if b != bit { FrozenIsSearch(SetFor(m, b), w, if b < bit then first else last, first, last); }
    }
    assert InBitOrder(clocks, first) by {
      forall b: nat, b': nat, i: nat, j: nat, x | b < b' && x in first && x in clocks(b')(j) ensures x in clocks(b)(i) {
        assert b >= bit ==> clocks(b') == Frozen(last) && x in first * last;
      }
    }
  }

  // ---- Deregistering ----

  ghost predicate StoredFor(m: Registrations, w: Obj, mask: seq<bool>) {
    exists bit: nat :: Selected(mask, bit) && w in SetFor(m, bit)
  }

  /** In some selected set a listener larger than w expires between the two instants. */
  ghost predicate LargerExpiresFor(m: Registrations, w: Obj, mask: seq<bool>, first: Snapshot, last: Snapshot) {
    exists bit: nat :: Selected(mask, bit) && LargerExpires(SetFor(m, bit), w, first, last)
  }

  /** For some moments of expiry, deregistering w answers with this status. */
  ghost predicate MayAnswer(m: Registrations, w: Obj, mask: seq<bool>, shapes: nat -> Tree,
                            first: Snapshot, last: Snapshot, status: Status)
  {
    exists clocks: nat -> Clock ::
      Legal(m, w, mask, shapes, clocks, first, last) &&
      DeregisterStatus(m, w, mask, Access(shapes, clocks)) == status
  }

  lemma RaceMaySucceed(m: Registrations, w: Obj, mask: seq<bool>, shapes: nat -> Tree, bit: nat,
                       first: Snapshot, last: Snapshot)
    requires CallPossible(m, w, mask, shapes, first, last)
    requires Selected(mask, bit) && w !in SetFor(m, bit) && LargerExpires(SetFor(m, bit), w, first, last)
    ensures MayAnswer(m, w, mask, shapes, first, last, SUCCESS)
  {
    var at := RacePoint(shapes(bit), w, 0, first, last);
    var c := SwitchAfter(first, last, at);
    SwitchIsSearch(SetFor(m, bit), w, first, at, first, last);
    var clocks := DuringBit(bit, c, first, last);
    DuringBitIsLegal(m, w, mask, shapes, bit, c, first, last);
    assert bit in m && ErasedCount(shapes(bit), w, clocks(bit)) > 0;
  }

  /** If nothing expires before the call has searched all sets, the answer is right. */
  lemma QuietAnswer(m: Registrations, w: Obj, mask: seq<bool>, shapes: nat -> Tree, first: Snapshot, last: Snapshot)
    requires CallPossible(m, w, mask, shapes, first, last)
    ensures MayAnswer(m, w, mask, shapes, first, last, if StoredFor(m, w, mask) then SUCCESS else NOSUCH)
  {
    var clocks := DuringBit(|mask|, Frozen(first), first, last);
    DuringBitIsLegal(m, w, mask, shapes, |mask|, Frozen(first), first, last);
    forall bit: nat | Selected(mask, bit)
      ensures ErasedCount(shapes(bit), w, clocks(bit)) == if w in SetFor(m, bit) then 1 else 0
    {
      FrozenIsExact(shapes(bit), w, first);
    }
    assert forall bit: nat :: Selected(mask, bit) && w in SetFor(m, bit) ==> bit in m;
  }

  /**
   * Deregistering: every call for a listener stored for a selected bit answers SUCCESS. For
   * another one NOSUCH is always possible, and SUCCESS is possible if and only if a larger
   * listener of some selected set expires during the call.
   */
  lemma DeregisterStatusIsExact(
    m: Registrations, w: Obj, mask: seq<bool>, access: Access, first: Snapshot, last: Snapshot)
    requires CallBetween(m, w, mask, access, first, last)
    requires Placed(first) && AllSorted(m, first) && NothingRevives(m, first, last)
    ensures
      var status := DeregisterStatus(m, w, mask, access);
      && status in {SUCCESS, NOSUCH}
      && (StoredFor(m, w, mask) ==> status == SUCCESS)
      && (status == SUCCESS ==> StoredFor(m, w, mask) || LargerExpiresFor(m, w, mask, first, last))
    ensures MayAnswer(m, w, mask, access.shapes, first, last, SUCCESS)
       <==> StoredFor(m, w, mask) || LargerExpiresFor(m, w, mask, first, last)
    ensures MayAnswer(m, w, mask, access.shapes, first, last, NOSUCH) <==> !StoredFor(m, w, mask)
  {
    DeregisterStatusIsBounded(m, w, mask, access, first, last);
    forall clocks: nat -> Clock | Legal(m, w, mask, access.shapes, clocks, first, last)
      ensures
        var status := DeregisterStatus(m, w, mask, Access(access.shapes, clocks));
        && (StoredFor(m, w, mask) ==> status == SUCCESS)
        && (status == SUCCESS ==> StoredFor(m, w, mask) || LargerExpiresFor(m, w, mask, first, last))
    {
      DeregisterStatusIsBounded(m, w, mask, Access(access.shapes, clocks), first, last);
    }
    CallIsPossible(m, w, mask, access, first, last);
    QuietAnswer(m, w, mask, access.shapes, first, last);
    if !StoredFor(m, w, mask) && LargerExpiresFor(m, w, mask, first, last) {
      var bit: nat :| Selected(mask, bit) && LargerExpires(SetFor(m, bit), w, first, last);
      RaceMaySucceed(m, w, mask, access.shapes, bit, first, last);
    }
  }

  lemma StoredIffRelated(m: Registrations, live: Snapshot, related: set<(nat, Obj)>, w: Obj, mask: seq<bool>)
    requires Refines(m, live, related) && w in live
    ensures StoredFor(m, w, mask) <==> related * Pairs(mask, w) != {}
  {
    PairsAreSelected(mask, w);
    if StoredFor(m, w, mask) {
      var bit: nat :| Selected(mask, bit) && w in SetFor(m, bit);
      assert (bit, w) in related * Pairs(mask, w);
    }
    if related * Pairs(mask, w) != {} {
      var pair :| pair in related * Pairs(mask, w);
      assert pair == (pair.0, w) && w in SetFor(m, pair.0);
    }
  }

  /**
   * After every run, deregistering answers SUCCESS for a listener that the relation has for a
   * selected bit. For another one NOSUCH is always possible, and SUCCESS is possible if and only
   * if a larger listener of some selected set expires during the call.
   */
  lemma DeregisterAnswersAsTheRelation(ops: seq<IndicationOp>, op: IndicationOp)
    requires Feasible(ops) && CallFeasible(MapAfter(ops), LivenessAfter(ops), op)
    requires op.DeregisterFor? && op.w in LivenessAfter(ops)
    requires LivenessFeasible(Seen(ops), LivenessAfter(ops), op.end)
    ensures
      var m, live, hit := MapAfter(ops), LivenessAfter(ops), Relation(ops) * Pairs(op.mask, op.w);
      var status := DeregisterStatus(m, op.w, op.mask, op.access);
      && status in {SUCCESS, NOSUCH}
      && (hit != {} ==> status == SUCCESS)
      && (status == SUCCESS ==> hit != {} || LargerExpiresFor(m, op.w, op.mask, live, op.end))
      && (hit != {} || LargerExpiresFor(m, op.w, op.mask, live, op.end) <==>
           MayAnswer(m, op.w, op.mask, op.access.shapes, live, op.end, SUCCESS))
      && (hit == {} <==> MayAnswer(m, op.w, op.mask, op.access.shapes, live, op.end, NOSUCH))
  {
    IndexRefinesRelation(ops);
    var m, live := MapAfter(ops), LivenessAfter(ops);
    forall bit: nat ensures NoRevival(SetFor(m, bit), live, op.end) {}
    DeregisterStatusIsExact(m, op.w, op.mask, op.access, live, op.end);
    StoredIffRelated(m, live, Relation(ops), op.w, op.mask);
  }

  // ---- Registering ----

  /** Registering keeps every stored listener that is alive at the end. */
  ghost predicate KeepsAllLive(m: Registrations, w: Obj, mask: seq<bool>, access: Access, last: Snapshot) {
    forall bit: nat, x | x in last && x in SetFor(m, bit) :: x in SetFor(AfterRegister(m, w, mask, access), bit)
  }

  /** A fragile tree can cost the call a live listener. */
  lemma FragileMayLose(m: Registrations, w: Obj, mask: seq<bool>, shapes: nat -> Tree, bit: nat,
                       first: Snapshot, last: Snapshot) returns (clocks: nat -> Clock)
    requires CallPossible(m, w, mask, shapes, first, last)
    requires Selected(mask, bit) && Fragile(shapes(bit), w, first, last)
    ensures Legal(m, w, mask, shapes, clocks, first, last)
    ensures !KeepsAllLive(m, w, mask, Access(shapes, clocks), last)
  {
    var c := LosingClock(shapes(bit), w, first, last);
    clocks := DuringBit(bit, c, first, last);
    DuringBitIsLegal(m, w, mask, shapes, bit, c, first, last);
    var x :| x in last && x in Entries(shapes(bit)) && x !in Inserted(shapes(bit), w, c);
    assert SetFor(AfterRegister(m, w, mask, Access(shapes, clocks)), bit) == Inserted(shapes(bit), w, clocks(bit));
  }

  /**
   * After every run, registering leaves the index in agreement with the relation on all live
   * listeners, whenever entries expire during the call, if and only if no selected tree is fragile.
   */
  lemma RegisterRefinesIffNoneFragile(
    ops: seq<IndicationOp>, w: Obj, mask: seq<bool>, access: Access, end: Snapshot)
    requires Feasible(ops) && w in LivenessAfter(ops)
    requires LivenessFeasible(Seen(ops), LivenessAfter(ops), end)
    requires CallBetween(MapAfter(ops), w, mask, access, LivenessAfter(ops), end)
    ensures
      var m, live := MapAfter(ops), LivenessAfter(ops);
      (forall clocks: nat -> Clock | Legal(m, w, mask, access.shapes, clocks, live, end) ::
        Refines(AfterRegister(m, w, mask, Access(access.shapes, clocks)), end, Relation(ops) + Pairs(mask, w)))
      <==> NoneFragile(mask, w, access.shapes, live, end)
  {
    IndexRefinesRelation(ops);
    var m, live, related := MapAfter(ops), LivenessAfter(ops), Relation(ops);
    forall bit: nat ensures NoRevival(SetFor(m, bit), live, end) {}
    CallIsPossible(m, w, mask, access, live, end);
    if NoneFragile(mask, w, access.shapes, live, end) {
      forall clocks: nat -> Clock | Legal(m, w, mask, access.shapes, clocks, live, end)
        ensures Refines(AfterRegister(m, w, mask, Access(access.shapes, clocks)), end, related + Pairs(mask, w))
      {
        RegisterStep(m, w, mask, Access(access.shapes, clocks), live, end, related, Seen(ops));
      }
    } else {
      var bit: nat :| Selected(mask, bit) && Fragile(access.shapes(bit), w, live, end);
      var clocks := FragileMayLose(m, w, mask, access.shapes, bit, live, end);
      LossBreaksRelation(m, w, mask, Access(access.shapes, clocks), live, end, related);
    }
  }

  lemma LossBreaksRelation(m: Registrations, w: Obj, mask: seq<bool>, access: Access,
                           first: Snapshot, last: Snapshot, related: set<(nat, Obj)>)
    requires NothingRevives(m, first, last) && Refines(m, first, related)
    requires !KeepsAllLive(m, w, mask, access, last)
    ensures !Refines(AfterRegister(m, w, mask, access), last, related + Pairs(mask, w))
  {
    var bit: nat, x :|
      x in last && x in SetFor(m, bit) && x !in SetFor(AfterRegister(m, w, mask, access), bit);
    assert NoRevival(SetFor(m, bit), first, last);
    assert x in first && (bit, x) in related + Pairs(mask, w);
  }
}
