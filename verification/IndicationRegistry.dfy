/**
 * The registry by indication: a map from bit index to an ordered set of weak pointers, and the
 * plain relation between indications and listeners that it stands for.
 */
module IndicationRegistry {
  import opened WeakPointers
  import opened ListenerSet

  type Registrations = map<nat, seq<Obj>>

  /** The tree shapes that one call searches and the liveness that its comparisons see, by bit. */
  datatype Access = Access(shapes: nat -> Tree, clocks: nat -> Clock)

  predicate Selected(mask: seq<bool>, bit: nat) {
    bit < |mask| && mask[bit]
  }

  function SelectedBits(mask: seq<bool>): set<nat> {
    set bit: nat | bit < |mask| && mask[bit]
  }

  /** A bit without an entry in the map has no listeners. */
  function SetFor(m: Registrations, bit: nat): seq<Obj> {
    if bit in m then m[bit] else []
  }

  /** The searches of a call run over the sets that are stored. */
  ghost predicate Shaped(m: Registrations, mask: seq<bool>, access: Access) {
    forall bit: nat | Selected(mask, bit) :: Entries(access.shapes(bit)) == SetFor(m, bit)
  }

  function AfterRegister(m: Registrations, w: Obj, mask: seq<bool>, access: Access): Registrations {
    map bit | bit in m.Keys + SelectedBits(mask) ::
      if Selected(mask, bit) then Inserted(access.shapes(bit), w, access.clocks(bit)) else SetFor(m, bit)
  }

  function AfterDeregister(m: Registrations, w: Obj, mask: seq<bool>, access: Access): Registrations {
    map bit | bit in m ::
      if Selected(mask, bit) then Erased(access.shapes(bit), w, access.clocks(bit)) else m[bit]
  }

  /** The answer to deregistering a live listener. */
  function DeregisterStatus(m: Registrations, w: Obj, mask: seq<bool>, access: Access): Status {
    if exists bit | bit in m :: Selected(mask, bit) && ErasedCount(access.shapes(bit), w, access.clocks(bit)) > 0
    then SUCCESS else NOSUCH
  }

  /** The listeners stored for an indication replace the caller's vector, unless the bit was never registered. */
  function Listing(m: Registrations, bit: nat, vec: seq<Obj>): seq<Obj> {
    if bit in m then m[bit] else vec
  }

  // ---- Single calls ----

  ghost predicate AllSorted(m: Registrations, live: Snapshot) {
    forall bit: nat :: AddressSorted(SetFor(m, bit), live)
  }

  /**
   * A call for a listener that is alive throughout. Entries of the selected sets may expire while
   * it runs, but the expired ones form a prefix of each when it starts and when it ends.
   */
  ghost predicate CallBetween(
    m: Registrations, w: Obj, mask: seq<bool>, access: Access, first: Snapshot, last: Snapshot)
  {
    && Shaped(m, mask, access)
    && forall bit: nat | Selected(mask, bit) ::
      && AllFade(SetFor(m, bit), access.clocks(bit), first, last)
      && Held(w, access.clocks(bit), first, last)
      && ExpiredPrefix(SetFor(m, bit), first) && ExpiredPrefix(SetFor(m, bit), last)
  }

  ghost predicate NothingRevives(m: Registrations, first: Snapshot, last: Snapshot) {
    forall bit: nat :: NoRevival(SetFor(m, bit), first, last)
  }

  /** No selected set is searched through a tree in which inserting w can lose a live listener. */
  ghost predicate NoneFragile(mask: seq<bool>, w: Obj, shapes: nat -> Tree, first: Snapshot, last: Snapshot) {
    forall bit: nat | Selected(mask, bit) :: !Fragile(shapes(bit), w, first, last)
  }

  /** Registering adds the listener to the selected bits; in trees that are not fragile it keeps all other live ones. */
  lemma RegisterAdds(
    m: Registrations, w: Obj, mask: seq<bool>, access: Access, first: Snapshot, last: Snapshot, bit: nat)
    requires CallBetween(m, w, mask, access, first, last)
    requires Placed(first) && AllSorted(m, first) && NothingRevives(m, first, last)
    ensures
      var after := SetFor(AfterRegister(m, w, mask, access), bit);
      && AddressSorted(after, last)
      && (forall x | x in after :: x in SetFor(m, bit) || (x == w && Selected(mask, bit)))
      && (Selected(mask, bit) ==> w in after)
      && (NoneFragile(mask, w, access.shapes, first, last) ==>
           forall x | x in last :: x in after <==> x in SetFor(m, bit) || (x == w && Selected(mask, bit)))
  {
    if Selected(mask, bit) {
      InsertAddsExactlyOnce(access.shapes(bit), w, access.clocks(bit), first, last);
    } else {
      assert NoRevival(SetFor(m, bit), first, last);
      StaysSorted(SetFor(m, bit), first, last);
    }
  }

  lemma DeregisterRemoves(
    m: Registrations, w: Obj, mask: seq<bool>, access: Access, first: Snapshot, last: Snapshot, bit: nat)
    requires CallBetween(m, w, mask, access, first, last)
    requires Placed(first) && AllSorted(m, first) && NothingRevives(m, first, last)
    ensures
      var after := SetFor(AfterDeregister(m, w, mask, access), bit);
      && AddressSorted(after, last)
      && (forall x | x in after :: x in SetFor(m, bit))
      && forall x | x in last :: x in after <==> x in SetFor(m, bit) && !(x == w && Selected(mask, bit))
  {
    if Selected(mask, bit) && bit in m {
      EraseRemovesExactly(access.shapes(bit), w, access.clocks(bit), first, last);
    } else {
      assert NoRevival(SetFor(m, bit), first, last);
      StaysSorted(SetFor(m, bit), first, last);
    }
  }

  /** A listener stored for a selected bit is reported; another one only if some larger listener expired meanwhile. */
  lemma DeregisterStatusIsBounded(
    m: Registrations, w: Obj, mask: seq<bool>, access: Access, first: Snapshot, last: Snapshot)
    requires CallBetween(m, w, mask, access, first, last)
    requires Placed(first) && AllSorted(m, first)
    ensures DeregisterStatus(m, w, mask, access) in {SUCCESS, NOSUCH}
    ensures (exists bit: nat :: Selected(mask, bit) && w in SetFor(m, bit))
        ==> DeregisterStatus(m, w, mask, access) == SUCCESS
    ensures DeregisterStatus(m, w, mask, access) == SUCCESS ==>
      || (exists bit: nat :: Selected(mask, bit) && w in SetFor(m, bit))
      || (exists bit: nat :: Selected(mask, bit) && LargerExpires(SetFor(m, bit), w, first, last))
  {
    forall bit: nat | Selected(mask, bit)
      ensures w in SetFor(m, bit) ==> ErasedCount(access.shapes(bit), w, access.clocks(bit)) == 1
      ensures w !in SetFor(m, bit) && ErasedCount(access.shapes(bit), w, access.clocks(bit)) > 0 ==>
        LargerExpires(SetFor(m, bit), w, first, last)
    {
      EraseRemovesExactly(access.shapes(bit), w, access.clocks(bit), first, last);
    }
    if exists bit: nat :: Selected(mask, bit) && w in SetFor(m, bit) {
      var bit: nat :| Selected(mask, bit) && w in SetFor(m, bit);
      assert bit in m && ErasedCount(access.shapes(bit), w, access.clocks(bit)) > 0;
    } else if DeregisterStatus(m, w, mask, access) == SUCCESS {
      var bit :| bit in m && Selected(mask, bit) && ErasedCount(access.shapes(bit), w, access.clocks(bit)) > 0;
      assert LargerExpires(SetFor(m, bit), w, first, last);
    }
  }

  // ---- Whole runs ----

  /** One call, or a moment in which listeners expire and new objects are created; `end` is the liveness after it. */
  datatype IndicationOp =
    | RegisterFor(w: Obj, mask: seq<bool>, access: Access, end: Snapshot)
    | DeregisterFor(w: Obj, mask: seq<bool>, access: Access, end: Snapshot)
    | Elapse(end: Snapshot)

  function LivenessAfter(ops: seq<IndicationOp>): Snapshot {
    if ops == [] then {} else ops[|ops| - 1].end
  }

  /** All objects that were alive at some moment of the run. */
  function Seen(ops: seq<IndicationOp>): set<Obj> {
    if ops == [] then {} else Seen(ops[..|ops| - 1]) + ops[|ops| - 1].end
  }

  /** Objects are created and die, but one that died is never alive again. */
  ghost predicate LivenessFeasible(seen: set<Obj>, begin: Snapshot, end: Snapshot) {
    Placed(end) && end * seen <= begin
  }

  ghost predicate CallFeasible(m: Registrations, begin: Snapshot, op: IndicationOp) {
    !op.Elapse? && op.w in begin ==>
      && CallBetween(m, op.w, op.mask, op.access, begin, op.end)
      && (op.RegisterFor? ==> NoneFragile(op.mask, op.w, op.access.shapes, begin, op.end))
  }

  ghost predicate Feasible(ops: seq<IndicationOp>)
    decreases |ops|, 0
  {
    ops == [] ||
    var prior := ops[..|ops| - 1];
    var op := ops[|ops| - 1];
    && Feasible(prior)
    && LivenessFeasible(Seen(prior), LivenessAfter(prior), op.end)
    && CallFeasible(MapAfter(prior), LivenessAfter(prior), op)
  }

  /** The stored map after a run; a call for a listener that is not alive is refused. */
  ghost function MapAfter(ops: seq<IndicationOp>): Registrations
    requires Feasible(ops)
    decreases |ops|, 1
  {
    if ops == [] then map[]
    else
      var prior, op := ops[..|ops| - 1], ops[|ops| - 1];
      var m := MapAfter(prior);
      if op.Elapse? || op.w !in LivenessAfter(prior) then m
      else if op.RegisterFor? then AfterRegister(m, op.w, op.mask, op.access)
      else AfterDeregister(m, op.w, op.mask, op.access)
  }

  /** The relation that the run stands for: it knows no order, no trees, and no expiry. */
  ghost function Relation(ops: seq<IndicationOp>): set<(nat, Obj)> {
    if ops == [] then {}
    else
      var prior, op := ops[..|ops| - 1], ops[|ops| - 1];
      var related := Relation(prior);
      if op.Elapse? || op.w !in LivenessAfter(prior) then related
      else
        if op.RegisterFor? then related + Pairs(op.mask, op.w) else related - Pairs(op.mask, op.w)
  }

  /** The bits that any accepted registration of the run selected. */
  ghost function RequestedBits(ops: seq<IndicationOp>): set<nat> {
    if ops == [] then {}
    else
      var prior, op := ops[..|ops| - 1], ops[|ops| - 1];
      RequestedBits(prior) + if op.RegisterFor? && op.w in LivenessAfter(prior) then SelectedBits(op.mask) else {}
  }

  /** The listeners alive after a run are stored for exactly the bits that the relation gives. */
  ghost predicate Refines(m: Registrations, live: Snapshot, related: set<(nat, Obj)>) {
    forall bit: nat, w | w in live :: w in SetFor(m, bit) <==> (bit, w) in related
  }

  /** Whatever is stored or related was alive once. */
  ghost predicate Known(m: Registrations, related: set<(nat, Obj)>, seen: set<Obj>) {
    && (forall bit: nat, w | w in SetFor(m, bit) :: w in seen)
    && (forall bit: nat, w | (bit, w) in related :: w in seen)
  }

  /** After every run the index agrees with the relation on all live listeners, and stays sorted. */
  lemma {:induction false} IndexRefinesRelation(ops: seq<IndicationOp>)
    requires Feasible(ops)
    ensures Refines(MapAfter(ops), LivenessAfter(ops), Relation(ops))
    ensures AllSorted(MapAfter(ops), LivenessAfter(ops))
    ensures MapAfter(ops).Keys == RequestedBits(ops)
    ensures Known(MapAfter(ops), Relation(ops), Seen(ops))
    ensures Placed(LivenessAfter(ops)) && LivenessAfter(ops) <= Seen(ops)
  {
    if ops != [] {
      var prior, op := ops[..|ops| - 1], ops[|ops| - 1];
      IndexRefinesRelation(prior);
      var m, begin, end, related := MapAfter(prior), LivenessAfter(prior), op.end, Relation(prior);
      forall bit: nat ensures NoRevival(SetFor(m, bit), begin, end) {}
      if op.Elapse? || op.w !in begin {
        forall bit: nat ensures AddressSorted(SetFor(m, bit), end) {
          assert NoRevival(SetFor(m, bit), begin, end);
          StaysSorted(SetFor(m, bit), begin, end);
        }
      } else if op.RegisterFor? {
        RegisterStep(m, op.w, op.mask, op.access, begin, end, related, Seen(prior));
      } else {
        DeregisterStep(m, op.w, op.mask, op.access, begin, end, related, Seen(prior));
      }
    }
  }

  function Pairs(mask: seq<bool>, w: Obj): set<(nat, Obj)> {
    set bit | bit in SelectedBits(mask) :: (bit, w)
  }

  lemma RegisterStep(m: Registrations, w: Obj, mask: seq<bool>, access: Access, begin: Snapshot, end: Snapshot,
                     related: set<(nat, Obj)>, seen: set<Obj>)
    requires CallBetween(m, w, mask, access, begin, end) && w in begin && begin <= seen
    requires NoneFragile(mask, w, access.shapes, begin, end)
    requires LivenessFeasible(seen, begin, end) && Placed(begin)
    requires AllSorted(m, begin) && Refines(m, begin, related) && Known(m, related, seen)
    ensures Refines(AfterRegister(m, w, mask, access), end, related + Pairs(mask, w))
    ensures AllSorted(AfterRegister(m, w, mask, access), end)
    ensures Known(AfterRegister(m, w, mask, access), related + Pairs(mask, w), seen + end)
  {
    forall bit: nat ensures NoRevival(SetFor(m, bit), begin, end) {}
    forall bit: nat
      ensures AddressSorted(SetFor(AfterRegister(m, w, mask, access), bit), end)
      ensures forall x | x in SetFor(AfterRegister(m, w, mask, access), bit) ::
                x in SetFor(m, bit) || (x == w && Selected(mask, bit))
      ensures forall x | x in end :: x in SetFor(AfterRegister(m, w, mask, access), bit)
                     <==> x in SetFor(m, bit) || (x == w && Selected(mask, bit))
    {
      RegisterAdds(m, w, mask, access, begin, end, bit);
    }
    PairsAreSelected(mask, w);
  }

  lemma DeregisterStep(m: Registrations, w: Obj, mask: seq<bool>, access: Access, begin: Snapshot, end: Snapshot,
                       related: set<(nat, Obj)>, seen: set<Obj>)
    requires CallBetween(m, w, mask, access, begin, end) && w in begin && begin <= seen
    requires LivenessFeasible(seen, begin, end) && Placed(begin)
    requires AllSorted(m, begin) && Refines(m, begin, related) && Known(m, related, seen)
    ensures Refines(AfterDeregister(m, w, mask, access), end, related - Pairs(mask, w))
    ensures AllSorted(AfterDeregister(m, w, mask, access), end)
    ensures Known(AfterDeregister(m, w, mask, access), related - Pairs(mask, w), seen + end)
  {
    forall bit: nat ensures NoRevival(SetFor(m, bit), begin, end) {}
    forall bit: nat
      ensures AddressSorted(SetFor(AfterDeregister(m, w, mask, access), bit), end)
      ensures forall x | x in SetFor(AfterDeregister(m, w, mask, access), bit) :: x in SetFor(m, bit)
      ensures forall x | x in end :: x in SetFor(AfterDeregister(m, w, mask, access), bit)
                     <==> x in SetFor(m, bit) && !(x == w && Selected(mask, bit))
    {
      DeregisterRemoves(m, w, mask, access, begin, end, bit);
    }
    PairsAreSelected(mask, w);
  }

  lemma PairsAreSelected(mask: seq<bool>, w: Obj)
    ensures forall bit: nat, x :: (bit, x) in Pairs(mask, w) <==> x == w && Selected(mask, bit)
  {
  }

  /**
   * The live part of a listing is exactly the related live listeners, each once, by ascending
   * address. The caller's vector is left alone when the bit was never requested.
   */
  lemma ListingIsTheRelation(ops: seq<IndicationOp>, bit: nat, vec: seq<Obj>)
    requires Feasible(ops)
    ensures
      var live, listing := LivenessAfter(ops), Listing(MapAfter(ops), bit, vec);
      if bit in RequestedBits(ops) then
        && bit in MapAfter(ops) && listing == MapAfter(ops)[bit]
        && AddressSorted(listing, live)
        && forall w | w in live :: w in listing <==> (bit, w) in Relation(ops)
      else
        && listing == vec
        && forall w | w in live :: (bit, w) !in Relation(ops)
  {
    IndexRefinesRelation(ops);
    assert MapAfter(ops).Keys == RequestedBits(ops);
    assert forall w | w in LivenessAfter(ops) :: w in SetFor(MapAfter(ops), bit) <==> (bit, w) in Relation(ops);
  }
}
