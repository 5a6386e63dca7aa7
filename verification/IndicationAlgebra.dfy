/**
 * The laws of registering by bit mask while all listeners are alive. They hold for the stored
 * map itself, whatever trees the calls search.
 */
module IndicationAlgebra {
  import opened WeakPointers
  import opened ListenerSet
  import opened IndicationRegistry

  datatype Kind = Registering | Deregistering

  datatype IndicationCall = IndicationCall(kind: Kind, w: Obj, mask: seq<bool>, access: Access)

  function Apply(m: Registrations, call: IndicationCall): Registrations {
    match call.kind
    case Registering => AfterRegister(m, call.w, call.mask, call.access)
    case Deregistering => AfterDeregister(m, call.w, call.mask, call.access)
  }

  /** All stored listeners are alive, and each set is sorted, as every run leaves it. */
  ghost predicate AllAlive(m: Registrations, live: Snapshot) {
    && Placed(live) && AllSorted(m, live)
    && forall bit: nat, x | x in SetFor(m, bit) :: x in live
  }

  /** A call during which nothing expires. */
  ghost predicate Quiet(m: Registrations, call: IndicationCall, live: Snapshot) {
    call.w in live && CallBetween(m, call.w, call.mask, call.access, live, live)
  }

  function MaskUnion(a: seq<bool>, b: seq<bool>): seq<bool>
    requires |a| == |b|
  {
    seq(|a|, i requires 0 <= i < |a| => a[i] || b[i])
  }

  /** The stored membership, as pairs of bit and listener. */
  function Members(m: Registrations): set<(nat, Obj)> {
    set bit, x | bit in m && x in m[bit] :: (bit, x)
  }

  function MembersAfter(members: set<(nat, Obj)>, call: IndicationCall): set<(nat, Obj)> {
    match call.kind
    case Registering => members + Pairs(call.mask, call.w)
    case Deregistering => members - Pairs(call.mask, call.w)
  }

  function BitsAfter(bits: set<nat>, call: IndicationCall): set<nat> {
    match call.kind
    case Registering => bits + SelectedBits(call.mask)
    case Deregistering => bits
  }

  /** While nothing expires, inserting loses nothing in any tree. */
  lemma NothingIsFragile(call: IndicationCall, live: Snapshot)
    ensures NoneFragile(call.mask, call.w, call.access.shapes, live, live)
  {
    forall bit: nat | Selected(call.mask, bit) ensures !Fragile(call.access.shapes(bit), call.w, live, live) {
      if Fragile(call.access.shapes(bit), call.w, live, live) {
        FragileNeedsExpiry(call.access.shapes(bit), call.w, live, live);
      }
    }
  }

  /** What one call does to the stored membership and to the bits of the map. */
  lemma CallEffect(m: Registrations, call: IndicationCall, live: Snapshot)
    requires AllAlive(m, live) && Quiet(m, call, live)
    ensures AllAlive(Apply(m, call), live)
    ensures Members(Apply(m, call)) == MembersAfter(Members(m), call)
    ensures Apply(m, call).Keys == BitsAfter(m.Keys, call)
  {
    forall bit: nat ensures NoRevival(SetFor(m, bit), live, live) {}
    PairsAreSelected(call.mask, call.w);
    var after := Apply(m, call);
    forall bit: nat
      ensures AddressSorted(SetFor(after, bit), live)
      ensures forall x :: x in SetFor(after, bit) <==> (bit, x) in MembersAfter(Members(m), call)
    {
      if call.kind.Registering? {
        NothingIsFragile(call, live);
        RegisterAdds(m, call.w, call.mask, call.access, live, live, bit);
      } else {
        DeregisterRemoves(m, call.w, call.mask, call.access, live, live, bit);
      }
      assert forall x :: x in SetFor(m, bit) <==> (bit, x) in Members(m);
    }
    forall bit: nat, x ensures x in SetFor(after, bit) <==> (bit, x) in Members(after) {}
    forall bit: nat, x | x in SetFor(after, bit) ensures x in live {
      assert (bit, x) in MembersAfter(Members(m), call);
      assert x in SetFor(m, bit) || x == call.w;
    }
    assert forall pair :: pair in Members(after) <==> pair in MembersAfter(Members(m), call) by {
      forall pair: (nat, Obj) ensures pair in Members(after) <==> pair in MembersAfter(Members(m), call) {
        assert pair == (pair.0, pair.1);
      }
    }
  }

  /** In a sorted sequence the last element has the largest address. */
  lemma LastIsLargest(s: seq<Obj>, live: Snapshot, x: Obj)
    requires AddressSorted(s, live) && (forall y | y in s :: y in live) && x in s
    ensures x.addr <= s[|s| - 1].addr
    ensures x == s[|s| - 1] <==> x !in s[..|s| - 1]
  {
    assert s[|s| - 1] in s;
    var i :| 0 <= i < |s| && s[i] == x;
    forall j | 0 <= j < |s| - 1 ensures s[j].addr < s[|s| - 1].addr { assert s[j] in s; }
    assert i < |s| - 1 ==> s[..|s| - 1][i] == x;
  }

  /** A sorted sequence of live listeners is determined by its members. */
  lemma {:induction false} SortedIsUnique(s: seq<Obj>, t: seq<Obj>, live: Snapshot)
    requires AddressSorted(s, live) && AddressSorted(t, live) && Placed(live)
    requires forall x | x in s :: x in live
    requires forall x :: x in s <==> x in t
    ensures s == t
  {
    assert s != [] ==> s[|s| - 1] in s;
    assert t != [] ==> t[|t| - 1] in t;
    if s != [] {
      var a, b := s[|s| - 1], t[|t| - 1];
      LastIsLargest(s, live, b);
      LastIsLargest(t, live, a);
      assert a == b;
      var s', t' := s[..|s| - 1], t[..|t| - 1];
      forall x ensures x in s' <==> x in t' {
        if x in s { LastIsLargest(s, live, x); LastIsLargest(t, live, x); }
      }
      SortedIsUnique(s', t', live);
    }
  }

  /** Maps with the same bits and the same members are the same map. */
  lemma SameMembersSameMap(m: Registrations, m': Registrations, live: Snapshot)
    requires AllAlive(m, live) && AllAlive(m', live)
    requires m.Keys == m'.Keys
    requires Members(m) == Members(m')
    ensures m == m'
  {
    forall bit | bit in m ensures m[bit] == m'[bit] {
      assert forall x :: x in m[bit] <==> (bit, x) in Members(m);
      assert forall x :: x in m'[bit] <==> (bit, x) in Members(m');
      assert SetFor(m, bit) == m[bit] && SetFor(m', bit) == m'[bit];
      assert forall x | x in SetFor(m, bit) :: x in live;
      SortedIsUnique(m[bit], m'[bit], live);
    }
  }

  lemma UnionSelectsBoth(a: seq<bool>, b: seq<bool>, w: Obj)
    requires |a| == |b|
    ensures SelectedBits(MaskUnion(a, b)) == SelectedBits(a) + SelectedBits(b)
    ensures Pairs(MaskUnion(a, b), w) == Pairs(a, w) + Pairs(b, w)
  {
    assert SelectedBits(MaskUnion(a, b)) == SelectedBits(a) + SelectedBits(b);
  }

  lemma UnionOfEffects(
    members: set<(nat, Obj)>, bits: set<nat>, a: IndicationCall, b: IndicationCall, both: IndicationCall)
    requires a.kind == b.kind == both.kind == Registering
    requires a.w == b.w == both.w && |a.mask| == |b.mask| && both.mask == MaskUnion(a.mask, b.mask)
    ensures MembersAfter(MembersAfter(members, a), b) == MembersAfter(members, both)
    ensures BitsAfter(BitsAfter(bits, a), b) == BitsAfter(bits, both)
  {
    UnionSelectsBoth(a.mask, b.mask, a.w);
  }

  /** Two calls in a row, as far as members and bits go. */
  lemma TwoCalls(m: Registrations, a: IndicationCall, b: IndicationCall, live: Snapshot)
    requires AllAlive(m, live) && Quiet(m, a, live) && Quiet(Apply(m, a), b, live)
    ensures AllAlive(Apply(Apply(m, a), b), live)
    ensures Members(Apply(Apply(m, a), b)) == MembersAfter(MembersAfter(Members(m), a), b)
    ensures Apply(Apply(m, a), b).Keys == BitsAfter(BitsAfter(m.Keys, a), b)
  {
    CallEffect(m, a, live);
    CallEffect(Apply(m, a), b, live);
  }

  lemma DifferentPairsCommute(members: set<(nat, Obj)>, bits: set<nat>, a: IndicationCall, b: IndicationCall)
    requires a.w != b.w
    ensures MembersAfter(MembersAfter(members, a), b) == MembersAfter(MembersAfter(members, b), a)
    ensures BitsAfter(BitsAfter(bits, a), b) == BitsAfter(BitsAfter(bits, b), a)
  {
    assert Pairs(a.mask, a.w) !! Pairs(b.mask, b.w);
  }

  /** Registering with one mask and then with another is registering with their union. */
  lemma RegistrationIsJoin(
    m: Registrations, live: Snapshot, a: IndicationCall, b: IndicationCall, both: IndicationCall)
    requires AllAlive(m, live)
    requires a.kind == b.kind == both.kind == Registering
    requires a.w == b.w == both.w && |a.mask| == |b.mask| && both.mask == MaskUnion(a.mask, b.mask)
    requires Quiet(m, a, live) && Quiet(Apply(m, a), b, live) && Quiet(m, both, live)
    ensures Apply(Apply(m, a), b) == Apply(m, both)
  {
    TwoCalls(m, a, b, live);
    CallEffect(m, both, live);
    UnionOfEffects(Members(m), m.Keys, a, b, both);
    SameMembersSameMap(Apply(Apply(m, a), b), Apply(m, both), live);
  }

  /** Hence the order of the two masks does not matter. */
  lemma RegistrationOrderIsIrrelevant(
    m: Registrations, live: Snapshot, a: IndicationCall, b: IndicationCall,
    a': IndicationCall, b': IndicationCall, both: IndicationCall)
    requires AllAlive(m, live)
    requires a.kind == b.kind == both.kind == Registering
    requires a.w == b.w == both.w && |a.mask| == |b.mask| && both.mask == MaskUnion(a.mask, b.mask)
    requires (a'.kind, a'.w, a'.mask) == (a.kind, a.w, a.mask) && (b'.kind, b'.w, b'.mask) == (b.kind, b.w, b.mask)
    requires Quiet(m, a, live) && Quiet(Apply(m, a), b, live)
    requires Quiet(m, b', live) && Quiet(Apply(m, b'), a', live) && Quiet(m, both, live)
    ensures Apply(Apply(m, a), b) == Apply(Apply(m, b'), a')
  {
    RegistrationIsJoin(m, live, a, b, both);
    assert MaskUnion(a.mask, b.mask) == MaskUnion(b.mask, a.mask);
    RegistrationIsJoin(m, live, b', a', both);
  }

  /** Repeating a call changes nothing. */
  lemma CallsAreIdempotent(m: Registrations, live: Snapshot, call: IndicationCall, again: IndicationCall)
    requires AllAlive(m, live) && (again.kind, again.w, again.mask) == (call.kind, call.w, call.mask)
    requires Quiet(m, call, live) && Quiet(Apply(m, call), again, live)
    ensures Apply(Apply(m, call), again) == Apply(m, call)
  {
    CallEffect(m, call, live);
    CallEffect(Apply(m, call), again, live);
    SameMembersSameMap(Apply(Apply(m, call), again), Apply(m, call), live);
  }

  /** Calls for different listeners commute, whether they register or deregister. */
  lemma DifferentListenersCommute(
    m: Registrations, live: Snapshot, a: IndicationCall, b: IndicationCall, a': IndicationCall, b': IndicationCall)
    requires AllAlive(m, live) && a.w != b.w
    requires (a'.kind, a'.w, a'.mask) == (a.kind, a.w, a.mask) && (b'.kind, b'.w, b'.mask) == (b.kind, b.w, b.mask)
    requires Quiet(m, a, live) && Quiet(Apply(m, a), b, live)
    requires Quiet(m, b', live) && Quiet(Apply(m, b'), a', live)
    ensures Apply(Apply(m, a), b) == Apply(Apply(m, b'), a')
  {
    TwoCalls(m, a, b, live);
    TwoCalls(m, b', a', live);
    DifferentPairsCommute(Members(m), m.Keys, a, b);
    SameMembersSameMap(Apply(Apply(m, a), b), Apply(Apply(m, b'), a'), live);
  }

  /** Deregistering the mask just registered restores every bit that did not hold the listener, and clears the others. */
  lemma DeregisterUndoesRegister(m: Registrations, live: Snapshot, reg: IndicationCall, dereg: IndicationCall, bit: nat)
    requires AllAlive(m, live)
    requires reg.kind == Registering && dereg.kind == Deregistering && dereg.w == reg.w && dereg.mask == reg.mask
    requires Quiet(m, reg, live) && Quiet(Apply(m, reg), dereg, live)
    ensures !Selected(reg.mask, bit) || reg.w !in SetFor(m, bit)
        ==> SetFor(Apply(Apply(m, reg), dereg), bit) == SetFor(m, bit)
    ensures forall x :: x in SetFor(Apply(Apply(m, reg), dereg), bit)
                   <==> x in SetFor(m, bit) && !(x == reg.w && Selected(reg.mask, bit))
  {
    CallEffect(m, reg, live);
    CallEffect(Apply(m, reg), dereg, live);
    var after := Apply(Apply(m, reg), dereg);
    PairsAreSelected(reg.mask, reg.w);
    assert forall x :: x in SetFor(m, bit) <==> (bit, x) in Members(m);
    assert forall x :: x in SetFor(after, bit) <==> (bit, x) in Members(after);
    if !Selected(reg.mask, bit) || reg.w !in SetFor(m, bit) {
      SortedIsUnique(SetFor(after, bit), SetFor(m, bit), live);
    }
  }
}
