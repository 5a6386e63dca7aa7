/**
 * Weak pointers whose targets can die at any moment. An object has an identity, which is never
 * used again, and an address, which may be. A snapshot is the set of objects alive at one
 * instant: locking a weak pointer succeeds exactly when its object is in the snapshot, and
 * locked pointers are compared by address.
 */
module WeakPointers {

  datatype Status = SUCCESS | INVALIDPARAM | ALREADY | NOSUCH

  datatype Obj = Obj(id: nat, addr: nat)

  type Snapshot = set<Obj>

  /** Two objects that are alive together have different addresses. */
  ghost predicate Placed(live: Snapshot) {
    forall a, b | a in live && b in live :: a.addr == b.addr ==> a == b
  }

  /** No stored entry that has expired comes to life again; other objects may be created. */
  ghost predicate NoRevival(entries: seq<Obj>, earlier: Snapshot, later: Snapshot) {
    forall w | w in entries && w in later :: w in earlier
  }

  ghost predicate Distinct(entries: seq<Obj>) {
    forall i, j | 0 <= i < j < |entries| :: entries[i] != entries[j]
  }

  /** The entries that are in a set, in stored order. */
  function Live(entries: seq<Obj>, live: Snapshot): (r: seq<Obj>)
    ensures forall w :: w in r <==> w in entries && w in live
  {
    if entries == [] then []
    else
      var n := |entries| - 1;
      assert entries == entries[..n] + [entries[n]];
      Live(entries[..n], live) + if entries[n] in live then [entries[n]] else []
  }

  lemma {:induction false} LiveAppend(entries: seq<Obj>, more: seq<Obj>, live: Snapshot)
    ensures Live(entries + more, live) == Live(entries, live) + Live(more, live)
  {
    if more == [] {
      assert entries + more == entries;
    } else {
      var n := |more| - 1;
      LiveAppend(entries, more[..n], live);
      assert (entries + more)[..|entries + more| - 1] == entries + more[..n];
    }
  }

  /** Filtering twice is filtering once by what both keep. */
  lemma {:induction false} LiveTwice(entries: seq<Obj>, first: Snapshot, second: Snapshot)
    ensures Live(Live(entries, first), second) == Live(entries, first * second)
  {
    if entries != [] {
      var n := |entries| - 1;
      LiveTwice(entries[..n], first, second);
      var last := if entries[n] in first then [entries[n]] else [];
      LiveAppend(Live(entries[..n], first), last, second);
      assert Live([entries[n]], second) == if entries[n] in second then [entries[n]] else [];
    }
  }

  /** Filters that agree on the stored entries have the same result. */
  lemma {:induction false} LiveAgrees(entries: seq<Obj>, first: Snapshot, second: Snapshot)
    requires forall w | w in entries :: w in first <==> w in second
    ensures Live(entries, first) == Live(entries, second)
  {
    if entries != [] {
      LiveAgrees(entries[..|entries| - 1], first, second);
    }
  }
}
