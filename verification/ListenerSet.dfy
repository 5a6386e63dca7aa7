/**
 * One ordered set of weak pointers. Its comparator locks its arguments, so the order itself
 * changes when a listener expires, also in the middle of a search.
 *
 * The set is its stored sequence together with the shape of the search tree over it. Balancing
 * decides that shape, so every statement here holds for all shapes of the same sequence.
 */
module ListenerSet {
  import opened WeakPointers

  // ---- The comparator ----

  /** SetPredicate: expired entries come before live ones, live ones are ordered by address. */
  predicate Less(live: Snapshot, a: Obj, b: Obj) {
    if b !in live then false
    else if a !in live then true
    else a.addr < b.addr
  }

  predicate Incomparable(live: Snapshot, a: Obj, b: Obj) {
    !Less(live, a, b) && !Less(live, b, a)
  }

  /** For each fixed liveness the comparator is a strict weak order. */
  lemma SetPredicateIsStrictWeakOrder(live: Snapshot, a: Obj, b: Obj, c: Obj)
    ensures !Less(live, a, a)
    ensures Less(live, a, b) ==> !Less(live, b, a)
    ensures Less(live, a, b) && Less(live, b, c) ==> Less(live, a, c)
    ensures Incomparable(live, a, b) && Incomparable(live, b, c) ==> Incomparable(live, a, c)
    ensures Placed(live) && a in live && b in live ==> (Incomparable(live, a, b) <==> a == b)
  {
  }

  ghost predicate OrderedBy(s: seq<Obj>, live: Snapshot) {
    forall i, j | 0 <= i < j < |s| :: !Less(live, s[j], s[i])
  }

  ghost predicate ExpiredPrefix(s: seq<Obj>, live: Snapshot) {
    forall i, j | 0 <= i < j < |s| :: s[i] in live ==> s[j] in live
  }

  /** The live entries are stored by strictly ascending address. */
  ghost predicate AddressSorted(s: seq<Obj>, live: Snapshot) {
    forall i, j | 0 <= i < j < |s| && s[i] in live && s[j] in live :: s[i].addr < s[j].addr
  }

  /** After any expiries a stored sequence is still ordered exactly when the expired entries form a prefix of it. */
  lemma OrderedIffExpiredPrefix(s: seq<Obj>, before: Snapshot, after: Snapshot)
    requires AddressSorted(s, before) && NoRevival(s, before, after)
    ensures OrderedBy(s, after) <==> ExpiredPrefix(s, after)
  {
    if OrderedBy(s, after) {
      forall i, j | 0 <= i < j < |s| && s[i] in after ensures s[j] in after {
        assert !Less(after, s[j], s[i]);
      }
    }
  }

  // ---- Searches through a tree ----

  datatype Tree = Leaf | Node(left: Tree, entry: Obj, right: Tree)

  function Entries(t: Tree): seq<Obj> {
    match t
    case Leaf => []
    case Node(l, x, r) => Entries(l) + [x] + Entries(r)
  }

  /** The liveness that the comparisons of one operation see, numbered in the order they are made. */
  type Clock = nat -> Snapshot

  /** The position of the first entry after k, as a search makes it out from its n-th comparison on. */
  function UpperBound(t: Tree, k: Obj, c: Clock, n: nat): (p: nat)
    ensures p <= |Entries(t)|
  {
    match t
    case Leaf => 0
    case Node(l, x, r) =>
      if Less(c(n), k, x) then UpperBound(l, k, c, n + 1)
      else |Entries(l)| + 1 + UpperBound(r, k, c, n + 1)
  }

  /** The position of the first entry not before k. */
  function LowerBound(t: Tree, k: Obj, c: Clock, n: nat): (p: nat)
    ensures p <= |Entries(t)|
  {
    match t
    case Leaf => 0
    case Node(l, x, r) =>
      if Less(c(n), x, k) then |Entries(l)| + 1 + LowerBound(r, k, c, n + 1)
      else LowerBound(l, k, c, n + 1)
  }

  datatype Range = Range(lo: nat, hi: nat)

  /** The range of entries that erasing k removes: those neither before nor after k. */
  function EqualRange(t: Tree, k: Obj, c: Clock, n: nat): (range: Range)
    ensures range.lo <= range.hi <= |Entries(t)|
  {
    match t
    case Leaf => Range(0, 0)
    case Node(l, x, r) =>
      var here := |Entries(l)|;
      if Less(c(n), x, k) then
        var sub := EqualRange(r, k, c, n + 2);
        Range(here + 1 + sub.lo, here + 1 + sub.hi)
      else if Less(c(n + 1), k, x) then EqualRange(l, k, c, n + 2)
      else Range(LowerBound(l, k, c, n + 2), here + 1 + UpperBound(r, k, c, n + 2 + here))
  }

  /** Insertion looks for the upper bound, and declines when the entry before it is not less than k. */
  predicate Declines(t: Tree, k: Obj, c: Clock) {
    var s, p := Entries(t), UpperBound(t, k, c, 0);
    p > 0 && !Less(c(|s|), s[p - 1], k)
  }

  /**
   * The tree after k was attached to the node at which the search for it ended. That node is
   * compared with k once more, at m, to choose the side on which k replaces the child. When the
   * answer is another one than in the search, the subtree on that side is lost.
   */
  function Attach(t: Tree, k: Obj, c: Clock, n: nat, m: nat): Tree {
    match t
    case Leaf => Node(Leaf, k, Leaf)
    case Node(l, x, r) =>
      if Less(c(n), k, x) then
        if l.Leaf? && !Less(c(m), k, x) then Node(l, x, Node(Leaf, k, Leaf))
        else Node(Attach(l, k, c, n + 1, m), x, r)
      else
        if r.Leaf? && Less(c(m), k, x) then Node(Node(Leaf, k, Leaf), x, r)
        else Node(l, x, Attach(r, k, c, n + 1, m))
  }

  function Inserted(t: Tree, k: Obj, c: Clock): seq<Obj> {
    if Declines(t, k, c) then Entries(t) else Entries(Attach(t, k, c, 0, |Entries(t)| + 1))
  }

  function Erased(t: Tree, k: Obj, c: Clock): seq<Obj> {
    var s, range := Entries(t), EqualRange(t, k, c, 0);
    s[..range.lo] + s[range.hi..]
  }

  function ErasedCount(t: Tree, k: Obj, c: Clock): nat {
    var range := EqualRange(t, k, c, 0);
    range.hi - range.lo
  }

  // ---- Searches while entries may expire ----

  /**
   * How an entry is seen by a clock that runs between two instants: at each of them while it is
   * alive at the last one, at none if it was dead at the first, and never again once it expired.
   */
  ghost predicate Fades(x: Obj, c: Clock, first: Snapshot, last: Snapshot) {
    && (x in last ==> forall m: nat :: x in c(m))
    && (forall m: nat | x in c(m) :: x in first)
    && (forall m: nat, m': nat | m <= m' && x in c(m') :: x in c(m))
  }

  ghost predicate AllFade(s: seq<Obj>, c: Clock, first: Snapshot, last: Snapshot) {
    forall x | x in s :: Fades(x, c, first, last)
  }

  /** A listener that the caller keeps alive. */
  ghost predicate Held(k: Obj, c: Clock, first: Snapshot, last: Snapshot) {
    k in first && k in last && forall m: nat :: k in c(m)
  }

  /** A search for a listener that the caller keeps alive, with the expired entries in front at both ends of it. */
  ghost predicate Search(s: seq<Obj>, k: Obj, c: Clock, first: Snapshot, last: Snapshot) {
    && AllFade(s, c, first, last)
    && Held(k, c, first, last)
    && Placed(first)
    && AddressSorted(s, first)
    && ExpiredPrefix(s, first) && ExpiredPrefix(s, last)
  }

  lemma NodeEntries(l: Tree, x: Obj, r: Tree)
    ensures
      var s, here := Entries(Node(l, x, r)), |Entries(l)|;
      && |s| == here + 1 + |Entries(r)|
      && s[here] == x
      && Entries(l) == s[..here]
      && Entries(r) == s[here + 1..]
      && (forall y :: y in s <==> y in Entries(l) || y == x || y in Entries(r))
  {
  }

  lemma SearchInParts(l: Tree, x: Obj, r: Tree, k: Obj, c: Clock, first: Snapshot, last: Snapshot)
    requires Search(Entries(Node(l, x, r)), k, c, first, last)
    ensures Search(Entries(l), k, c, first, last)
    ensures Search(Entries(r), k, c, first, last)
  {
    NodeEntries(l, x, r);
    var s, here := Entries(Node(l, x, r)), |Entries(l)|;
    PartIsSorted(s, 0, here, first, last);
    PartIsSorted(s, here + 1, |s|, first, last);
  }

  lemma PartIsSorted(s: seq<Obj>, lo: nat, hi: nat, first: Snapshot, last: Snapshot)
    requires AddressSorted(s, first) && ExpiredPrefix(s, first) && ExpiredPrefix(s, last)
    requires lo <= hi <= |s|
    ensures AddressSorted(s[lo..hi], first) && ExpiredPrefix(s[lo..hi], first) && ExpiredPrefix(s[lo..hi], last)
  {
  }

  /** A search for a listener that is not stored. */
  ghost predicate Misses(s: seq<Obj>, k: Obj, c: Clock, first: Snapshot, last: Snapshot) {
    Search(s, k, c, first, last) && k !in s
  }

  lemma MissesInParts(l: Tree, x: Obj, r: Tree, k: Obj, c: Clock, first: Snapshot, last: Snapshot)
    requires Misses(Entries(Node(l, x, r)), k, c, first, last)
    ensures Misses(Entries(l), k, c, first, last) && Misses(Entries(r), k, c, first, last)
    ensures Fades(x, c, first, last) && x != k
  {
    NodeEntries(l, x, r);
    SearchInParts(l, x, r, k, c, first, last);
  }

  /** A stored entry with a larger address than k expires between two instants. */
  ghost predicate LargerExpires(s: seq<Obj>, k: Obj, first: Snapshot, last: Snapshot) {
    exists x :: x in s && x in first && x !in last && k.addr < x.addr
  }

  /**
   * Whatever the shape and whatever expires meanwhile, the upper bound is a gap: the entry after
   * it was alive and is larger than k, the entry before it is expired by now or not larger.
   */
  lemma {:induction false} UpperBoundIsGap(t: Tree, k: Obj, c: Clock, n: nat, first: Snapshot, last: Snapshot)
    requires AllFade(Entries(t), c, first, last) && Held(k, c, first, last)
    ensures IsGap(Entries(t), UpperBound(t, k, c, n), k, c(n + |Entries(t)|), first)
  {
    match t
    case Leaf =>
    case Node(l, x, r) =>
      FadeInParts(l, x, r, c, first, last);
      if Less(c(n), k, x) {
        UpperBoundIsGap(l, k, c, n + 1, first, last);
        GapFromLeft(l, x, r, Entries(l), Entries(r), UpperBound(l, k, c, n + 1), k, c, n, first, last);
      } else {
        UpperBoundIsGap(r, k, c, n + 1, first, last);
        GapFromRight(l, x, r, Entries(l), Entries(r), UpperBound(r, k, c, n + 1), k, c, n, first, last);
      }
  }

  lemma FadeInParts(l: Tree, x: Obj, r: Tree, c: Clock, first: Snapshot, last: Snapshot)
    requires AllFade(Entries(Node(l, x, r)), c, first, last)
    ensures AllFade(Entries(l), c, first, last) && AllFade(Entries(r), c, first, last) && Fades(x, c, first, last)
  {
    NodeEntries(l, x, r);
  }

  lemma GapFromLeft(l: Tree, x: Obj, r: Tree, left: seq<Obj>, right: seq<Obj>, p: nat,
                    k: Obj, c: Clock, n: nat, first: Snapshot, last: Snapshot)
    requires left == Entries(l) && right == Entries(r) && p <= |left|
    requires AllFade(left, c, first, last) && Fades(x, c, first, last) && k in c(n) && Less(c(n), k, x)
    requires IsGap(left, p, k, c(n + 1 + |left|), first)
    ensures var s := Entries(Node(l, x, r)); p <= |s| && IsGap(s, p, k, c(n + |s|), first)
  {
    GapInLeft(left, x, right, p, k, c, n, first, last);
  }

  lemma GapFromRight(l: Tree, x: Obj, r: Tree, left: seq<Obj>, right: seq<Obj>, p: nat,
                     k: Obj, c: Clock, n: nat, first: Snapshot, last: Snapshot)
    requires left == Entries(l) && right == Entries(r) && p <= |right|
    requires AllFade(right, c, first, last) && Fades(x, c, first, last) && k in c(n) && !Less(c(n), k, x)
    requires IsGap(right, p, k, c(n + 1 + |right|), first)
    ensures
      var s := Entries(Node(l, x, r));
      |left| + 1 + p <= |s| && IsGap(s, |left| + 1 + p, k, c(n + |s|), first)
  {
    GapInRight(left, x, right, p, k, c, n, first, last);
  }

  ghost predicate IsGap(s: seq<Obj>, p: nat, k: Obj, now: Snapshot, first: Snapshot)
    requires p <= |s|
  {
    && (p < |s| ==> s[p] in first && k.addr < s[p].addr)
    && (p > 0 ==> s[p - 1] !in now || s[p - 1].addr <= k.addr)
  }

  lemma GapInLeft(left: seq<Obj>, x: Obj, right: seq<Obj>, p: nat,
                  k: Obj, c: Clock, n: nat, first: Snapshot, last: Snapshot)
    requires AllFade(left, c, first, last) && Fades(x, c, first, last) && p <= |left|
    requires Less(c(n), k, x) && k in c(n)
    requires IsGap(left, p, k, c(n + 1 + |left|), first)
    ensures IsGap(left + [x] + right, p, k, c(n + |left + [x] + right|), first)
  {
    if p > 0 {
      assert left[p - 1] in left && Fades(left[p - 1], c, first, last);
      assert n + 1 + |left| <= n + |left + [x] + right|;
      assert (left + [x] + right)[p - 1] == left[p - 1];
    }
    assert (left + [x] + right)[p] == if p < |left| then left[p] else x;
  }

  lemma GapInRight(left: seq<Obj>, x: Obj, right: seq<Obj>, p: nat,
                   k: Obj, c: Clock, n: nat, first: Snapshot, last: Snapshot)
    requires AllFade(right, c, first, last) && Fades(x, c, first, last) && p <= |right|
    requires !Less(c(n), k, x) && k in c(n)
    requires IsGap(right, p, k, c(n + 1 + |right|), first)
    ensures IsGap(left + [x] + right, |left| + 1 + p, k, c(n + |left + [x] + right|), first)
  {
    var s := left + [x] + right;
    assert n + 1 + |right| <= n + |s|;
    assert s[|left| + p] == if p > 0 then right[p - 1] else x;
    if p > 0 {
      assert right[p - 1] in right && Fades(right[p - 1], c, first, last);
    }
    if p < |right| {
      assert s[|left| + 1 + p] == right[p];
    }
  }

  lemma StoredIsDeclined(t: Tree, k: Obj, c: Clock, first: Snapshot, last: Snapshot)
    requires Search(Entries(t), k, c, first, last) && k in Entries(t)
    ensures Declines(t, k, c)
  {
    UpperBoundIsGap(t, k, c, 0, first, last);
    GapIsAfterStored(Entries(t), k, c, first, last, UpperBound(t, k, c, 0));
  }

  lemma GapIsAfterStored(s: seq<Obj>, k: Obj, c: Clock, first: Snapshot, last: Snapshot, p: nat)
    requires Search(s, k, c, first, last) && k in s
    requires p <= |s| && IsGap(s, p, k, c(|s|), first)
    ensures p > 0 && s[p - 1] == k && !Less(c(|s|), s[p - 1], k)
  {
    var at :| 0 <= at < |s| && s[at] == k;
    if p > 0 {
      assert s[p - 1] in s && Fades(s[p - 1], c, first, last);
      assert s[p - 1] in last ==> s[p - 1] in c(|s|);
    }
    assert p == at + 1;
  }

  lemma NewIsNotDeclined(t: Tree, k: Obj, c: Clock, first: Snapshot, last: Snapshot)
    requires Search(Entries(t), k, c, first, last) && k !in Entries(t)
    ensures !Declines(t, k, c)
  {
    var s, p := Entries(t), UpperBound(t, k, c, 0);
    UpperBoundIsGap(t, k, c, 0, first, last);
    if p > 0 && s[p - 1] in c(|s|) {
      assert s[p - 1] in s && Fades(s[p - 1], c, first, last);
      assert s[p - 1] in first && s[p - 1] != k;
    }
  }

  lemma FadingIsNoRevival(s: seq<Obj>, c: Clock, first: Snapshot, last: Snapshot)
    requires AllFade(s, c, first, last)
    ensures NoRevival(s, first, last)
  {
    forall x | x in s && x in last ensures x in first {
      assert Fades(x, c, first, last) && x in c(0);
    }
  }

  /** What lies on which side of a node. */
  lemma AcrossNode(l: Tree, x: Obj, r: Tree, first: Snapshot, last: Snapshot)
    requires AddressSorted(Entries(Node(l, x, r)), first) && ExpiredPrefix(Entries(Node(l, x, r)), last)
    ensures forall a | a in Entries(l) && a in first && x in first :: a.addr < x.addr
    ensures forall b | b in Entries(r) && b in first && x in first :: x.addr < b.addr
    ensures forall a, b | a in Entries(l) && b in Entries(r) && a in first && b in first :: a.addr < b.addr
    ensures forall a | a in Entries(l) && a in last :: x in last
    ensures forall b | b in Entries(r) && x in last :: b in last
  {
    NodeEntries(l, x, r);
    var s, here := Entries(Node(l, x, r)), |Entries(l)|;
    forall a | a in Entries(l) ensures exists i :: 0 <= i < here && s[i] == a {
      var i :| 0 <= i < here && Entries(l)[i] == a;
      assert s[i] == a;
    }
    forall b | b in Entries(r) ensures exists j :: here < j < |s| && s[j] == b {
      var j :| 0 <= j < |Entries(r)| && Entries(r)[j] == b;
      assert s[here + 1 + j] == b;
    }
  }

  /** The live part of a concatenation is sorted when its parts are and lie in order. */
  lemma SortedFromParts(left: seq<Obj>, x: Obj, right: seq<Obj>, live: Snapshot)
    requires AddressSorted(left, live) && AddressSorted(right, live)
    requires forall a | a in left && a in live && x in live :: a.addr < x.addr
    requires forall b | b in right && b in live && x in live :: x.addr < b.addr
    requires forall a, b | a in left && b in right && a in live && b in live :: a.addr < b.addr
    ensures AddressSorted(left + [x] + right, live)
  {
    var s := left + [x] + right;
    forall i | 0 <= i < |s|
      ensures i < |left| ==> s[i] == left[i] && s[i] in left
      ensures i == |left| ==> s[i] == x
      ensures i > |left| ==> s[i] == right[i - |left| - 1] && s[i] in right
    {
    }
  }

  lemma SingleEntries(k: Obj)
    ensures Entries(Node(Leaf, k, Leaf)) == [k]
  {
    assert Entries(Leaf) == [];
  }

  /** What attaching does at a node, and that the searched side is replaced when it is a leaf. */
  lemma AttachAtNode(l: Tree, x: Obj, r: Tree, k: Obj, c: Clock, n: nat, m: nat)
    ensures
      var after := Entries(Attach(Node(l, x, r), k, c, n, m));
      var flips :=
        || (Less(c(n), k, x) && l.Leaf? && !Less(c(m), k, x))
        || (!Less(c(n), k, x) && r.Leaf? && Less(c(m), k, x));
      if flips then after == if Less(c(n), k, x) then [x, k] else [k, x]
      else if Less(c(n), k, x) then after == Entries(Attach(l, k, c, n + 1, m)) + [x] + Entries(r)
      else after == Entries(l) + [x] + Entries(Attach(r, k, c, n + 1, m))
  {
    SingleEntries(k);
    assert Entries(Leaf) == [];
  }

  /** Attaching brings in k and nothing else. */
  lemma {:induction false} AttachContents(t: Tree, k: Obj, c: Clock, n: nat, m: nat)
    ensures k in Entries(Attach(t, k, c, n, m))
    ensures multiset(Entries(Attach(t, k, c, n, m))) <= multiset(Entries(t)) + multiset{k}
  {
    match t
    case Leaf => SingleEntries(k);
    case Node(l, x, r) =>
      AttachAtNode(l, x, r, k, c, n, m);
      if Less(c(n), k, x) {
        AttachContents(l, k, c, n + 1, m);
      } else {
        AttachContents(r, k, c, n + 1, m);
      }
  }

  /** What two comparisons of a node with another listener, at n and later at m, say about it. */
  lemma ComparedTwice(x: Obj, k: Obj, c: Clock, n: nat, m: nat, first: Snapshot, last: Snapshot)
    requires Fades(x, c, first, last) && Held(k, c, first, last) && Placed(first) && x != k && n <= m
    ensures Less(c(n), k, x) ==> x in first && k.addr < x.addr
    ensures Less(c(n), k, x) && !Less(c(m), k, x) ==> x !in last
    ensures !Less(c(n), k, x) ==> !Less(c(m), k, x)
    ensures !Less(c(n), k, x) && x in last ==> x in first && x.addr < k.addr
  {
    assert k in c(n) && k in c(m);
    assert x in c(m) ==> x in c(n);
  }

  /** Whatever expires meanwhile, attaching leaves the live entries sorted. */
  lemma {:induction false} AttachKeepsOrder(t: Tree, k: Obj, c: Clock, n: nat, m: nat, first: Snapshot, last: Snapshot)
    requires Misses(Entries(t), k, c, first, last) && n + |Entries(t)| <= m
    ensures AddressSorted(Entries(Attach(t, k, c, n, m)), last)
  {
    match t
    case Leaf => SingleEntries(k);
    case Node(l, x, r) =>
      assert |Entries(t)| == |Entries(l)| + 1 + |Entries(r)|;
      AttachAtNode(l, x, r, k, c, n, m);
      assert !Less(c(n), k, x) ==> !Less(c(m), k, x) by {
        MissesInParts(l, x, r, k, c, first, last);
        ComparedTwice(x, k, c, n, m, first, last);
      }
      if !Less(c(n), k, x) {
        assert Misses(Entries(r), k, c, first, last) by { MissesInParts(l, x, r, k, c, first, last); }
        AttachKeepsOrder(r, k, c, n + 1, m, first, last);
        OrderFromRight(l, x, r, Attach(r, k, c, n + 1, m), k, c, n, m, first, last);
      } else if l.Leaf? && !Less(c(m), k, x) {
        assert x !in last by {
          MissesInParts(l, x, r, k, c, first, last);
          ComparedTwice(x, k, c, n, m, first, last);
        }
      } else {
        assert Misses(Entries(l), k, c, first, last) by { MissesInParts(l, x, r, k, c, first, last); }
        AttachKeepsOrder(l, k, c, n + 1, m, first, last);
        OrderFromLeft(l, x, r, Attach(l, k, c, n + 1, m), k, c, n, m, first, last);
      }
  }

  lemma OrderFromLeft(l: Tree, x: Obj, r: Tree, l': Tree, k: Obj, c: Clock, n: nat, m: nat,
                      first: Snapshot, last: Snapshot)
    requires Misses(Entries(Node(l, x, r)), k, c, first, last) && Less(c(n), k, x)
    requires AddressSorted(Entries(l'), last) && l' == Attach(l, k, c, n + 1, m)
    ensures AddressSorted(Entries(l') + [x] + Entries(r), last)
  {
    NodeEntries(l, x, r);
    MissesInParts(l, x, r, k, c, first, last);
    AcrossNode(l, x, r, first, last);
    ComparedTwice(x, k, c, n, n, first, last);
    AttachMembers(l, k, c, n + 1, m);
    FadingIsNoRevival(Entries(Node(l, x, r)), c, first, last);
    StaysSorted(Entries(r), first, last);
    SortedFromParts(Entries(l'), x, Entries(r), last);
  }

  lemma OrderFromRight(l: Tree, x: Obj, r: Tree, r': Tree, k: Obj, c: Clock, n: nat, m: nat,
                       first: Snapshot, last: Snapshot)
    requires Misses(Entries(Node(l, x, r)), k, c, first, last) && !Less(c(n), k, x)
    requires AddressSorted(Entries(r'), last) && r' == Attach(r, k, c, n + 1, m)
    ensures AddressSorted(Entries(l) + [x] + Entries(r'), last)
  {
    NodeEntries(l, x, r);
    MissesInParts(l, x, r, k, c, first, last);
    AcrossNode(l, x, r, first, last);
    ComparedTwice(x, k, c, n, n, first, last);
    AttachMembers(r, k, c, n + 1, m);
    FadingIsNoRevival(Entries(Node(l, x, r)), c, first, last);
    StaysSorted(Entries(l), first, last);
    SortedFromParts(Entries(l), x, Entries(r'), last);
  }

  lemma AttachMembers(t: Tree, k: Obj, c: Clock, n: nat, m: nat)
    ensures k in Entries(Attach(t, k, c, n, m))
    ensures forall w | w in Entries(Attach(t, k, c, n, m)) :: w in Entries(t) || w == k
  {
    AttachContents(t, k, c, n, m);
    var s, s' := Entries(t), Entries(Attach(t, k, c, n, m));
    forall w | w in s' ensures w in s || w == k {
      assert w in multiset(s');
      assert w in multiset(s) + multiset{k};
    }
  }

  /**
   * The trees in which an insertion can lose a live listener: some node without a left child is
   * larger than k and expires between the two instants, and a live listener is stored to its right.
   */
  ghost predicate Fragile(t: Tree, k: Obj, first: Snapshot, last: Snapshot) {
    match t
    case Leaf => false
    case Node(l, x, r) =>
      || (l.Leaf? && x in first && x !in last && k.addr < x.addr && exists y :: y in Entries(r) && y in last)
      || Fragile(l, k, first, last)
      || Fragile(r, k, first, last)
  }

  /** In other trees no live listener is lost. */
  lemma {:induction false} AttachLosesNone(t: Tree, k: Obj, c: Clock, n: nat, m: nat, first: Snapshot, last: Snapshot)
    requires Misses(Entries(t), k, c, first, last) && n + |Entries(t)| <= m
    requires !Fragile(t, k, first, last)
    ensures forall w | w in last && w in Entries(t) :: w in Entries(Attach(t, k, c, n, m))
  {
    match t
    case Leaf =>
    case Node(l, x, r) =>
      NodeEntries(l, x, r);
      MissesInParts(l, x, r, k, c, first, last);
      AttachAtNode(l, x, r, k, c, n, m);
      ComparedTwice(x, k, c, n, m, first, last);
      if !Less(c(n), k, x) {
        AttachLosesNone(r, k, c, n + 1, m, first, last);
      } else if !(l.Leaf? && !Less(c(m), k, x)) {
        AttachLosesNone(l, k, c, n + 1, m, first, last);
      }
  }

  lemma QuietInParts(l: Tree, x: Obj, r: Tree, k: Obj, c: Clock, first: Snapshot, last: Snapshot)
    requires Misses(Entries(Node(l, x, r)), k, c, first, last)
    requires !LargerExpires(Entries(Node(l, x, r)), k, first, last)
    ensures Misses(Entries(l), k, c, first, last) && !LargerExpires(Entries(l), k, first, last)
    ensures Misses(Entries(r), k, c, first, last) && !LargerExpires(Entries(r), k, first, last)
  {
    NodeEntries(l, x, r);
    MissesInParts(l, x, r, k, c, first, last);
  }

  lemma NothingFlips(l: Tree, x: Obj, r: Tree, k: Obj, c: Clock, n: nat, m: nat, first: Snapshot, last: Snapshot)
    requires Misses(Entries(Node(l, x, r)), k, c, first, last) && n <= m
    requires !LargerExpires(Entries(Node(l, x, r)), k, first, last)
    ensures Less(c(n), k, x) <==> Less(c(m), k, x)
  {
    NodeEntries(l, x, r);
    MissesInParts(l, x, r, k, c, first, last);
    ComparedTwice(x, k, c, n, m, first, last);
  }

  lemma OneMoreAtNode(l: Tree, x: Obj, r: Tree, k: Obj, c: Clock, n: nat, m: nat)
    requires Less(c(n), k, x) <==> Less(c(m), k, x)
    requires Less(c(n), k, x) ==> multiset(Entries(Attach(l, k, c, n + 1, m))) == multiset(Entries(l)) + multiset{k}
    requires !Less(c(n), k, x) ==> multiset(Entries(Attach(r, k, c, n + 1, m))) == multiset(Entries(r)) + multiset{k}
    ensures multiset(Entries(Attach(Node(l, x, r), k, c, n, m))) == multiset(Entries(Node(l, x, r))) + multiset{k}
  {
    AttachAtNode(l, x, r, k, c, n, m);
  }

  /** Without such an expiry nothing at all is lost. */
  lemma {:induction false} AttachAddsOne(t: Tree, k: Obj, c: Clock, n: nat, m: nat, first: Snapshot, last: Snapshot)
    requires Misses(Entries(t), k, c, first, last) && n + |Entries(t)| <= m
    requires !LargerExpires(Entries(t), k, first, last)
    ensures multiset(Entries(Attach(t, k, c, n, m))) == multiset(Entries(t)) + multiset{k}
  {
    match t
    case Leaf => SingleEntries(k);
    case Node(l, x, r) =>
      assert |Entries(t)| == |Entries(l)| + 1 + |Entries(r)|;
      NothingFlips(l, x, r, k, c, n, m, first, last);
      QuietInParts(l, x, r, k, c, first, last);
      if Less(c(n), k, x) {
        AttachAddsOne(l, k, c, n + 1, m, first, last);
      } else {
        AttachAddsOne(r, k, c, n + 1, m, first, last);
      }
      OneMoreAtNode(l, x, r, k, c, n, m);
  }

  lemma {:induction false} FragileNeedsExpiry(t: Tree, k: Obj, first: Snapshot, last: Snapshot)
    requires Fragile(t, k, first, last)
    ensures LargerExpires(Entries(t), k, first, last)
  {
    if t.Node? {
      NodeEntries(t.left, t.entry, t.right);
      if Fragile(t.left, k, first, last) {
        FragileNeedsExpiry(t.left, k, first, last);
      } else if Fragile(t.right, k, first, last) {
        FragileNeedsExpiry(t.right, k, first, last);
      }
    }
  }

  /**
   * Insertion, whatever expires meanwhile: a stored listener is recognised, another one is added
   * once, and the live entries stay sorted. The other live listeners stay unless the tree is
   * fragile, and nothing is lost unless a larger entry expires meanwhile.
   */
  lemma InsertAddsExactlyOnce(t: Tree, k: Obj, c: Clock, first: Snapshot, last: Snapshot)
    requires Search(Entries(t), k, c, first, last)
    ensures k in Entries(t) ==> Inserted(t, k, c) == Entries(t)
    ensures k !in Entries(t) ==> multiset(Inserted(t, k, c)) <= multiset(Entries(t)) + multiset{k}
    ensures k !in Entries(t) && !LargerExpires(Entries(t), k, first, last)
        ==> multiset(Inserted(t, k, c)) == multiset(Entries(t)) + multiset{k}
    ensures k in Inserted(t, k, c) && forall w | w in Inserted(t, k, c) :: w in Entries(t) || w == k
    ensures !Fragile(t, k, first, last)
        ==> forall w | w in last :: w in Inserted(t, k, c) <==> w in Entries(t) || w == k
    ensures AddressSorted(Inserted(t, k, c), last)
  {
    if k in Entries(t) {
      StoredIsDeclined(t, k, c, first, last);
      FadingIsNoRevival(Entries(t), c, first, last);
      StaysSorted(Entries(t), first, last);
    } else {
      var s, s', m := Entries(t), Inserted(t, k, c), |Entries(t)| + 1;
      assert s' == Entries(Attach(t, k, c, 0, m)) by { NewIsNotDeclined(t, k, c, first, last); }
      assert multiset(s') <= multiset(s) + multiset{k} by { AttachContents(t, k, c, 0, m); }
      assert k in s' && forall w | w in s' :: w in s || w == k by { AttachMembers(t, k, c, 0, m); }
      assert AddressSorted(s', last) by { AttachKeepsOrder(t, k, c, 0, m, first, last); }
      if !Fragile(t, k, first, last) {
        assert forall w | w in last && w in s :: w in s' by { AttachLosesNone(t, k, c, 0, m, first, last); }
      }
      if !LargerExpires(s, k, first, last) {
        assert multiset(s') == multiset(s) + multiset{k} by { AttachAddsOne(t, k, c, 0, m, first, last); }
      }
    }
  }

  lemma StaysSorted(s: seq<Obj>, first: Snapshot, last: Snapshot)
    requires AddressSorted(s, first) && NoRevival(s, first, last)
    ensures AddressSorted(s, last)
  {
    forall i | 0 <= i < |s| ensures s[i] in s {}
  }

  /** x stays before the live k: it has the smaller address, or it was expired already. */
  ghost predicate StaysBefore(x: Obj, k: Obj, first: Snapshot) {
    x.addr < k.addr || x !in first
  }

  /** x stays after k: it has the larger address and does not expire. */
  ghost predicate StaysAfter(x: Obj, k: Obj, last: Snapshot) {
    k.addr < x.addr && x in last
  }

  /** k is stored at one position, after entries that stay before it and before entries that stay after it. */
  ghost predicate Surrounded(s: seq<Obj>, k: Obj, first: Snapshot, last: Snapshot, at: nat) {
    && at < |s| && s[at] == k
    && (forall i | 0 <= i < at :: StaysBefore(s[i], k, first))
    && (forall i | at < i < |s| :: StaysAfter(s[i], k, last))
  }

  lemma ComparesAsItStays(x: Obj, k: Obj, c: Clock, first: Snapshot, last: Snapshot, m: nat)
    requires Fades(x, c, first, last) && Held(k, c, first, last)
    ensures StaysBefore(x, k, first) ==> Less(c(m), x, k)
    ensures StaysAfter(x, k, last) ==> Less(c(m), k, x) && !Less(c(m), x, k)
  {
    assert k in c(m);
  }

  /** A lower bound passes entries that all stay before k. */
  lemma {:induction false} LowerBoundPassesAll(t: Tree, k: Obj, c: Clock, n: nat, first: Snapshot, last: Snapshot)
    requires AllFade(Entries(t), c, first, last) && Held(k, c, first, last)
    requires forall x | x in Entries(t) :: StaysBefore(x, k, first)
    ensures LowerBound(t, k, c, n) == |Entries(t)|
  {
    match t
    case Leaf =>
    case Node(l, x, r) =>
      NodeEntries(l, x, r);
      ComparesAsItStays(x, k, c, first, last, n);
      LowerBoundPassesAll(r, k, c, n + 1, first, last);
  }

  /** An upper bound stops before entries that all stay after k. */
  lemma {:induction false} UpperBoundStopsFirst(t: Tree, k: Obj, c: Clock, n: nat, first: Snapshot, last: Snapshot)
    requires AllFade(Entries(t), c, first, last) && Held(k, c, first, last)
    requires forall x | x in Entries(t) :: StaysAfter(x, k, last)
    ensures UpperBound(t, k, c, n) == 0
  {
    match t
    case Leaf =>
    case Node(l, x, r) =>
      NodeEntries(l, x, r);
      ComparesAsItStays(x, k, c, first, last, n);
      UpperBoundStopsFirst(l, k, c, n + 1, first, last);
  }

  lemma SurroundedInPart(s: seq<Obj>, lo: nat, hi: nat, k: Obj, first: Snapshot, last: Snapshot, at: nat)
    requires Surrounded(s, k, first, last, at)
    requires lo <= at < hi <= |s|
    ensures Surrounded(s[lo..hi], k, first, last, at - lo)
  {
  }

  lemma SurroundedSides(s: seq<Obj>, k: Obj, first: Snapshot, last: Snapshot, at: nat)
    requires Surrounded(s, k, first, last, at)
    ensures forall y | y in s[..at] :: StaysBefore(y, k, first)
    ensures forall y | y in s[at + 1..] :: StaysAfter(y, k, last)
  {
  }

  lemma HitIsRight(l: Tree, x: Obj, r: Tree, k: Obj, c: Clock, n: nat, first: Snapshot, last: Snapshot, at: nat)
    requires AllFade(Entries(Node(l, x, r)), c, first, last) && Held(k, c, first, last)
    requires Surrounded(Entries(Node(l, x, r)), k, first, last, at) && at > |Entries(l)|
    ensures Less(c(n), x, k)
    ensures AllFade(Entries(r), c, first, last)
    ensures Surrounded(Entries(r), k, first, last, at - (|Entries(l)| + 1))
  {
    NodeEntries(l, x, r);
    var s, here := Entries(Node(l, x, r)), |Entries(l)|;
    assert Less(c(n), x, k) by { ComparesAsItStays(x, k, c, first, last, n); }
    SurroundedInPart(s, here + 1, |s|, k, first, last, at);
  }

  lemma HitIsLeft(l: Tree, x: Obj, r: Tree, k: Obj, c: Clock, n: nat, first: Snapshot, last: Snapshot, at: nat)
    requires AllFade(Entries(Node(l, x, r)), c, first, last) && Held(k, c, first, last)
    requires Surrounded(Entries(Node(l, x, r)), k, first, last, at) && at < |Entries(l)|
    ensures !Less(c(n), x, k) && Less(c(n + 1), k, x)
    ensures AllFade(Entries(l), c, first, last)
    ensures Surrounded(Entries(l), k, first, last, at)
  {
    NodeEntries(l, x, r);
    assert !Less(c(n), x, k) by { ComparesAsItStays(x, k, c, first, last, n); }
    assert Less(c(n + 1), k, x) by { ComparesAsItStays(x, k, c, first, last, n + 1); }
    SurroundedInPart(Entries(Node(l, x, r)), 0, |Entries(l)|, k, first, last, at);
  }

  lemma HitIsHere(l: Tree, x: Obj, r: Tree, k: Obj, c: Clock, n: nat, first: Snapshot, last: Snapshot)
    requires AllFade(Entries(Node(l, x, r)), c, first, last) && Held(k, c, first, last)
    requires Surrounded(Entries(Node(l, x, r)), k, first, last, |Entries(l)|)
    ensures EqualRange(Node(l, x, r), k, c, n) == Range(|Entries(l)|, |Entries(l)| + 1)
  {
    NodeEntries(l, x, r);
    var here := |Entries(l)|;
    SurroundedSides(Entries(Node(l, x, r)), k, first, last, here);
    LowerBoundPassesAll(l, k, c, n + 2, first, last);
    UpperBoundStopsFirst(r, k, c, n + 2 + here, first, last);
  }

  /** A stored live listener is the only entry that erasing it removes. */
  lemma {:induction false} EqualRangeHits(
    t: Tree, k: Obj, c: Clock, n: nat, first: Snapshot, last: Snapshot, at: nat)
    requires AllFade(Entries(t), c, first, last) && Held(k, c, first, last)
    requires Surrounded(Entries(t), k, first, last, at)
    ensures EqualRange(t, k, c, n) == Range(at, at + 1)
  {
    match t
    case Leaf =>
    case Node(l, x, r) =>
      if at > |Entries(l)| {
        HitIsRight(l, x, r, k, c, n, first, last, at);
        EqualRangeHits(r, k, c, n + 2, first, last, at - (|Entries(l)| + 1));
      } else if at < |Entries(l)| {
        HitIsLeft(l, x, r, k, c, n, first, last, at);
        EqualRangeHits(l, k, c, n + 2, first, last, at);
      } else {
        HitIsHere(l, x, r, k, c, n, first, last);
      }
  }

  lemma StoredIsSurrounded(s: seq<Obj>, k: Obj, c: Clock, first: Snapshot, last: Snapshot, at: nat)
    requires Search(s, k, c, first, last)
    requires at < |s| && s[at] == k
    ensures Surrounded(s, k, first, last, at)
  {
    forall i | at < i < |s| ensures StaysAfter(s[i], k, last) {
      assert s[i] in s && Fades(s[i], c, first, last);
      assert s[i] in c(0);
    }
  }

  /** What an erasure may remove when its key is not stored: entries that expired by its end, and only in a race. */
  ghost predicate OnlyRaced(s: seq<Obj>, range: Range, k: Obj, first: Snapshot, last: Snapshot)
    requires range.lo <= range.hi <= |s|
  {
    && (forall i | range.lo <= i < range.hi :: s[i] !in last)
    && (range.lo < range.hi ==> LargerExpires(s, k, first, last))
  }

  lemma RacedInPart(s: seq<Obj>, lo: nat, hi: nat, range: Range, k: Obj, first: Snapshot, last: Snapshot)
    requires lo <= hi <= |s| && range.lo <= range.hi <= hi - lo
    requires OnlyRaced(s[lo..hi], range, k, first, last)
    ensures OnlyRaced(s, Range(lo + range.lo, lo + range.hi), k, first, last)
  {
    forall i | lo + range.lo <= i < lo + range.hi ensures s[i] !in last {
      assert s[lo..hi][i - lo] == s[i];
    }
  }

  lemma RacedRight(l: Tree, x: Obj, r: Tree, range: Range, k: Obj, first: Snapshot, last: Snapshot)
    requires range.lo <= range.hi <= |Entries(r)| && OnlyRaced(Entries(r), range, k, first, last)
    ensures |Entries(l)| + 1 + range.hi <= |Entries(Node(l, x, r))|
    ensures OnlyRaced(Entries(Node(l, x, r)),
                      Range(|Entries(l)| + 1 + range.lo, |Entries(l)| + 1 + range.hi), k, first, last)
  {
    NodeEntries(l, x, r);
    RacedInPart(Entries(Node(l, x, r)), |Entries(l)| + 1, |Entries(Node(l, x, r))|, range, k, first, last);
  }

  lemma RacedLeft(l: Tree, x: Obj, r: Tree, range: Range, k: Obj, first: Snapshot, last: Snapshot)
    requires range.lo <= range.hi <= |Entries(l)| && OnlyRaced(Entries(l), range, k, first, last)
    ensures range.hi <= |Entries(Node(l, x, r))|
    ensures OnlyRaced(Entries(Node(l, x, r)), range, k, first, last)
  {
    NodeEntries(l, x, r);
    RacedInPart(Entries(Node(l, x, r)), 0, |Entries(l)|, range, k, first, last);
  }

  lemma {:induction false} EqualRangeMisses(t: Tree, k: Obj, c: Clock, n: nat, first: Snapshot, last: Snapshot)
    requires Misses(Entries(t), k, c, first, last)
    ensures OnlyRaced(Entries(t), EqualRange(t, k, c, n), k, first, last)
  {
    match t
    case Leaf =>
    case Node(l, x, r) =>
      if Less(c(n), x, k) {
        MissesInParts(l, x, r, k, c, first, last);
        EqualRangeMisses(r, k, c, n + 2, first, last);
        RacedRight(l, x, r, EqualRange(r, k, c, n + 2), k, first, last);
      } else if Less(c(n + 1), k, x) {
        MissesInParts(l, x, r, k, c, first, last);
        EqualRangeMisses(l, k, c, n + 2, first, last);
        RacedLeft(l, x, r, EqualRange(l, k, c, n + 2), k, first, last);
      } else {
        ExpiredBetweenComparisons(l, x, r, k, c, n, first, last);
      }
  }

  lemma ExpiredUpTo(s: seq<Obj>, at: nat, range: Range, k: Obj, first: Snapshot, last: Snapshot)
    requires ExpiredPrefix(s, last) && at < |s| && s[at] in first && s[at] !in last && k.addr < s[at].addr
    requires range.lo <= range.hi <= |s|
    requires range.hi > 0 ==> s[range.hi - 1] !in last
    ensures OnlyRaced(s, range, k, first, last)
  {
    assert s[at] in s;
  }

  /** After the node was found larger and expired, so is the last entry that a search of its right subtree passes. */
  lemma PassedInRightIsExpired(
    l: Tree, x: Obj, r: Tree, k: Obj, c: Clock, n: nat, first: Snapshot, last: Snapshot)
    requires Misses(Entries(Node(l, x, r)), k, c, first, last)
    requires x in first && x !in last && k.addr < x.addr
    ensures
      var s, p := Entries(Node(l, x, r)), UpperBound(r, k, c, n);
      && |Entries(l)| + p < |s| && s[|Entries(l)|] == x
      && s[|Entries(l)| + p] !in last
  {
    NodeEntries(l, x, r);
    assert AllFade(Entries(r), c, first, last);
    UpperBoundIsGap(r, k, c, n, first, last);
    PassedIsExpired(Entries(Node(l, x, r)), |Entries(l)|, Entries(r), UpperBound(r, k, c, n),
                    k, c, n + |Entries(r)|, first, last);
  }

  lemma PassedIsExpired(
    s: seq<Obj>, here: nat, right: seq<Obj>, p: nat, k: Obj, c: Clock, n: nat, first: Snapshot, last: Snapshot)
    requires Search(s, k, c, first, last)
    requires here < |s| && right == s[here + 1..] && p <= |right|
    requires s[here] in first && s[here] !in last && k.addr < s[here].addr
    requires p > 0 ==> right[p - 1] !in c(n) || right[p - 1].addr <= k.addr
    ensures s[here + p] !in last
  {
    if p > 0 {
      LargerAndPassedIsExpired(s, here, here + p, k, c, n, first, last);
    }
  }

  /** The node was alive and larger than the key, and expired between the two comparisons with it. */
  lemma ExpiredBetweenComparisons(
    l: Tree, x: Obj, r: Tree, k: Obj, c: Clock, n: nat, first: Snapshot, last: Snapshot)
    requires Misses(Entries(Node(l, x, r)), k, c, first, last)
    requires !Less(c(n), x, k) && !Less(c(n + 1), k, x)
    ensures OnlyRaced(Entries(Node(l, x, r)), EqualRange(Node(l, x, r), k, c, n), k, first, last)
  {
    MissesInParts(l, x, r, k, c, first, last);
    RaceIsExpiry(x, k, c, n, first, last);
    PassedInRightIsExpired(l, x, r, k, c, n + 2 + |Entries(l)|, first, last);
    ExpiredUpTo(Entries(Node(l, x, r)), |Entries(l)|, EqualRange(Node(l, x, r), k, c, n), k, first, last);
  }

  lemma RaceIsExpiry(x: Obj, k: Obj, c: Clock, n: nat, first: Snapshot, last: Snapshot)
    requires Fades(x, c, first, last) && Held(k, c, first, last) && Placed(first) && x != k
    requires !Less(c(n), x, k) && !Less(c(n + 1), k, x)
    ensures x in first && x !in last && k.addr < x.addr
  {
    assert k in c(n) && k in c(n + 1);
    assert x in c(n) && x in first;
  }

  lemma LargerAndPassedIsExpired(
    s: seq<Obj>, i: nat, j: nat, k: Obj, c: Clock, n: nat, first: Snapshot, last: Snapshot)
    requires Search(s, k, c, first, last) && i < j < |s| && s[i] in first && k.addr < s[i].addr
    requires s[j] !in c(n) || s[j].addr <= k.addr
    ensures s[j] !in last
  {
    assert s[j] in s && Fades(s[j], c, first, last);
    assert s[i].addr < s[j].addr;
  }

  /**
   * Erasure, whatever expires meanwhile: a stored listener goes and nothing else; for one that is
   * not stored no live entry goes, and a non-zero count means that a larger entry expired meanwhile.
   */
  lemma EraseRemovesExactly(t: Tree, k: Obj, c: Clock, first: Snapshot, last: Snapshot)
    requires Search(Entries(t), k, c, first, last)
    ensures k in Entries(t) ==>
      && ErasedCount(t, k, c) == 1
      && multiset(Entries(t)) == multiset(Erased(t, k, c)) + multiset{k}
    ensures k !in Entries(t) && ErasedCount(t, k, c) > 0 ==> LargerExpires(Entries(t), k, first, last)
    ensures forall w | w in last :: w in Erased(t, k, c) <==> w in Entries(t) && w != k
    ensures forall w | w in Erased(t, k, c) :: w in Entries(t)
    ensures AddressSorted(Erased(t, k, c), last)
  {
    var s := Entries(t);
    var range := EqualRange(t, k, c, 0);
    FadingIsNoRevival(s, c, first, last);
    RemovalKeepsTheRest(s, range.lo, range.hi, first, last);
    if k in s {
      var at := StoredIsRemoved(t, k, c, first, last);
    } else {
      EqualRangeMisses(t, k, c, 0, first, last);
    }
  }

  lemma StoredIsRemoved(t: Tree, k: Obj, c: Clock, first: Snapshot, last: Snapshot) returns (at: nat)
    requires Search(Entries(t), k, c, first, last) && k in Entries(t)
    ensures EqualRange(t, k, c, 0) == Range(at, at + 1) && at < |Entries(t)| && Entries(t)[at] == k
    ensures multiset(Entries(t)) == multiset(Erased(t, k, c)) + multiset{k}
    ensures forall i | 0 <= i < |Entries(t)| && i != at :: Entries(t)[i] != k
  {
    var s := Entries(t);
    at :| 0 <= at < |s| && s[at] == k;
    StoredIsSurrounded(s, k, c, first, last, at);
    EqualRangeHits(t, k, c, 0, first, last, at);
    RemovesOnlyOne(s, k, first, last, at);
  }

  lemma RemovesOnlyOne(s: seq<Obj>, k: Obj, first: Snapshot, last: Snapshot, at: nat)
    requires Surrounded(s, k, first, last, at) && k in first
    ensures multiset(s) == multiset(s[..at] + s[at + 1..]) + multiset{k}
    ensures forall i | 0 <= i < |s| && i != at :: s[i] != k
  {
    assert s == s[..at] + [k] + s[at + 1..];
    forall i | 0 <= i < |s| && i != at ensures s[i] != k {
      assert i < at ==> StaysBefore(s[i], k, first);
      assert i > at ==> StaysAfter(s[i], k, last);
    }
  }

  lemma RemovalKeepsTheRest(s: seq<Obj>, lo: nat, hi: nat, first: Snapshot, last: Snapshot)
    requires lo <= hi <= |s| && AddressSorted(s, first) && NoRevival(s, first, last)
    ensures AddressSorted(s[..lo] + s[hi..], last)
    ensures forall w :: w in s[..lo] + s[hi..] <==> exists i | 0 <= i < |s| && !(lo <= i < hi) :: s[i] == w
  {
    var r := s[..lo] + s[hi..];
    forall i | 0 <= i < |r| ensures r[i] == s[if i < lo then i else i + hi - lo] && r[i] in s {}
    forall i | 0 <= i < |s| && !(lo <= i < hi) ensures s[i] in r {
      assert r[if i < lo then i else i - (hi - lo)] == s[i];
    }
  }
}
