/**
 * What insertion and erasure do to the stored sequence in every tree, with no condition on where
 * expired entries stand.
 */
module ListenerSetTrees {
  import opened WeakPointers
  import opened ListenerSet
  import opened ListenerSetLimits

  // ---- Insertion ----

  /** The subtree that k replaces when it is attached: none, unless the parent is compared differently the last time. */
  function Replaced(t: Tree, k: Obj, c: Clock, n: nat, m: nat): Tree {
    match t
    case Leaf => Leaf
    case Node(l, x, r) =>
      if Less(c(n), k, x) then
        if l.Leaf? && !Less(c(m), k, x) then r else Replaced(l, k, c, n + 1, m)
      else
        if r.Leaf? && Less(c(m), k, x) then l else Replaced(r, k, c, n + 1, m)
  }

  /** k came in, the lost entries went, and all others stayed. */
  ghost predicate Conserves(s: seq<Obj>, k: Obj, s': seq<Obj>, lost: seq<Obj>) {
    multiset(s') + multiset(lost) == multiset(s) + multiset{k}
  }

  lemma ConservesOnLeft(left: seq<Obj>, left': seq<Obj>, x: Obj, right: seq<Obj>, k: Obj, lost: seq<Obj>,
                        s: seq<Obj>, s': seq<Obj>)
    requires Conserves(left, k, left', lost) && s == left + [x] + right && s' == left' + [x] + right
    ensures Conserves(s, k, s', lost)
  {
    var before, after := multiset(s) + multiset{k}, multiset(s') + multiset(lost);
    forall y ensures after[y] == before[y] {
      assert (multiset(left') + multiset(lost))[y] == (multiset(left) + multiset{k})[y];
    }
  }

  lemma ConservesOnRight(left: seq<Obj>, x: Obj, right: seq<Obj>, right': seq<Obj>, k: Obj, lost: seq<Obj>,
                         s: seq<Obj>, s': seq<Obj>)
    requires Conserves(right, k, right', lost) && s == left + [x] + right && s' == left + [x] + right'
    ensures Conserves(s, k, s', lost)
  {
    var before, after := multiset(s) + multiset{k}, multiset(s') + multiset(lost);
    forall y ensures after[y] == before[y] {
      assert (multiset(right') + multiset(lost))[y] == (multiset(right) + multiset{k})[y];
    }
  }

  lemma ConservesFlip(left: seq<Obj>, x: Obj, right: seq<Obj>, k: Obj, s: seq<Obj>, s': seq<Obj>)
    requires s == left + [x] + right
    ensures left == [] && s' == [x, k] ==> Conserves(s, k, s', right)
    ensures right == [] && s' == [k, x] ==> Conserves(s, k, s', left)
  {
    assert [x, k] == [x] + [k] && [k, x] == [k] + [x];
  }

  lemma {:induction false} AttachConserves(t: Tree, k: Obj, c: Clock, n: nat, m: nat)
    ensures Conserves(Entries(t), k, Entries(Attach(t, k, c, n, m)), Entries(Replaced(t, k, c, n, m)))
  {
    if t.Leaf? {
      SingleEntries(k);
    } else {
      var l, x, r := t.left, t.entry, t.right;
      var s, s', lost := Entries(t), Entries(Attach(t, k, c, n, m)), Entries(Replaced(t, k, c, n, m));
      AttachAtNode(l, x, r, k, c, n, m);
      if Less(c(n), k, x) {
        if l.Leaf? && !Less(c(m), k, x) {
          ConservesFlip(Entries(l), x, Entries(r), k, s, s');
        } else {
          AttachConserves(l, k, c, n + 1, m);
          ConservesOnLeft(Entries(l), Entries(Attach(l, k, c, n + 1, m)), x, Entries(r), k, lost, s, s');
        }
      } else if r.Leaf? && Less(c(m), k, x) {
        ConservesFlip(Entries(l), x, Entries(r), k, s, s');
      } else {
        AttachConserves(r, k, c, n + 1, m);
        ConservesOnRight(Entries(l), x, Entries(r), Entries(Attach(r, k, c, n + 1, m)), k, lost, s, s');
      }
    }
  }

  /** x compares with k in two ways during the search. */
  ghost predicate Changes(x: Obj, k: Obj, c: Clock) {
    exists i: nat, j: nat :: Less(c(i), k, x) && !Less(c(j), k, x)
  }

  /** There is no such subtree unless some entry compares with k in two ways during the call. */
  lemma {:induction false} ReplacedNeedsChange(t: Tree, k: Obj, c: Clock, n: nat, m: nat)
    requires Replaced(t, k, c, n, m).Node?
    ensures exists x :: x in Entries(t) && Changes(x, k, c)
  {
    var l, x, r := t.left, t.entry, t.right;
    NodeEntries(l, x, r);
    if Less(c(n), k, x) {
      if l.Leaf? && !Less(c(m), k, x) {
        assert x in Entries(t) && Changes(x, k, c);
      } else {
        ReplacedNeedsChange(l, k, c, n + 1, m);
        var y :| y in Entries(l) && Changes(y, k, c);
        assert y in Entries(t);
      }
    } else if r.Leaf? && Less(c(m), k, x) {
      assert x in Entries(t) && Changes(x, k, c);
    } else {
      ReplacedNeedsChange(r, k, c, n + 1, m);
      var y :| y in Entries(r) && Changes(y, k, c);
      assert y in Entries(t);
    }
  }

  /**
   * Insertion, in every tree and on every clock: it declines and changes nothing, or adds k once
   * and loses exactly the subtree that k replaces.
   */
  lemma InsertLosesOnlyWhatItReplaces(t: Tree, k: Obj, c: Clock)
    ensures Declines(t, k, c) ==> Inserted(t, k, c) == Entries(t)
    ensures !Declines(t, k, c) ==>
      Conserves(Entries(t), k, Inserted(t, k, c), Entries(Replaced(t, k, c, 0, |Entries(t)| + 1)))
  {
    if Declines(t, k, c) {
      assert Inserted(t, k, c) == Entries(t);
    } else {
      var m := |Entries(t)| + 1;
      assert Inserted(t, k, c) == Entries(Attach(t, k, c, 0, m));
      AttachConserves(t, k, c, 0, m);
    }
  }

  lemma BoundedByConserved(s: seq<Obj>, k: Obj, s': seq<Obj>, lost: seq<Obj>)
    requires s' == s || Conserves(s, k, s', lost)
    ensures multiset(s') <= multiset(s) + multiset{k}
  {
  }

  lemma InsertBringsInOnly(t: Tree, k: Obj, c: Clock)
    ensures multiset(Inserted(t, k, c)) <= multiset(Entries(t)) + multiset{k}
  {
    InsertLosesOnlyWhatItReplaces(t, k, c);
    BoundedByConserved(Entries(t), k, Inserted(t, k, c), Entries(Replaced(t, k, c, 0, |Entries(t)| + 1)));
  }

  function Spliced(s: seq<Obj>, k: Obj, p: nat): seq<Obj>
    requires p <= |s|
  {
    s[..p] + [k] + s[p..]
  }

  lemma SpliceInLeft(left: seq<Obj>, x: Obj, right: seq<Obj>, k: Obj, p: nat)
    requires p <= |left|
    ensures Spliced(left + [x] + right, k, p) == Spliced(left, k, p) + [x] + right
  {
    var s := left + [x] + right;
    assert s[..p] == left[..p] && s[p..] == left[p..] + [x] + right;
  }

  lemma SpliceInRight(left: seq<Obj>, x: Obj, right: seq<Obj>, k: Obj, p: nat)
    requires p <= |right|
    ensures Spliced(left + [x] + right, k, |left| + 1 + p) == left + [x] + Spliced(right, k, p)
  {
    var s, shift := left + [x] + right, |left| + 1;
    assert s[..shift + p] == left + [x] + right[..p] && s[shift + p..] == right[p..];
  }

  lemma {:induction false} StillAttachIsSplice(t: Tree, k: Obj, c: Clock, n: nat, m: nat, live: Snapshot)
    requires Still(c, live)
    ensures Entries(Attach(t, k, c, n, m)) == Spliced(Entries(t), k, UpperBound(t, k, c, n))
  {
    match t
    case Leaf => SingleEntries(k);
    case Node(l, x, r) =>
      AttachAtNode(l, x, r, k, c, n, m);
      if Less(live, k, x) {
        StillAttachIsSplice(l, k, c, n + 1, m, live);
        SpliceInLeft(Entries(l), x, Entries(r), k, UpperBound(l, k, c, n + 1));
      } else {
        StillAttachIsSplice(r, k, c, n + 1, m, live);
        SpliceInRight(Entries(l), x, Entries(r), k, UpperBound(r, k, c, n + 1));
      }
  }

  /** s' is s with k added at p, after an entry that is expired or smaller and before one that is alive and larger. */
  ghost predicate AddedInGap(s: seq<Obj>, s': seq<Obj>, k: Obj, p: nat, live: Snapshot) {
    && p <= |s| && s' == Spliced(s, k, p)
    && (p > 0 ==> s[p - 1] !in live || s[p - 1].addr < k.addr)
    && (p < |s| ==> s[p] in live && k.addr < s[p].addr)
  }

  lemma AddedInGapAddsOne(s: seq<Obj>, s': seq<Obj>, k: Obj, p: nat, live: Snapshot)
    requires AddedInGap(s, s', k, p, live)
    ensures multiset(s') == multiset(s) + multiset{k}
  {
    assert s == s[..p] + s[p..];
  }

  lemma UndeclinedIsInGap(s: seq<Obj>, s': seq<Obj>, p: nat, k: Obj, live: Snapshot)
    requires k in live && Placed(live) && p <= |s| && IsGap(s, p, k, live, live)
    requires !(p > 0 && !Less(live, s[p - 1], k)) && s' == Spliced(s, k, p)
    ensures AddedInGap(s, s', k, p, live)
  {
  }

  lemma DeclinedIsStored(s: seq<Obj>, p: nat, k: Obj, live: Snapshot)
    requires k in live && Placed(live) && p <= |s| && IsGap(s, p, k, live, live)
    requires p > 0 && !Less(live, s[p - 1], k)
    ensures k in s
  {
    assert s[p - 1] in s;
  }

  lemma StillDeclinedIsStored(t: Tree, k: Obj, c: Clock, live: Snapshot)
    requires k in live && Placed(live) && Still(c, live) && Declines(t, k, c)
    ensures k in Entries(t)
  {
    StillUpperBoundIsGap(t, k, c, 0, live);
    DeclinedIsStored(Entries(t), UpperBound(t, k, c, 0), k, live);
  }

  lemma StillInsertIsSplice(t: Tree, k: Obj, c: Clock, live: Snapshot)
    requires Still(c, live) && !Declines(t, k, c)
    ensures Inserted(t, k, c) == Spliced(Entries(t), k, UpperBound(t, k, c, 0))
  {
    StillAttachIsSplice(t, k, c, 0, |Entries(t)| + 1, live);
  }

  lemma StillUndeclinedIsInGap(t: Tree, k: Obj, c: Clock, live: Snapshot, s': seq<Obj>)
    requires k in live && Placed(live) && Still(c, live) && !Declines(t, k, c)
    requires s' == Spliced(Entries(t), k, UpperBound(t, k, c, 0))
    ensures AddedInGap(Entries(t), s', k, UpperBound(t, k, c, 0), live)
  {
    StillUpperBoundIsGap(t, k, c, 0, live);
    UndeclinedIsInGap(Entries(t), s', UpperBound(t, k, c, 0), k, live);
  }

  /**
   * While nothing expires, inserting a live listener loses nothing in any tree: it is declined
   * because the listener is stored, or puts it in a gap.
   */
  lemma StillInsertFindsGap(t: Tree, k: Obj, c: Clock, live: Snapshot)
    requires k in live && Placed(live) && Still(c, live)
    ensures Declines(t, k, c) ==> Inserted(t, k, c) == Entries(t) && k in Entries(t)
    ensures !Declines(t, k, c) ==> AddedInGap(Entries(t), Inserted(t, k, c), k, UpperBound(t, k, c, 0), live)
  {
    if Declines(t, k, c) {
      StillDeclinedIsStored(t, k, c, live);
    } else {
      StillInsertIsSplice(t, k, c, live);
      StillUndeclinedIsInGap(t, k, c, live, Inserted(t, k, c));
    }
  }

  /** So the stored sequence stays as it was, with the listener in it, or has the listener once more. */
  lemma StillInsertLosesNothing(t: Tree, k: Obj, c: Clock, live: Snapshot)
    requires k in live && Placed(live) && Still(c, live)
    ensures (Inserted(t, k, c) == Entries(t) && k in Entries(t))
         || multiset(Inserted(t, k, c)) == multiset(Entries(t)) + multiset{k}
  {
    StillInsertFindsGap(t, k, c, live);
    if !Declines(t, k, c) {
      AddedInGapAddsOne(Entries(t), Inserted(t, k, c), k, UpperBound(t, k, c, 0), live);
    }
  }

  // ---- Erasure ----

  lemma CutIsSmaller(s: seq<Obj>, lo: nat, hi: nat, s': seq<Obj>)
    requires lo <= hi <= |s| && s' == s[..lo] + s[hi..]
    ensures |s'| + (hi - lo) == |s| && multiset(s') <= multiset(s)
  {
    assert s == s[..lo] + s[lo..hi] + s[hi..];
  }

  /** Erasure, in every tree and on every clock, removes as many entries as it counts, and changes no other. */
  lemma EraseTakesWhatItCounts(t: Tree, k: Obj, c: Clock)
    ensures |Erased(t, k, c)| + ErasedCount(t, k, c) == |Entries(t)|
    ensures multiset(Erased(t, k, c)) <= multiset(Entries(t))
  {
    CutIsSmaller(Entries(t), EqualRange(t, k, c, 0).lo, EqualRange(t, k, c, 0).hi, Erased(t, k, c));
  }

  lemma {:induction false} StillRangeMisses(t: Tree, k: Obj, c: Clock, n: nat, live: Snapshot)
    requires k in live && Placed(live) && Still(c, live) && k !in Entries(t)
    ensures EqualRange(t, k, c, n).lo == EqualRange(t, k, c, n).hi
  {
    match t
    case Leaf =>
    case Node(l, x, r) =>
      NodeEntries(l, x, r);
      RangeFromPart(l, x, r, k, c, n);
      if Less(live, x, k) {
        StillRangeMisses(r, k, c, n + 2, live);
      } else if Less(live, k, x) {
        StillRangeMisses(l, k, c, n + 2, live);
      }
  }

  /** While nothing expires, erasing a live listener that is not stored changes nothing in any tree. */
  lemma StillEraseOfMissing(t: Tree, k: Obj, c: Clock, live: Snapshot)
    requires k in live && Placed(live) && Still(c, live) && k !in Entries(t)
    ensures ErasedCount(t, k, c) == 0 && Erased(t, k, c) == Entries(t)
  {
    StillRangeMisses(t, k, c, 0, live);
    var s, lo := Entries(t), EqualRange(t, k, c, 0).lo;
    assert s == s[..lo] + s[lo..];
  }

  // ---- Exactly when a stored listener is found ----

  ghost predicate LeftEdgeAlive(t: Tree, live: Snapshot) {
    t.Node? ==> t.entry in live && LeftEdgeAlive(t.left, live)
  }

  /**
   * No expired node has k in its left subtree, and the nodes on the left edge of the subtree
   * right of k are alive.
   */
  ghost predicate Clear(t: Tree, k: Obj, live: Snapshot) {
    match t
    case Leaf => true
    case Node(l, x, r) =>
      if x == k then LeftEdgeAlive(r, live)
      else if k in Entries(l) then x in live && Clear(l, k, live)
      else Clear(r, k, live)
  }

  lemma {:induction false} StopsFirstIffEdgeAlive(t: Tree, k: Obj, c: Clock, n: nat, live: Snapshot)
    requires k in live && Still(c, live)
    requires forall y | y in Entries(t) && y in live :: k.addr < y.addr
    ensures UpperBound(t, k, c, n) == 0 <==> LeftEdgeAlive(t, live)
  {
    match t
    case Leaf =>
    case Node(l, x, r) =>
      NodeEntries(l, x, r);
      if Less(live, k, x) {
        StopsFirstIffEdgeAlive(l, k, c, n + 1, live);
      }
  }

  lemma {:induction false} PassesSmaller(t: Tree, k: Obj, c: Clock, n: nat, live: Snapshot)
    requires k in live && Still(c, live)
    requires forall y | y in Entries(t) && y in live :: y.addr < k.addr
    ensures LowerBound(t, k, c, n) == |Entries(t)|
  {
    match t
    case Leaf =>
    case Node(l, x, r) =>
      NodeEntries(l, x, r);
      PassesSmaller(r, k, c, n + 1, live);
  }

  /** What lies on which side of a node that is compared with a stored k. */
  lemma SideOfStored(l: Tree, x: Obj, r: Tree, k: Obj, live: Snapshot)
    requires AddressSorted(Entries(Node(l, x, r)), live) && Placed(live) && k in live
    requires k in Entries(Node(l, x, r))
    ensures AddressSorted(Entries(l), live) && AddressSorted(Entries(r), live)
    ensures x == k ==> k !in Entries(l) && k !in Entries(r)
    ensures x == k ==> forall y | y in Entries(l) && y in live :: y.addr < k.addr
    ensures x == k ==> forall y | y in Entries(r) && y in live :: k.addr < y.addr
    ensures x != k && k in Entries(l) ==> k !in Entries(r) && (x in live ==> k.addr < x.addr)
    ensures x != k && k !in Entries(l) ==> k in Entries(r) && (x in live ==> x.addr < k.addr)
  {
    NodeEntries(l, x, r);
    AcrossNode(l, x, r, live, {});
    SliceStaysSorted(Entries(Node(l, x, r)), 0, |Entries(l)|, live);
    SliceStaysSorted(Entries(Node(l, x, r)), |Entries(l)| + 1, |Entries(Node(l, x, r))|, live);
  }

  lemma SliceStaysSorted(s: seq<Obj>, lo: nat, hi: nat, live: Snapshot)
    requires AddressSorted(s, live) && lo <= hi <= |s|
    ensures AddressSorted(s[lo..hi], live)
  {
  }

  /** Position p lies right after an entry k. */
  ghost predicate EndsAfter(s: seq<Obj>, k: Obj, p: nat) {
    0 < p <= |s| && s[p - 1] == k
  }

  lemma EndsInRight(left: seq<Obj>, x: Obj, right: seq<Obj>, k: Obj, p: nat)
    requires p <= |right|
    ensures EndsAfter(left + [x] + right, k, |left| + 1 + p) <==> (if p == 0 then x == k else EndsAfter(right, k, p))
  {
  }

  lemma EndsInLeft(left: seq<Obj>, x: Obj, right: seq<Obj>, k: Obj, p: nat)
    requires p <= |left|
    ensures EndsAfter(left + [x] + right, k, p) <==> EndsAfter(left, k, p)
  {
  }

  lemma EndsAfterKey(l: Tree, k: Obj, r: Tree, c: Clock, n: nat, live: Snapshot)
    requires k in live && Still(c, live) && k !in Entries(r)
    requires forall y | y in Entries(r) && y in live :: k.addr < y.addr
    ensures EndsAfter(Entries(Node(l, k, r)), k, UpperBound(Node(l, k, r), k, c, n)) <==> LeftEdgeAlive(r, live)
  {
    StopsFirstIffEdgeAlive(r, k, c, n + 1, live);
    EndsInRight(Entries(l), k, Entries(r), k, UpperBound(r, k, c, n + 1));
    assert UpperBound(Node(l, k, r), k, c, n) == |Entries(l)| + 1 + UpperBound(r, k, c, n + 1);
  }

  lemma {:induction false} UpperBoundEndsAfterIffClear(t: Tree, k: Obj, c: Clock, n: nat, live: Snapshot)
    requires AddressSorted(Entries(t), live) && Placed(live) && k in live && k in Entries(t) && Still(c, live)
    ensures EndsAfter(Entries(t), k, UpperBound(t, k, c, n)) <==> Clear(t, k, live)
  {
    var l, x, r := t.left, t.entry, t.right;
    if x == k {
      SideOfStored(l, x, r, k, live);
      EndsAfterKey(l, k, r, c, n, live);
    } else if k in Entries(l) {
      assert k !in Entries(r) && (x in live ==> k.addr < x.addr) by { SideOfStored(l, x, r, k, live); }
      if x in live {
        assert AddressSorted(Entries(l), live) by { SideOfStored(l, x, r, k, live); }
        UpperBoundEndsAfterIffClear(l, k, c, n + 1, live);
        EndsInLeft(Entries(l), x, Entries(r), k, UpperBound(l, k, c, n + 1));
      } else {
        EndsInRight(Entries(l), x, Entries(r), k, UpperBound(r, k, c, n + 1));
      }
    } else {
      assert AddressSorted(Entries(r), live) && k in Entries(r) && (x in live ==> x.addr < k.addr) by {
        SideOfStored(l, x, r, k, live);
      }
      UpperBoundEndsAfterIffClear(r, k, c, n + 1, live);
      EndsInRight(Entries(l), x, Entries(r), k, UpperBound(r, k, c, n + 1));
    }
  }

  /** The number of entries in the range to erase. */
  function Width(t: Tree, k: Obj, c: Clock, n: nat): nat {
    EqualRange(t, k, c, n).hi - EqualRange(t, k, c, n).lo
  }

  lemma WidthFromPart(l: Tree, x: Obj, r: Tree, k: Obj, c: Clock, n: nat)
    ensures
      var here := |Entries(l)|;
      Width(Node(l, x, r), k, c, n) ==
        if Less(c(n), x, k) then Width(r, k, c, n + 2)
        else if Less(c(n + 1), k, x) then Width(l, k, c, n + 2)
        else here - LowerBound(l, k, c, n + 2) + 1 + UpperBound(r, k, c, n + 2 + here)
  {
  }

  lemma WidthPastSmaller(l: Tree, k: Obj, r: Tree, c: Clock, n: nat, live: Snapshot)
    requires k in live && Still(c, live) && LowerBound(l, k, c, n + 2) == |Entries(l)|
    ensures Width(Node(l, k, r), k, c, n) == 1 + UpperBound(r, k, c, n + 2 + |Entries(l)|)
  {
    WidthFromPart(l, k, r, k, c, n);
  }

  lemma WidthAtKey(l: Tree, k: Obj, r: Tree, c: Clock, n: nat, live: Snapshot)
    requires k in live && Still(c, live)
    requires forall y | y in Entries(l) && y in live :: y.addr < k.addr
    requires forall y | y in Entries(r) && y in live :: k.addr < y.addr
    ensures Width(Node(l, k, r), k, c, n) == 1 <==> LeftEdgeAlive(r, live)
  {
    var n' := n + 2 + |Entries(l)|;
    PassesSmaller(l, k, c, n + 2, live);
    WidthPastSmaller(l, k, r, c, n, live);
    StopsFirstIffEdgeAlive(r, k, c, n', live);
  }

  lemma {:induction false} WidthIsOneIffClear(t: Tree, k: Obj, c: Clock, n: nat, live: Snapshot)
    requires AddressSorted(Entries(t), live) && Placed(live) && k in live && k in Entries(t) && Still(c, live)
    ensures Width(t, k, c, n) == 1 <==> Clear(t, k, live)
  {
    var l, x, r := t.left, t.entry, t.right;
    if x == k {
      assert (forall y | y in Entries(l) && y in live :: y.addr < k.addr)
          && (forall y | y in Entries(r) && y in live :: k.addr < y.addr) by { SideOfStored(l, x, r, k, live); }
      WidthAtKey(l, k, r, c, n, live);
    } else if k in Entries(l) {
      assert k !in Entries(r) && (x in live ==> k.addr < x.addr) by { SideOfStored(l, x, r, k, live); }
      WidthFromPart(l, x, r, k, c, n);
      if x in live {
        assert AddressSorted(Entries(l), live) by { SideOfStored(l, x, r, k, live); }
        WidthIsOneIffClear(l, k, c, n + 2, live);
      } else {
        StillRangeMisses(r, k, c, n + 2, live);
      }
    } else {
      assert AddressSorted(Entries(r), live) && k in Entries(r) && (x in live ==> x.addr < k.addr) by {
        SideOfStored(l, x, r, k, live);
      }
      WidthFromPart(l, x, r, k, c, n);
      WidthIsOneIffClear(r, k, c, n + 2, live);
    }
  }

  lemma DeclinesIffEndsAfter(t: Tree, k: Obj, c: Clock, live: Snapshot)
    requires Placed(live) && k in live && Still(c, live)
    ensures Declines(t, k, c) <==> EndsAfter(Entries(t), k, UpperBound(t, k, c, 0))
  {
    StillUpperBoundIsGap(t, k, c, 0, live);
    GapBeforeEnd(Entries(t), UpperBound(t, k, c, 0), k, live);
  }

  lemma GapBeforeEnd(s: seq<Obj>, p: nat, k: Obj, live: Snapshot)
    requires k in live && Placed(live) && p <= |s| && IsGap(s, p, k, live, live)
    ensures p > 0 && !Less(live, s[p - 1], k) <==> p > 0 && s[p - 1] == k
  {
  }

  lemma CutsOne(s: seq<Obj>, k: Obj, lo: nat, s': seq<Obj>)
    requires lo < |s| && s[lo] == k && s' == s[..lo] + s[lo + 1..]
    ensures multiset(s) == multiset(s') + multiset{k}
  {
    assert s == s[..lo] + [k] + s[lo + 1..];
  }

  lemma DeclinesIffClear(t: Tree, k: Obj, c: Clock, live: Snapshot)
    requires AddressSorted(Entries(t), live) && Placed(live) && k in live && k in Entries(t) && Still(c, live)
    ensures Declines(t, k, c) <==> Clear(t, k, live)
  {
    DeclinesIffEndsAfter(t, k, c, live);
    UpperBoundEndsAfterIffClear(t, k, c, 0, live);
  }

  lemma ClearEraseTakesKey(t: Tree, k: Obj, c: Clock, live: Snapshot)
    requires Placed(live) && k in live && Still(c, live) && Width(t, k, c, 0) == 1
    ensures multiset(Entries(t)) == multiset(Erased(t, k, c)) + multiset{k}
  {
    SingleInRangeIsKey(t, k, c, 0, live);
    CutsOne(Entries(t), k, EqualRange(t, k, c, 0).lo, Erased(t, k, c));
  }

  /**
   * While nothing expires, in every tree: a stored live listener is recognised by an insertion,
   * and erased without any other entry, if and only if the tree is clear for it.
   */
  lemma StoredIsFoundIffClear(t: Tree, k: Obj, c: Clock, live: Snapshot)
    requires AddressSorted(Entries(t), live) && Placed(live) && k in live && k in Entries(t) && Still(c, live)
    ensures Declines(t, k, c) <==> Clear(t, k, live)
    ensures ErasedCount(t, k, c) == 1 <==> Clear(t, k, live)
    ensures Clear(t, k, live) ==> multiset(Entries(t)) == multiset(Erased(t, k, c)) + multiset{k}
  {
    DeclinesIffClear(t, k, c, live);
    WidthIsOneIffClear(t, k, c, 0, live);
    if Clear(t, k, live) { ClearEraseTakesKey(t, k, c, live); }
  }

  /** No expired node has k in its left subtree. */
  ghost predicate Found(t: Tree, k: Obj, live: Snapshot) {
    match t
    case Leaf => false
    case Node(l, x, r) =>
      x == k || (if k in Entries(l) then x in live && Found(l, k, live) else Found(r, k, live))
  }

  lemma {:induction false} WidthIffFound(t: Tree, k: Obj, c: Clock, n: nat, live: Snapshot)
    requires AddressSorted(Entries(t), live) && Placed(live) && k in live && k in Entries(t) && Still(c, live)
    ensures Width(t, k, c, n) > 0 <==> Found(t, k, live)
  {
    var l, x, r := t.left, t.entry, t.right;
    WidthFromPart(l, x, r, k, c, n);
    if x != k && k in Entries(l) {
      assert k !in Entries(r) && (x in live ==> k.addr < x.addr) by { SideOfStored(l, x, r, k, live); }
      if x in live {
        assert AddressSorted(Entries(l), live) by { SideOfStored(l, x, r, k, live); }
        WidthIffFound(l, k, c, n + 2, live);
      } else {
        StillRangeMisses(r, k, c, n + 2, live);
      }
    } else if x != k {
      assert AddressSorted(Entries(r), live) && k in Entries(r) && (x in live ==> x.addr < k.addr) by {
        SideOfStored(l, x, r, k, live);
      }
      WidthIffFound(r, k, c, n + 2, live);
    }
  }

  lemma {:induction false} RangeStartsAtKey(t: Tree, k: Obj, c: Clock, n: nat, live: Snapshot)
    requires AddressSorted(Entries(t), live) && Placed(live) && k in live && k in Entries(t) && Still(c, live)
    requires Width(t, k, c, n) > 0
    ensures Entries(t)[EqualRange(t, k, c, n).lo] == k
  {
    var l, x, r := t.left, t.entry, t.right;
    RangeFromPart(l, x, r, k, c, n);
    if x == k {
      assert forall y | y in Entries(l) && y in live :: y.addr < k.addr by { SideOfStored(l, x, r, k, live); }
      PassesSmaller(l, k, c, n + 2, live);
      EntryAt(Entries(l), x, Entries(r), |Entries(l)|);
    } else if Less(live, x, k) {
      if k !in Entries(r) { StillRangeMisses(r, k, c, n + 2, live); }
      assert AddressSorted(Entries(r), live) by { SideOfStored(l, x, r, k, live); }
      assert Width(r, k, c, n + 2) > 0;
      RangeStartsAtKey(r, k, c, n + 2, live);
      EntryAt(Entries(l), x, Entries(r), |Entries(l)| + 1 + EqualRange(r, k, c, n + 2).lo);
    } else {
      if k !in Entries(l) { StillRangeMisses(l, k, c, n + 2, live); }
      assert AddressSorted(Entries(l), live) by { SideOfStored(l, x, r, k, live); }
      RangeStartsAtKey(l, k, c, n + 2, live);
      EntryAt(Entries(l), x, Entries(r), EqualRange(l, k, c, n + 2).lo);
    }
  }

  lemma EntryAt(left: seq<Obj>, x: Obj, right: seq<Obj>, i: nat)
    requires i < |left + [x] + right|
    ensures (left + [x] + right)[i] ==
      if i < |left| then left[i] else if i == |left| then x else right[i - |left| - 1]
  {
  }

  /**
   * While nothing expires, in every tree: erasing a stored live listener removes it if and only if
   * no expired node has it on its left; then it removes the listener, and after it whatever stands
   * before the next entry that is found alive and larger.
   */
  lemma StillEraseOfStored(t: Tree, k: Obj, c: Clock, live: Snapshot)
    requires AddressSorted(Entries(t), live) && Placed(live) && k in live && k in Entries(t) && Still(c, live)
    ensures ErasedCount(t, k, c) > 0 <==> Found(t, k, live)
    ensures
      var s, lo, hi := Entries(t), EqualRange(t, k, c, 0).lo, EqualRange(t, k, c, 0).hi;
      && Erased(t, k, c) == s[..lo] + s[hi..]
      && (lo < hi ==> s[lo] == k)
      && (hi < |s| ==> s[hi] in live && k.addr < s[hi].addr)
  {
    WidthIffFound(t, k, c, 0, live);
    assert ErasedCount(t, k, c) == Width(t, k, c, 0);
    if Found(t, k, live) { RangeStartsAtKey(t, k, c, 0, live); }
    EqualRangeIsGap(t, k, c, 0, live);
  }

  /**
   * All of a, k, y and z were registered, and z expired. Erasing k takes y with it, although y is
   * alive: the search for the end of the range passes the expired z.
   */
  lemma EraseTakesAnotherLive()
    ensures
      var a, k, y, z := Obj(0, 1), Obj(1, 2), Obj(2, 3), Obj(3, 4);
      var t := Node(Node(Leaf, a, Leaf), k, Node(Node(Leaf, y, Leaf), z, Leaf));
      var c := Frozen({a, k, y});
      && Entries(t) == [a, k, y, z] && AddressSorted([a, k, y, z], {a, k, y, z})
      && ErasedCount(t, k, c) == 3 && Erased(t, k, c) == [a]
  {
    var a, k, y, z := Obj(0, 1), Obj(1, 2), Obj(2, 3), Obj(3, 4);
    var l, r := Node(Leaf, a, Leaf), Node(Node(Leaf, y, Leaf), z, Leaf);
    var t, c := Node(l, k, r), Frozen({a, k, y});
    SingleEntries(a);
    SingleEntries(y);
    assert Entries(Leaf) == [];
    assert Entries(r) == [y, z];
    assert Entries(t) == [a, k, y, z];
    assert LowerBound(Leaf, k, c, 3) == 0 && LowerBound(l, k, c, 2) == 1;
    assert UpperBound(Leaf, k, c, 4) == 0 && UpperBound(r, k, c, 3) == 2;
    assert EqualRange(t, k, c, 0) == Range(1, 4);
  }
}
