/**
 * Exactly when searches through the liveness-dependent order are right, tree by tree, and
 * concrete cases in which they are not.
 */
module ListenerSetLimits {
  import opened WeakPointers
  import opened ListenerSet

  // ---- Searches while nothing expires ----

  /** A clock during which nothing expires. */
  function Frozen(live: Snapshot): Clock {
    (m: nat) => live
  }

  ghost predicate Still(c: Clock, live: Snapshot) {
    forall m: nat :: c(m) == live
  }

  /**
   * In every tree, inserting is right for all live listeners if and only if the expired entries
   * form a prefix of the stored order, and the same holds for erasing.
   */
  lemma SearchIsExactIffExpiredPrefix(t: Tree, live: Snapshot)
    requires Placed(live) && AddressSorted(Entries(t), live)
    ensures (forall k | k in live :: Declines(t, k, Frozen(live)) <==> k in Entries(t))
       <==> ExpiredPrefix(Entries(t), live)
    ensures (forall k | k in live :: ErasedCount(t, k, Frozen(live)) == if k in Entries(t) then 1 else 0)
       <==> ExpiredPrefix(Entries(t), live)
  {
    if ExpiredPrefix(Entries(t), live) {
      forall k | k in live
        ensures Declines(t, k, Frozen(live)) <==> k in Entries(t)
        ensures ErasedCount(t, k, Frozen(live)) == if k in Entries(t) then 1 else 0
      {
        FrozenIsExact(t, k, live);
      }
    } else {
      var i := LiveBeforeExpired(Entries(t), live);
      HiddenFromInsert(t, live, i);
      HiddenFromErase(t, live, i);
    }
  }

  lemma FrozenIsExact(t: Tree, k: Obj, live: Snapshot)
    requires Placed(live) && AddressSorted(Entries(t), live) && ExpiredPrefix(Entries(t), live) && k in live
    ensures Declines(t, k, Frozen(live)) <==> k in Entries(t)
    ensures ErasedCount(t, k, Frozen(live)) == if k in Entries(t) then 1 else 0
  {
    assert Search(Entries(t), k, Frozen(live), live, live);
    if k in Entries(t) {
      StoredIsDeclined(t, k, Frozen(live), live, live);
    } else {
      NewIsNotDeclined(t, k, Frozen(live), live, live);
    }
    EraseRemovesExactly(t, k, Frozen(live), live, live);
  }

  /** Some live entry stands right before an expired one. */
  lemma LiveBeforeExpired(s: seq<Obj>, live: Snapshot) returns (i: nat)
    requires !ExpiredPrefix(s, live)
    ensures i + 1 < |s| && s[i] in live && s[i + 1] !in live
  {
    var j: nat;
    i, j :| i < j < |s| && s[i] in live && s[j] !in live;
    while s[i + 1] in live
      invariant i < j && s[i] in live
      decreases j - i
    {
      i := i + 1;
    }
  }

  /** The only gap for a live entry is the one right after it, and an expired entry there is none. */
  lemma NoGapAfter(s: seq<Obj>, live: Snapshot, i: nat)
    requires AddressSorted(s, live) && Placed(live)
    requires i + 1 < |s| && s[i] in live && s[i + 1] !in live
    ensures !IsGap(s, i + 1, s[i], live, live)
    ensures forall j | 0 <= j < |s| && s[j] == s[i] :: j == i
  {
  }

  /** Inserting the live entry again is not declined. */
  lemma HiddenFromInsert(t: Tree, live: Snapshot, i: nat)
    requires Placed(live) && AddressSorted(Entries(t), live)
    requires i + 1 < |Entries(t)| && Entries(t)[i] in live && Entries(t)[i + 1] !in live
    ensures !Declines(t, Entries(t)[i], Frozen(live))
  {
    var s, k, p := Entries(t), Entries(t)[i], UpperBound(t, Entries(t)[i], Frozen(live), 0);
    UpperBoundIsGap(t, k, Frozen(live), 0, live, live);
    NoGapAfter(s, live, i);
  }

  /** How the range to erase in a tree follows from one in a subtree. */
  lemma RangeFromPart(l: Tree, x: Obj, r: Tree, k: Obj, c: Clock, n: nat)
    ensures
      var range, here := EqualRange(Node(l, x, r), k, c, n), |Entries(l)|;
      if Less(c(n), x, k) then
        range == Range(here + 1 + EqualRange(r, k, c, n + 2).lo, here + 1 + EqualRange(r, k, c, n + 2).hi)
      else if Less(c(n + 1), k, x) then range == EqualRange(l, k, c, n + 2)
      else range.lo <= here && range.hi == here + 1 + UpperBound(r, k, c, n + 2 + here)
  {
  }

  lemma StillUpperBoundIsGap(t: Tree, k: Obj, c: Clock, n: nat, live: Snapshot)
    requires k in live && Still(c, live)
    ensures IsGap(Entries(t), UpperBound(t, k, c, n), k, live, live)
  {
    UpperBoundIsGap(t, k, c, n, live, live);
  }

  lemma StillGapFromLeft(l: Tree, x: Obj, r: Tree, left: seq<Obj>, p: nat, k: Obj, live: Snapshot)
    requires left == Entries(l) && k in live && Less(live, k, x)
    requires p <= |left| && IsGap(left, p, k, live, live)
    ensures p <= |Entries(Node(l, x, r))| && IsGap(Entries(Node(l, x, r)), p, k, live, live)
  {
    GapFromLeft(l, x, r, left, Entries(r), p, k, Frozen(live), 0, live, live);
  }

  lemma StillGapFromRight(l: Tree, x: Obj, r: Tree, right: seq<Obj>, p: nat, k: Obj, live: Snapshot)
    requires right == Entries(r) && k in live && !Less(live, k, x)
    requires p <= |right| && IsGap(right, p, k, live, live)
    ensures
      var s, p' := Entries(Node(l, x, r)), |Entries(l)| + 1 + p;
      p' <= |s| && IsGap(s, p', k, live, live)
  {
    GapFromRight(l, x, r, Entries(l), right, p, k, Frozen(live), 0, live, live);
  }

  /** While nothing expires, the end of the range to erase is a gap. */
  lemma {:induction false} EqualRangeIsGap(t: Tree, k: Obj, c: Clock, n: nat, live: Snapshot)
    requires k in live && Still(c, live)
    ensures IsGap(Entries(t), EqualRange(t, k, c, n).hi, k, live, live)
  {
    if t.Node? {
      var l, x, r := t.left, t.entry, t.right;
      RangeFromPart(l, x, r, k, c, n);
      if Less(live, x, k) {
        EqualRangeIsGap(r, k, c, n + 2, live);
        StillGapFromRight(l, x, r, Entries(r), EqualRange(r, k, c, n + 2).hi, k, live);
      } else if Less(live, k, x) {
        EqualRangeIsGap(l, k, c, n + 2, live);
        StillGapFromLeft(l, x, r, Entries(l), EqualRange(l, k, c, n + 2).hi, k, live);
      } else {
        StillUpperBoundIsGap(r, k, c, n + 2 + |Entries(l)|, live);
        StillGapFromRight(l, x, r, Entries(r), UpperBound(r, k, c, n + 2 + |Entries(l)|), k, live);
      }
    }
  }

  /** A single entry in that range is the key. */
  lemma {:induction false} SingleInRangeIsKey(t: Tree, k: Obj, c: Clock, n: nat, live: Snapshot)
    requires k in live && Placed(live) && Still(c, live)
    ensures
      var range := EqualRange(t, k, c, n);
      range.hi == range.lo + 1 ==> Entries(t)[range.lo] == k
  {
    match t
    case Leaf =>
    case Node(l, x, r) =>
      NodeEntries(l, x, r);
      RangeFromPart(l, x, r, k, c, n);
      if Less(live, x, k) {
        SingleInRangeIsKey(r, k, c, n + 2, live);
      } else if Less(live, k, x) {
        SingleInRangeIsKey(l, k, c, n + 2, live);
      }
  }

  /** Erasing the live entry does not remove one entry. */
  lemma HiddenFromErase(t: Tree, live: Snapshot, i: nat)
    requires Placed(live) && AddressSorted(Entries(t), live)
    requires i + 1 < |Entries(t)| && Entries(t)[i] in live && Entries(t)[i + 1] !in live
    ensures ErasedCount(t, Entries(t)[i], Frozen(live)) != 1
  {
    EqualRangeIsGap(t, Entries(t)[i], Frozen(live), 0, live);
    SingleInRangeIsKey(t, Entries(t)[i], Frozen(live), 0, live);
    NoGapAfter(Entries(t), live, i);
  }

  /**
   * A listener that is registered, alive, and stored before one that expired: registering it
   * again stores it twice, and erasing it removes nothing.
   */
  lemma ExpiredEntryHidesListener()
    ensures
      var a, b := Obj(0, 1), Obj(1, 2);
      var t := Node(Node(Leaf, a, Leaf), b, Leaf);
      var c := Frozen({a});
      && Entries(t) == [a, b] && AddressSorted([a, b], {a, b})
      && Inserted(t, a, c) == [a, b, a]
      && ErasedCount(t, a, c) == 0 && Erased(t, a, c) == [a, b]
  {
    var a, b := Obj(0, 1), Obj(1, 2);
    var t := Node(Node(Leaf, a, Leaf), b, Leaf);
    var c := Frozen({a});
    SingleEntries(a);
    assert Entries(Leaf) == [];
    assert Entries(t) == [a, b];
    assert UpperBound(Leaf, a, c, 1) == 0;
    assert UpperBound(t, a, c, 0) == 2;
    assert Attach(Leaf, a, c, 1, 3) == Node(Leaf, a, Leaf);
    AttachAtNode(Node(Leaf, a, Leaf), b, Leaf, a, c, 0, 3);
    assert EqualRange(Leaf, a, c, 2) == Range(0, 0);
    assert EqualRange(t, a, c, 0) == Range(2, 2);
  }

  // ---- Expiries during a search ----

  /** What a search for k between two instants needs of the stored order. */
  ghost predicate Searchable(s: seq<Obj>, k: Obj, first: Snapshot, last: Snapshot) {
    && k in first && k in last
    && Placed(first) && AddressSorted(s, first) && NoRevival(s, first, last)
    && ExpiredPrefix(s, first) && ExpiredPrefix(s, last)
  }

  /** A clock on which everything that expires does so right after one comparison. */
  function SwitchAfter(before: Snapshot, after: Snapshot, at: nat): Clock {
    (m: nat) => if m <= at then before else after
  }

  lemma SwitchIsSearch(s: seq<Obj>, k: Obj, before: Snapshot, at: nat, first: Snapshot, last: Snapshot)
    requires Searchable(s, k, first, last) && first * last <= before <= first
    ensures Search(s, k, SwitchAfter(before, last, at), first, last)
  {
    forall y | y in s ensures Fades(y, SwitchAfter(before, last, at), first, last) {}
  }

  lemma SearchableInParts(l: Tree, x: Obj, r: Tree, k: Obj, first: Snapshot, last: Snapshot)
    requires Searchable(Entries(Node(l, x, r)), k, first, last)
    ensures Searchable(Entries(l), k, first, last) && Searchable(Entries(r), k, first, last)
    ensures x in last ==> x in first
  {
    SwitchIsSearch(Entries(Node(l, x, r)), k, first, 0, first, last);
    SearchInParts(l, x, r, k, SwitchAfter(first, last, 0), first, last);
    NodeEntries(l, x, r);
  }

  lemma PartsMiss(l: Tree, x: Obj, r: Tree, k: Obj, first: Snapshot, last: Snapshot)
    requires Searchable(Entries(Node(l, x, r)), k, first, last) && k !in Entries(Node(l, x, r))
    ensures Searchable(Entries(l), k, first, last) && Searchable(Entries(r), k, first, last)
    ensures k !in Entries(l) && k != x && k !in Entries(r)
    ensures x in last ==> x in first
  {
    NodeEntries(l, x, r);
    SearchableInParts(l, x, r, k, first, last);
  }

  /** A node that is less than k has the expiring larger entries to its right. */
  lemma ExpiringIsRight(l: Tree, x: Obj, r: Tree, k: Obj, first: Snapshot, last: Snapshot)
    requires Searchable(Entries(Node(l, x, r)), k, first, last)
    requires LargerExpires(Entries(Node(l, x, r)), k, first, last) && Less(first, x, k)
    ensures LargerExpires(Entries(r), k, first, last)
  {
    NodeEntries(l, x, r);
    AcrossNode(l, x, r, first, first);
  }

  /** A node that is not, and stays alive, has them to its left. */
  lemma ExpiringIsLeft(l: Tree, x: Obj, r: Tree, k: Obj, first: Snapshot, last: Snapshot)
    requires Searchable(Entries(Node(l, x, r)), k, first, last)
    requires LargerExpires(Entries(Node(l, x, r)), k, first, last) && x in last
    ensures LargerExpires(Entries(l), k, first, last)
  {
    NodeEntries(l, x, r);
    AcrossNode(l, x, r, first, last);
  }

  /** The comparison after which the larger entries must expire for an erasure to find something. */
  lemma {:induction false} RacePoint(t: Tree, k: Obj, n: nat, first: Snapshot, last: Snapshot) returns (at: nat)
    requires Searchable(Entries(t), k, first, last)
    requires k !in Entries(t) && LargerExpires(Entries(t), k, first, last)
    ensures at >= n
    ensures
      var range := EqualRange(t, k, SwitchAfter(first, last, at), n);
      range.lo < range.hi
  {
    var l, x, r := t.left, t.entry, t.right;
    if Less(first, x, k) {
      assert Searchable(Entries(r), k, first, last) && k !in Entries(r) by { PartsMiss(l, x, r, k, first, last); }
      ExpiringIsRight(l, x, r, k, first, last);
      at := RacePoint(r, k, n + 2, first, last);
    } else if x in last {
      assert Searchable(Entries(l), k, first, last) && k !in Entries(l) by { PartsMiss(l, x, r, k, first, last); }
      ExpiringIsLeft(l, x, r, k, first, last);
      at := RacePoint(l, k, n + 2, first, last);
    } else {
      at := n;
    }
    assert x in last ==> x in first && x != k by { PartsMiss(l, x, r, k, first, last); }
    RangeFromPart(l, x, r, k, SwitchAfter(first, last, at), n);
  }

  /**
   * In every tree, erasing a listener that is not stored can count something if and only if a
   * stored entry with a larger address expires during the call.
   */
  lemma MissingCanBeErasedIffLargerExpires(t: Tree, k: Obj, first: Snapshot, last: Snapshot)
    requires Searchable(Entries(t), k, first, last) && k !in Entries(t)
    ensures (exists c :: Search(Entries(t), k, c, first, last) && ErasedCount(t, k, c) > 0)
       <==> LargerExpires(Entries(t), k, first, last)
  {
    if LargerExpires(Entries(t), k, first, last) {
      var at := RacePoint(t, k, 0, first, last);
      var c := SwitchAfter(first, last, at);
      SwitchIsSearch(Entries(t), k, first, at, first, last);
      assert Search(Entries(t), k, c, first, last) && ErasedCount(t, k, c) > 0;
    } else {
      forall c | Search(Entries(t), k, c, first, last) ensures ErasedCount(t, k, c) == 0 {
        EraseRemovesExactly(t, k, c, first, last);
      }
    }
  }

  /** Only b is stored, and it expires between two comparisons: erasing a counts one although a was never stored. */
  lemma RaceErasesAnother()
    ensures
      var a, b := Obj(0, 1), Obj(1, 2);
      var t, c := Node(Leaf, b, Leaf), SwitchAfter({a, b}, {a}, 0);
      && Entries(t) == [b] && Search([b], a, c, {a, b}, {a})
      && ErasedCount(t, a, c) == 1 && Erased(t, a, c) == []
  {
    var a, b := Obj(0, 1), Obj(1, 2);
    var t, c := Node(Leaf, b, Leaf), SwitchAfter({a, b}, {a}, 0);
    SingleEntries(b);
    assert b in c(0) && b !in c(1);
    assert LowerBound(Leaf, a, c, 2) == 0 && UpperBound(Leaf, a, c, 2) == 0;
    assert EqualRange(t, a, c, 0) == Range(0, 1);
  }

  // ---- Expiries while an insertion chooses a side ----

  /** x has no left child, and y is stored to its right. */
  ghost predicate FragileAt(t: Tree, x: Obj, y: Obj) {
    match t
    case Leaf => false
    case Node(l, z, r) => (z == x && l.Leaf? && y in Entries(r)) || FragileAt(l, x, y) || FragileAt(r, x, y)
  }

  lemma {:induction false} FragilePoint(t: Tree, k: Obj, first: Snapshot, last: Snapshot) returns (x: Obj, y: Obj)
    requires Fragile(t, k, first, last)
    ensures FragileAt(t, x, y) && x in first && x !in last && k.addr < x.addr && y in last
  {
    if Fragile(t.left, k, first, last) {
      x, y := FragilePoint(t.left, k, first, last);
    } else if Fragile(t.right, k, first, last) {
      x, y := FragilePoint(t.right, k, first, last);
    } else {
      x := t.entry;
      y :| y in Entries(t.right) && y in last;
    }
  }

  lemma {:induction false} FragileIsStored(t: Tree, x: Obj, y: Obj)
    requires FragileAt(t, x, y)
    ensures x in Entries(t) && y in Entries(t)
  {
    NodeEntries(t.left, t.entry, t.right);
    if FragileAt(t.left, x, y) {
      FragileIsStored(t.left, x, y);
    } else if FragileAt(t.right, x, y) {
      FragileIsStored(t.right, x, y);
    }
  }

  /** Of those that expire, the entries before x have done so. */
  function ExpiredBefore(x: Obj, first: Snapshot, last: Snapshot): Snapshot {
    set y | y in first && (y in last || x.addr <= y.addr)
  }

  lemma StaysLost(l: Tree, z: Obj, r: Tree, k: Obj, y: Obj, c: Clock, n: nat, m: nat)
    requires y != z && y != k
    requires Less(c(n), k, z) ==>
      (l.Leaf? && !Less(c(m), k, z)) || (y !in Entries(r) && y !in Entries(Attach(l, k, c, n + 1, m)))
    requires !Less(c(n), k, z) ==>
      (r.Leaf? && Less(c(m), k, z)) || (y !in Entries(l) && y !in Entries(Attach(r, k, c, n + 1, m)))
    ensures y !in Entries(Attach(Node(l, z, r), k, c, n, m))
  {
    AttachAtNode(l, z, r, k, c, n, m);
  }

  /** If x expires between the end of the search and the choice of the side, y is lost. */
  lemma {:induction false} PlacementLoses(
    t: Tree, k: Obj, x: Obj, y: Obj, n: nat, at: nat, first: Snapshot, last: Snapshot)
    requires Searchable(Entries(t), k, first, last) && k !in Entries(t) && n + |Entries(t)| <= at
    requires FragileAt(t, x, y) && x in first && x !in last && k.addr < x.addr && y in last
    ensures y !in Entries(Attach(t, k, SwitchAfter(ExpiredBefore(x, first, last), last, at), n, at + 1))
  {
    var c := SwitchAfter(ExpiredBefore(x, first, last), last, at);
    var l, z, r := t.left, t.entry, t.right;
    assert |Entries(t)| == |Entries(l)| + 1 + |Entries(r)|;
    FragileSide(l, z, r, k, x, y, first, last);
    if z == x {
      assert Less(c(n), k, x) && !Less(c(at + 1), k, x);
    } else if FragileAt(l, x, y) {
      assert Less(c(n), k, z) && l.Node?;
      PlacementLoses(l, k, x, y, n + 1, at, first, last);
    } else {
      assert !Less(c(n), k, z) && r.Node?;
      PlacementLoses(r, k, x, y, n + 1, at, first, last);
    }
    StaysLost(l, z, r, k, y, c, n, at + 1);
  }

  lemma FragileSide(l: Tree, z: Obj, r: Tree, k: Obj, x: Obj, y: Obj, first: Snapshot, last: Snapshot)
    requires Searchable(Entries(Node(l, z, r)), k, first, last) && k !in Entries(Node(l, z, r))
    requires FragileAt(Node(l, z, r), x, y) && x in first && x !in last && k.addr < x.addr && y in last
    ensures Searchable(Entries(l), k, first, last) && Searchable(Entries(r), k, first, last)
    ensures k !in Entries(l) && k != z && k !in Entries(r) && y != z && y != x && y != k
    ensures z == x ==> l.Leaf?
    ensures z != x && FragileAt(l, x, y) ==> z in first && x.addr < z.addr && y !in Entries(r)
    ensures z != x && !FragileAt(l, x, y) ==>
      FragileAt(r, x, y) && z !in last && (z in first ==> z.addr < x.addr) && y !in Entries(l)
  {
    NodeEntries(l, z, r);
    PartsMiss(l, z, r, k, first, last);
    AcrossNode(l, z, r, first, first);
    AcrossNode(l, z, r, first, last);
    if FragileAt(l, x, y) { FragileIsStored(l, x, y); }
    if FragileAt(r, x, y) { FragileIsStored(r, x, y); }
  }

  /** With a stored live listener, no larger entry has expired. */
  lemma StoredHasNoLargerExpiry(s: seq<Obj>, k: Obj, first: Snapshot, last: Snapshot)
    requires Searchable(s, k, first, last) && k in s
    ensures !LargerExpires(s, k, first, last)
  {
    var i :| 0 <= i < |s| && s[i] == k;
    forall x | x in s && x in first && k.addr < x.addr ensures x in last {
      var j :| 0 <= j < |s| && s[j] == x;
      assert i < j;
    }
  }

  /** Inserting k keeps all stored listeners that are alive at the end. */
  ghost predicate KeepsLive(t: Tree, k: Obj, c: Clock, last: Snapshot) {
    forall w | w in last && w in Entries(t) :: w in Inserted(t, k, c)
  }

  /** In every tree, inserting loses no live listener, whenever entries expire, if and only if it is not fragile. */
  lemma InsertKeepsLiveIffNotFragile(t: Tree, k: Obj, first: Snapshot, last: Snapshot)
    requires Searchable(Entries(t), k, first, last)
    ensures (forall c | Search(Entries(t), k, c, first, last) :: KeepsLive(t, k, c, last))
       <==> !Fragile(t, k, first, last)
  {
    if Fragile(t, k, first, last) {
      var c := LosingClock(t, k, first, last);
      assert Search(Entries(t), k, c, first, last) && !KeepsLive(t, k, c, last);
    } else {
      forall c | Search(Entries(t), k, c, first, last) ensures KeepsLive(t, k, c, last) {
        InsertAddsExactlyOnce(t, k, c, first, last);
      }
    }
  }

  /** In a fragile tree some moments of expiry lose a live listener. */
  lemma LosingClock(t: Tree, k: Obj, first: Snapshot, last: Snapshot) returns (c: Clock)
    requires Searchable(Entries(t), k, first, last) && Fragile(t, k, first, last)
    ensures Search(Entries(t), k, c, first, last) && !KeepsLive(t, k, c, last)
    ensures forall m: nat :: first * last <= c(m)
  {
    var x, y := FragilePoint(t, k, first, last);
    FragileIsStored(t, x, y);
    if k in Entries(t) { StoredHasNoLargerExpiry(Entries(t), k, first, last); }
    var at := |Entries(t)|;
    c := SwitchAfter(ExpiredBefore(x, first, last), last, at);
    SwitchIsSearch(Entries(t), k, ExpiredBefore(x, first, last), at, first, last);
    NewIsNotDeclined(t, k, c, first, last);
    PlacementLoses(t, k, x, y, 0, at, first, last);
  }

  /**
   * p and q are stored, q to the right of p. While k is inserted, p expires between the search
   * and the choice of the side: the live q is lost.
   */
  lemma PlacementRaceLosesListener()
    ensures
      var k, p, q := Obj(0, 1), Obj(1, 2), Obj(2, 3);
      var t, c := Node(Leaf, p, Node(Leaf, q, Leaf)), SwitchAfter({k, p, q}, {k, q}, 2);
      && Entries(t) == [p, q] && Search([p, q], k, c, {k, p, q}, {k, q})
      && Inserted(t, k, c) == [p, k] && q in {k, q}
  {
    var k, p, q := Obj(0, 1), Obj(1, 2), Obj(2, 3);
    var r := Node(Leaf, q, Leaf);
    var t, c := Node(Leaf, p, r), SwitchAfter({k, p, q}, {k, q}, 2);
    SingleEntries(q);
    assert Entries(Leaf) == [];
    assert Entries(t) == [p, q];
    assert p in c(0) && p !in c(3);
    assert UpperBound(Leaf, k, c, 1) == 0 && UpperBound(t, k, c, 0) == 0;
    AttachAtNode(Leaf, p, r, k, c, 0, 3);
    assert forall y | y in [p, q] :: y == p || y == q;
  }
}
