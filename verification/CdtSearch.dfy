/**
 Searches of the capability derivation tree. They walk links from the root with comparators that
 are coarser than the tree order, and so answer for all slots from a single path.
 */
module CdtSearch {
  import opened Arithmetic
  import opened Caps
  import opened AATree
  import opened CdtSlots
  import opened Derivation

  lemma OrderedAround(t: CdtTree)
    requires t.Node? && Ordered(t)
    ensures Ordered(t.left) && Ordered(t.right)
    ensures forall x :: x in InOrder(t.left) ==> Less(x.rank, t.item.rank)
    ensures forall x :: x in InOrder(t.right) ==> Less(t.item.rank, x.rank)
    ensures forall x :: x in InOrder(t) <==> x in InOrder(t.left) || x == t.item || x in InOrder(t.right)
  {
    SortedParts(InOrder(t.left), t.item, InOrder(t.right));
  }

  /** Slots and in-order items are the same things. */
  lemma {:induction false} SlotHasItem(t: CdtTree, s: Cte) returns (x: Item<Cte>)
    requires s in Slots(t)
    ensures x in InOrder(t) && x.slot == s
  {
    if s in Slots(t.left) {
      x := SlotHasItem(t.left, s);
    } else if s == t.item.slot {
      x := t.item;
    } else {
      x := SlotHasItem(t.right, s);
    }
  }

  ghost predicate AllComparableTo(m: Contents, c: Cap) {
    forall s :: s in m ==> Comparable(m[s].cap, c)
  }

  /** A subtree of `t` that the current walk has reached, hanging at slot `n`. */
  ghost predicate Reached(cdt: Cdt, n: Cte?, u: CdtTree)
    reads cdt, cdt.contents.Keys, Slots(cdt.tree), Slots(u)
  {
    && Shape(n, u) && Ordered(u)
    && forall x :: x in InOrder(u) ==> x in InOrder(cdt.tree)
  }

  /** What the walk knows about the slot at the top of the subtree it has reached. */
  lemma ReachedTop(cdt: Cdt, n: Cte, u: CdtTree)
    requires cdt.Valid() && u.Node? && Reached(cdt, n, u)
    ensures n == u.item.slot && n in cdt.contents && n.SlotKey() == cdt.contents[n]
    ensures InTree(n.cap) && RankOf(n.SlotKey()) == u.item.rank
    ensures Reached(cdt, n.left, u.left) && Reached(cdt, n.right, u.right)
  {
    OrderedAround(u);
    assert u.item in InOrder(u);
    ComparableCapsAreInTree(cdt.contents);
  }

  /** Steering a search that ignores the slot address. */
  lemma NodeSteps(x: Rank, y: Rank, target: Rank)
    requires Less(x, y)
    ensures NodeLess(y, target) ==> !SameNodeRank(x, target)
    ensures NodeLess(target, x) ==> !SameNodeRank(y, target)
  {
  }

  /**
   cdtFindAtDepth: some slot that agrees with the hypothetical cap and depth in everything but its
   address, or null when there is none.
   */
  method CdtFindAtDepth(cdt: Cdt, hypothetical: Cap, depth: nat) returns (r: Cte?)
    requires cdt.Valid() && cdt.root != null && InTree(hypothetical) && AllComparableTo(cdt.contents, hypothetical)
    ensures r != null ==>
              r in cdt.contents && SameNodeRank(RankOf(cdt.contents[r]), RankOf(Key(hypothetical, depth, 0)))
    ensures r == null ==>
              forall s :: s in cdt.contents ==>
                  !SameNodeRank(RankOf(cdt.contents[s]), RankOf(Key(hypothetical, depth, 0)))
  {
    var key := Key(hypothetical, depth, 0);
    ghost var target := RankOf(key);
    var next := cdt.root;
    ghost var u := cdt.tree;
    while next != null
      invariant Reached(cdt, next, u)
      invariant forall x :: x in InOrder(cdt.tree) && SameNodeRank(x.rank, target) ==> x in InOrder(u)
      decreases u
    {
      var current := next;
      ReachedTop(cdt, current, u);
      CoarseComparators(current.SlotKey(), key);
      OrderedAround(u);
      match CompSlotWith(current.SlotKey(), key, SlotEq)
      case LT =>
        forall x | x in InOrder(u.left) ensures !SameNodeRank(x.rank, target) {
          NodeSteps(x.rank, u.item.rank, target);
        }
        next := current.right;
        u := u.right;
      case GT =>
        forall x | x in InOrder(u.right) ensures !SameNodeRank(x.rank, target) {
          NodeSteps(u.item.rank, x.rank, target);
        }
        next := current.left;
        u := u.left;
      case EQ =>
        return current;
    }
    forall s | s in cdt.contents ensures !SameNodeRank(RankOf(cdt.contents[s]), target) {
      var x := SlotHasItem(cdt.tree, s);
    }
    return null;
  }

  /** Same object, same badge and same mapping as a hypothetical cap; any depth and address. */
  ghost predicate Matches(k: Key, hypothetical: Cap)
    requires InTree(k.cap) && InTree(hypothetical)
  {
    var r, h := RankOf(k), RankOf(Key(hypothetical, 0, 0));
    SameObjectRank(r, h) && r.extra == h.extra
  }

  lemma MatchesAtDepth(k: Key, hypothetical: Cap, depth: nat)
    requires InTree(k.cap) && InTree(hypothetical)
    ensures SameNodeRank(RankOf(k), RankOf(Key(hypothetical, depth, 0))) <==>
              Matches(k, hypothetical) && k.depth == depth
  {
  }

  /** A matching cap is of the hypothetical cap's kind, so its depth field is as wide. */
  lemma MatchDepthBits(k: Key, hypothetical: Cap)
    requires InTree(k.cap) && InTree(hypothetical) && Comparable(k.cap, hypothetical) && Matches(k, hypothetical)
    ensures DepthBits(k.cap) == DepthBits(hypothetical)
  {
  }

  /** cdtFind: a matching slot of least depth; null exactly when there is none, as long as the depths fit. */
  method CdtFind(cdt: Cdt, hypothetical: Cap) returns (r: Cte?)
    requires cdt.Valid() && cdt.root != null && InTree(hypothetical) && AllComparableTo(cdt.contents, hypothetical)
    ensures r != null ==> r in cdt.contents && Matches(cdt.contents[r], hypothetical)
    ensures r != null ==> forall s :: s in cdt.contents && Matches(cdt.contents[s], hypothetical) ==>
                                        cdt.contents[r].depth <= cdt.contents[s].depth
    ensures r == null ==> forall s :: s in cdt.contents && Matches(cdt.contents[s], hypothetical) ==>
                                        Bit(DepthBits(hypothetical)) <= cdt.contents[s].depth
    ensures DepthsFit(cdt.contents) ==>
              (r == null <==> forall s :: s in cdt.contents ==> !Matches(cdt.contents[s], hypothetical))
  {
    ghost var m := cdt.contents;
    ComparableCapsAreInTree(m);
    hide IsTreeOf, RankOf, Shape, Comparable, Matches;
    var i := 0;
    while i < Bit(DepthBits(hypothetical))
      invariant 0 <= i <= Bit(DepthBits(hypothetical))
      invariant forall s :: s in m && Matches(m[s], hypothetical) ==> i <= m[s].depth
    {
      var found := CdtFindAtDepth(cdt, hypothetical, i);
      forall s | s in m ensures found == null && Matches(m[s], hypothetical) ==> m[s].depth != i {
        MatchesAtDepth(m[s], hypothetical, i);
      }
      if found != null {
        MatchesAtDepth(m[found], hypothetical, i);
        return found;
      }
      i := i + 1;
    }
    forall s | s in m && Matches(m[s], hypothetical) ensures DepthBits(m[s].cap) == DepthBits(hypothetical) {
      MatchDepthBits(m[s], hypothetical);
    }
    return null;
  }

  // ---------------------------------------------------------------------------------------
  // Slots with a mapping
  // ---------------------------------------------------------------------------------------

  /** Same object and depth as the hypothetical cap, but mapped somewhere else. */
  ghost predicate MappedElsewhere(k: Key, hypothetical: Cap, depth: nat)
    requires InTree(k.cap) && InTree(hypothetical)
  {
    && SameObjectRank(RankOf(k), RankOf(Key(hypothetical, depth, 0)))
    && k.depth == depth && ExtraOf(k.cap) != ExtraOf(hypothetical)
  }

  /** The slot at which a search of `t` with the has_extra comparator ends, null when it falls off the tree. */
  ghost function ExtraPath(t: CdtTree, m: Contents, key: Key): Cte?
    requires ComparatorOf(key.cap) == ByExtra
    decreases t
  {
    if t.Nil? || t.item.slot !in m || !Comparable(m[t.item.slot].cap, key.cap) then null
    else match CompSlotWith(m[t.item.slot], key, HasExtra)
         case LT => ExtraPath(t.right, m, key)
         case GT => ExtraPath(t.left, m, key)
         case EQ => t.item.slot
  }

  lemma ExtraPathStep(t: CdtTree, m: Contents, key: Key)
    requires ComparatorOf(key.cap) == ByExtra && t.Node? && t.item.slot in m
    requires Comparable(m[t.item.slot].cap, key.cap)
    ensures ExtraPath(t, m, key) == match CompSlotWith(m[t.item.slot], key, HasExtra)
                                    case LT => ExtraPath(t.right, m, key)
                                    case GT => ExtraPath(t.left, m, key)
                                    case EQ => t.item.slot
  {
  }

  lemma ExtraPathEnd(m: Contents, key: Key)
    requires ComparatorOf(key.cap) == ByExtra
    ensures ExtraPath(Nil, m, key) == null
  {
  }

  /** What a search for caps mapped elsewhere is sure to find: see `FindWithExtraAtDepth`. */
  ghost predicate Findable(k: Key, hypothetical: Cap, depth: nat, alone: bool)
    requires InTree(k.cap) && InTree(hypothetical)
  {
    MappedElsewhere(k, hypothetical, depth) && (alone || ExtraOf(hypothetical) < ExtraOf(k.cap))
  }

  /** No slot has the hypothetical cap's own object, depth and mapping. */
  ghost predicate NoneLike(m: Contents, hypothetical: Cap, depth: nat)
    requires InTree(hypothetical) && forall s :: s in m ==> InTree(m[s].cap)
  {
    forall s :: s in m ==> !SameNodeRank(RankOf(m[s]), RankOf(Key(hypothetical, depth, 0)))
  }

  /**
   One search of cdtFindWithExtra, at one depth. It can miss a match, but only one that is mapped lower
   than the hypothetical cap, and none at all unless some slot shares the mapping of the hypothetical cap.
   */
  method FindWithExtraAtDepth(cdt: Cdt, hypothetical: Cap, depth: nat) returns (r: Cte?)
    requires cdt.Valid() && cdt.root != null && AllComparableTo(cdt.contents, hypothetical)
    requires InTree(hypothetical) && ComparatorOf(hypothetical) == ByExtra
    ensures r == ExtraPath(cdt.tree, cdt.contents, Key(hypothetical, depth, 0))
    ensures r != null ==> r in cdt.contents && MappedElsewhere(cdt.contents[r], hypothetical, depth)
    ensures r == null ==>
              forall s :: s in cdt.contents && MappedElsewhere(cdt.contents[s], hypothetical, depth) ==>
                            ExtraOf(cdt.contents[s].cap) < ExtraOf(hypothetical)
    ensures r == null && NoneLike(cdt.contents, hypothetical, depth) ==>
              forall s :: s in cdt.contents ==> !MappedElsewhere(cdt.contents[s], hypothetical, depth)
  {
    var key := Key(hypothetical, depth, 0);
    ghost var m := cdt.contents;
    ComparableCapsAreInTree(m);
    var next := cdt.root;
    ghost var u := cdt.tree;
    ghost var alone := NoneLike(m, hypothetical, depth);
    hide IsTreeOf, Shape, Slots, InOrder, Comparable, CompSlotWith, RankOf, Ordered, ExtraPath, NoneLike, FindableIn;
    hide MappedElsewhere, Reached;
    EverythingReached(cdt, hypothetical, depth, alone);
    while next != null
      invariant Reached(cdt, next, u)
      invariant ExtraPath(cdt.tree, m, key) == ExtraPath(u, m, key)
      invariant FindableIn(cdt.tree, u, m, hypothetical, depth, alone)
      decreases u
    {
      var current := next;
      ReachedNode(cdt, current, u);
      ReachedTop(cdt, current, u);
      ExtraStep(cdt, u, current, hypothetical, depth, alone);
      assert Comparable(m[current].cap, hypothetical);
      HasExtraComparator(current.SlotKey(), key);
      ExtraPathStep(u, m, key);
      match CompSlotWith(current.SlotKey(), key, HasExtra)
      case LT =>
        next := current.right;
        u := u.right;
      case GT =>
        next := current.left;
        u := u.left;
      case EQ =>
        return current;
    }
    ReachedEnd(cdt, u);
    ExtraPathEnd(m, key);
    NotFindable(cdt, hypothetical, depth, alone);
    return null;
  }

  /** What can be found in `t` is in its part `u`. */
  ghost predicate FindableIn(t: CdtTree, u: CdtTree, m: Contents, hypothetical: Cap, depth: nat, alone: bool)
    requires InTree(hypothetical) && forall s :: s in m ==> InTree(m[s].cap)
  {
    forall x :: x in InOrder(t) && x.slot in m && Findable(m[x.slot], hypothetical, depth, alone) ==> x in InOrder(u)
  }

  lemma EverythingReached(cdt: Cdt, hypothetical: Cap, depth: nat, alone: bool)
    requires cdt.Valid() && InTree(hypothetical) && forall s :: s in cdt.contents ==> InTree(cdt.contents[s].cap)
    ensures Reached(cdt, cdt.root, cdt.tree)
    ensures FindableIn(cdt.tree, cdt.tree, cdt.contents, hypothetical, depth, alone)
  {
  }

  lemma ReachedNode(cdt: Cdt, n: Cte, u: CdtTree)
    requires Reached(cdt, n, u)
    ensures u.Node?
  {
  }

  lemma ReachedEnd(cdt: Cdt, u: CdtTree)
    requires Reached(cdt, null, u)
    ensures u == Nil
  {
  }

  lemma NotFindable(cdt: Cdt, hypothetical: Cap, depth: nat, alone: bool)
    requires cdt.Valid() && InTree(hypothetical) && forall s :: s in cdt.contents ==> InTree(cdt.contents[s].cap)
    requires FindableIn(cdt.tree, Nil, cdt.contents, hypothetical, depth, alone)
    ensures forall s :: s in cdt.contents && MappedElsewhere(cdt.contents[s], hypothetical, depth) ==>
                          !alone && ExtraOf(cdt.contents[s].cap) < ExtraOf(hypothetical)
  {
    hide IsTreeOf, Shape, RankOf;
    forall s | s in cdt.contents ensures !Findable(cdt.contents[s], hypothetical, depth, alone) {
      var x := SlotHasItem(cdt.tree, s);
    }
  }

  /** The searches at the depths below `n` end with nothing. */
  ghost predicate PathsEnd(t: CdtTree, m: Contents, hypothetical: Cap, n: nat)
    requires ComparatorOf(hypothetical) == ByExtra
  {
    forall d: nat :: d < n ==> ExtraPath(t, m, Key(hypothetical, d, 0)) == null
  }

  /** At the depths below `n`, what is mapped elsewhere than the hypothetical cap is mapped lower. */
  ghost predicate OnlyLower(m: Contents, hypothetical: Cap, n: nat)
    requires InTree(hypothetical) && forall s :: s in m ==> InTree(m[s].cap)
  {
    forall s :: s in m && m[s].depth < n && MappedElsewhere(m[s], hypothetical, m[s].depth) ==>
                  ExtraOf(m[s].cap) < ExtraOf(hypothetical)
  }

  /** No cap at all is mapped elsewhere than the hypothetical cap, unless it is mapped lower. */
  ghost predicate AllLower(m: Contents, hypothetical: Cap)
    requires InTree(hypothetical) && forall s :: s in m ==> InTree(m[s].cap)
  {
    forall s :: s in m && MappedElsewhere(m[s], hypothetical, m[s].depth) ==> ExtraOf(m[s].cap) < ExtraOf(hypothetical)
  }

  /**
   cdtFindWithExtra: a slot with a cap to the same object that is mapped elsewhere. Those it passes
   over are mapped lower than the hypothetical cap, so that an unmapped one gets one of the least depth,
   and null only if there is none.
   */
  method CdtFindWithExtra(cdt: Cdt, hypothetical: Cap) returns (r: Cte?)
    requires cdt.Valid() && cdt.root != null && AllComparableTo(cdt.contents, hypothetical)
    requires InTree(hypothetical) && ComparatorOf(hypothetical) == ByExtra
    ensures r == null <==> PathsEnd(cdt.tree, cdt.contents, hypothetical, Bit(DepthBits(hypothetical)))
    ensures r != null ==> r in cdt.contents && MappedElsewhere(cdt.contents[r], hypothetical, cdt.contents[r].depth)
    ensures r != null ==> OnlyLower(cdt.contents, hypothetical, cdt.contents[r].depth)
    ensures r == null && DepthsFit(cdt.contents) ==> AllLower(cdt.contents, hypothetical)
  {
    ghost var m := cdt.contents;
    ComparableCapsAreInTree(m);
    hide IsTreeOf, RankOf, Shape, Comparable, ExtraPath, PathsEnd, OnlyLower, AllLower, DepthsFit;
    var i := 0;
    NoDepthYet(cdt.tree, m, hypothetical);
    while i < Bit(DepthBits(hypothetical))
      invariant 0 <= i <= Bit(DepthBits(hypothetical))
      invariant PathsEnd(cdt.tree, m, hypothetical, i) && OnlyLower(m, hypothetical, i)
    {
      var found := FindWithExtraAtDepth(cdt, hypothetical, i);
      OneMoreDepth(cdt.tree, m, hypothetical, i);
      if found != null {
        return found;
      }
      i := i + 1;
    }
    if DepthsFit(m) { AllDepths(m, hypothetical); }
    return null;
  }

  lemma NoDepthYet(t: CdtTree, m: Contents, hypothetical: Cap)
    requires InTree(hypothetical) && ComparatorOf(hypothetical) == ByExtra && forall s :: s in m ==> InTree(m[s].cap)
    ensures PathsEnd(t, m, hypothetical, 0) && OnlyLower(m, hypothetical, 0)
  {
  }

  lemma OneMoreDepth(t: CdtTree, m: Contents, hypothetical: Cap, i: nat)
    requires InTree(hypothetical) && ComparatorOf(hypothetical) == ByExtra && forall s :: s in m ==> InTree(m[s].cap)
    requires PathsEnd(t, m, hypothetical, i) && OnlyLower(m, hypothetical, i) && i < Bit(DepthBits(hypothetical))
    ensures ExtraPath(t, m, Key(hypothetical, i, 0)) != null ==>
              !PathsEnd(t, m, hypothetical, Bit(DepthBits(hypothetical)))
    ensures ExtraPath(t, m, Key(hypothetical, i, 0)) == null ==> PathsEnd(t, m, hypothetical, i + 1)
    ensures (forall s :: s in m && MappedElsewhere(m[s], hypothetical, i) ==>
                           ExtraOf(m[s].cap) < ExtraOf(hypothetical)) ==>
              OnlyLower(m, hypothetical, i + 1)
  {
    hide ExtraPath, RankOf;
  }

  lemma AllDepths(m: Contents, hypothetical: Cap)
    requires InTree(hypothetical) && AllComparableTo(m, hypothetical) && DepthsFit(m)
    requires (forall s :: s in m ==> InTree(m[s].cap)) && OnlyLower(m, hypothetical, Bit(DepthBits(hypothetical)))
    ensures AllLower(m, hypothetical)
  {
    hide RankOf;
    forall s | s in m && MappedElsewhere(m[s], hypothetical, m[s].depth)
      ensures DepthBits(m[s].cap) == DepthBits(hypothetical)
    {
      MappedDepthBits(m[s], hypothetical);
    }
  }

  lemma MappedDepthBits(k: Key, hypothetical: Cap)
    requires InTree(k.cap) && InTree(hypothetical) && Comparable(k.cap, hypothetical)
    requires MappedElsewhere(k, hypothetical, k.depth)
    ensures DepthBits(k.cap) == DepthBits(hypothetical)
  {
  }

  /** Steering a search for a mapped slot with the has_extra comparator. */
  lemma ExtraStep(cdt: Cdt, u: CdtTree, current: Cte, hypothetical: Cap, depth: nat, alone: bool)
    requires cdt.Valid() && u.Node? && Reached(cdt, current, u)
    requires InTree(hypothetical) && ComparatorOf(hypothetical) == ByExtra
    requires AllComparableTo(cdt.contents, hypothetical)
    requires forall s :: s in cdt.contents ==> InTree(cdt.contents[s].cap)
    requires alone ==> NoneLike(cdt.contents, hypothetical, depth)
    requires current in cdt.contents && current.SlotKey() == cdt.contents[current]
    requires FindableIn(cdt.tree, u, cdt.contents, hypothetical, depth, alone)
    ensures var c := CompSlotWith(current.SlotKey(), Key(hypothetical, depth, 0), HasExtra);
            && (c == LT ==> FindableIn(cdt.tree, u.right, cdt.contents, hypothetical, depth, alone))
            && (c == GT ==> FindableIn(cdt.tree, u.left, cdt.contents, hypothetical, depth, alone))
  {
    var m, key := cdt.contents, Key(hypothetical, depth, 0);
    var c := CompSlotWith(current.SlotKey(), key, HasExtra);
    OrderedAround(u);
    ReachedTop(cdt, current, u);
    forall x | x in InOrder(u) ensures c == LT && Less(u.item.rank, x.rank) ==> x in InOrder(u.right)
                               ensures c == GT && Less(x.rank, u.item.rank) ==> x in InOrder(u.left) {
      LessIsTotalOrder(x.rank, u.item.rank, x.rank);
    }
    hide Comparable, CompSlotWith, InOrder, Shape, Slots, Less, Findable;
    forall x | x in InOrder(u) && x.slot in m && Findable(m[x.slot], hypothetical, depth, alone)
      ensures (c == LT ==> x in InOrder(u.right)) && (c == GT ==> x in InOrder(u.left))
    {
      assert x in InOrder(cdt.tree) && x.rank == RankOf(m[x.slot]);
      FindableOrder(current.SlotKey(), m[x.slot], hypothetical, depth, alone);
    }
  }

  /** A slot on which has_extra says LT comes before what can be found, and one on which it says GT after. */
  lemma FindableOrder(a: Key, b: Key, hypothetical: Cap, depth: nat, alone: bool)
    requires InTree(hypothetical) && ComparatorOf(hypothetical) == ByExtra
    requires Comparable(a.cap, hypothetical) && Comparable(b.cap, hypothetical)
    requires alone ==> !SameNodeRank(RankOf(a), RankOf(Key(hypothetical, depth, 0)))
    requires Findable(b, hypothetical, depth, alone)
    ensures CompSlotWith(a, Key(hypothetical, depth, 0), HasExtra) == LT ==> Less(RankOf(a), RankOf(b))
    ensures CompSlotWith(a, Key(hypothetical, depth, 0), HasExtra) == GT ==> Less(RankOf(b), RankOf(a))
  {
    HasExtraComparator(a, Key(hypothetical, depth, 0));
    hide CompSlotWith;
    SameRankExtra(a, hypothetical, depth);
    SameRankExtra(b, hypothetical, depth);
  }

  lemma SameRankExtra(k: Key, hypothetical: Cap, depth: nat)
    requires InTree(k.cap) && InTree(hypothetical) && Comparable(k.cap, hypothetical)
    requires ComparatorOf(hypothetical) == ByExtra
    ensures var r, h := RankOf(k), RankOf(Key(hypothetical, depth, 0));
            && h.depth == depth && h.extra == ExtraOf(hypothetical) && r.depth == k.depth
            && (SameObjectRank(r, h) ==> r.extra == ExtraOf(k.cap))
  {
  }

  lemma NilAtZero(t: CdtTree)
    requires Balanced(t) && Level(t) == 0
    ensures t.Nil?
  {
  }

  /** A balanced tree of three nodes has one node on either side of the root. */
  lemma ThreeNodes(t: CdtTree)
    requires Balanced(t) && Size(t) == 3
    ensures t.left.Node? && t.right.Node?
    ensures t.left.left.Nil? && t.left.right.Nil? && t.right.left.Nil? && t.right.right.Nil?
  {
    assert Bit(1) == 2 && Bit(2) == 4;
    LevelBound(t);
    if t.level > 2 { BitGrows(2, t.level); }
    LevelBound(t.left);
    LevelBound(t.right);
    if t.right.Node? { if t.level == 1 { NilAtZero(t.right.left); NilAtZero(t.right.right); } }
    if t.left.Node? { assert Size(t.left) == 1; }
  }

  /** In a tree of three slots the middle one of the order is at the root, and the greatest is to its right. */
  lemma ThreeSlots(t: CdtTree, m: Contents, b: Cte, a: Cte, c: Cte)
    requires IsTreeOf(t, m) && Size(t) == 3 && m.Keys == {b, a, c} && a != b && a != c && b != c
    requires InTree(m[a].cap) && InTree(m[b].cap) && InTree(m[c].cap)
    requires Less(RankOf(m[b]), RankOf(m[a])) && Less(RankOf(m[a]), RankOf(m[c]))
    ensures t.Node? && t.item.slot == a && t.right.Node? && t.right.item.slot == c
    ensures t.right.left.Nil? && t.right.right.Nil?
  {
    ThreeNodes(t);
    hide Less, RankOf, AllCapsComparable;
    var x, y, z := t.left.item, t.item, t.right.item;
    assert InOrder(t.left) == [x] && InOrder(t.right) == [z];
    assert InOrder(t) == [x, y, z];
    var o := InOrder(t);
    assert o[0] in o && o[1] in o && o[2] in o;
    assert Less(o[0].rank, o[1].rank) && Less(o[1].rank, o[2].rank) && Less(o[0].rank, o[2].rank);
    MiddleOfThree(x.rank, y.rank, z.rank);
    MiddleOfThree(RankOf(m[b]), RankOf(m[a]), RankOf(m[c]));
  }

  lemma MiddleOfThree(r: Rank, s: Rank, t: Rank)
    requires Less(r, s) && Less(s, t)
    ensures Less(r, t) && !Less(s, r) && !Less(t, s) && !Less(t, r) && r != s && s != t && r != t
  {
    LessIsTotalOrder(r, s, t);
    LessIsTotalOrder(s, r, s);
    LessIsTotalOrder(t, s, t);
    LessIsTotalOrder(t, r, t);
  }

  /** `c` with its mapping taken out. */
  function Unmapped(c: Cap): Cap {
    match c
    case FrameCap(_, _, _, _) => c.(frameMapping := 0)
    case PageTableCap(_, _) => c.(ptMapping := 0)
    case _ => c
  }

  /** That loses the mapping and nothing else: with the mapping the cap can be told again. */
  lemma UnmappedLosesMapping(a: Cap, b: Cap)
    requires InTree(a) && InTree(b)
    ensures ExtraOf(Unmapped(a)) == 0
    ensures Unmapped(a) == Unmapped(b) && ExtraOf(a) == ExtraOf(b) ==> a == b
  {
  }

  lemma EmptyTree(cdt: Cdt)
    requires cdt.Valid() && cdt.contents == map[]
    ensures Size(cdt.tree) == 0
  {
  }

  lemma RootIsSlot(cdt: Cdt, s: Cte)
    requires cdt.Valid() && s in cdt.contents
    ensures cdt.root != null
  {
  }

  // ---------------------------------------------------------------------------------------
  // Descendants
  // ---------------------------------------------------------------------------------------

  /** build_largest_child: no child of `c` is beyond this cap in the order on objects. */
  function BuildLargestChild(c: Cap): Cap
    requires InTree(c)
  {
    match c
    case IrqControlCap => IrqHandlerCap(MAX_IRQ)
    case UntypedCap(p, b, _) => UntypedCap((p + Bit(b) - 16) % 0x1_0000_0000, 4, false)
    case EndpointCap(p, b, _) => if b == 0 then EndpointCap(p, MAX_BADGE, 0) else c
    case AsyncEndpointCap(p, b, _) => if b == 0 then AsyncEndpointCap(p, MAX_BADGE, 0) else c
    case _ => c
  }

  /**
   `child` lies strictly above `parent`, ignoring the slot address, and not beyond the parent's
   largest hypothetical child.
   */
  ghost predicate IsDescendant(parent: Key, child: Key)
    requires InTree(parent.cap) && InTree(child.cap)
  {
    && NodeLess(RankOf(parent), RankOf(child))
    && !ObjectLess(RankOf(Key(BuildLargestChild(parent.cap), 0, 0)), RankOf(child))
  }

  lemma LargestChildComparable(m: Contents, parent: Cap)
    requires AllComparableTo(m, parent)
    requires InTree(parent)
    ensures AllComparableTo(m, BuildLargestChild(parent))
  {
    forall s | s in m ensures Comparable(m[s].cap, BuildLargestChild(parent)) {
      assert Comparable(m[s].cap, parent);
    }
  }

  /**
   Where a search from below stands: outside the subtree `u` still to be searched, `best` is the
   greatest slot that is not beyond the target, and every slot of `u` is greater still.
   */
  ghost predicate BestOutside(m: Contents, t: CdtTree, u: CdtTree, target: Rank, best: Cte?)
    requires forall s :: s in m ==> InTree(m[s].cap)
  {
    && (best != null ==> best in m && !ObjectLess(target, RankOf(m[best])))
    && (best != null ==> forall x :: x in InOrder(u) ==> Less(RankOf(m[best]), x.rank))
    && forall x :: x in InOrder(t) && !ObjectLess(target, x.rank) ==>
                     x in InOrder(u) || (best != null && (x.slot == best || Less(x.rank, RankOf(m[best]))))
  }

  lemma BelowSteps(x: Rank, y: Rank, target: Rank)
    requires Less(x, y)
    ensures ObjectLess(target, x) ==> ObjectLess(target, y)
  {
  }

  lemma BestGoesRight(m: Contents, t: CdtTree, u: CdtTree, target: Rank, best: Cte?)
    requires forall s :: s in m ==> InTree(m[s].cap)
    requires u.Node? && Ordered(u) && BestOutside(m, t, u, target, best)
    requires forall x :: x in InOrder(t) ==> x.slot in m && x.rank == RankOf(m[x.slot])
    requires u.item.slot in m && RankOf(m[u.item.slot]) == u.item.rank && !ObjectLess(target, u.item.rank)
    ensures BestOutside(m, t, u.right, target, u.item.slot)
  {
    OrderedAround(u);
    hide InOrder, RankOf, ObjectLess, Ordered;
    forall x | x in InOrder(t) && !ObjectLess(target, x.rank)
      ensures x in InOrder(u.right) || x.slot == u.item.slot || Less(x.rank, u.item.rank)
    {
      if best != null {
        assert u.item in InOrder(u);
        LessIsTotalOrder(x.rank, RankOf(m[best]), u.item.rank);
      }
    }
  }

  lemma BestGoesLeft(m: Contents, t: CdtTree, u: CdtTree, target: Rank, best: Cte?)
    requires forall s :: s in m ==> InTree(m[s].cap)
    requires u.Node? && Ordered(u) && BestOutside(m, t, u, target, best) && ObjectLess(target, u.item.rank)
    ensures BestOutside(m, t, u.left, target, best)
  {
    OrderedAround(u);
    hide InOrder, RankOf, Ordered;
    forall x | x in InOrder(u.right) ensures ObjectLess(target, x.rank) {
      BelowSteps(u.item.rank, x.rank, target);
    }
  }

  /** aaFindFromBelow with the largest_child comparator: the greatest slot not beyond the target. */
  method AaFindFromBelow(cdt: Cdt, hypothetical: Cap) returns (r: Cte?)
    requires cdt.Valid() && cdt.root != null && InTree(hypothetical) && AllComparableTo(cdt.contents, hypothetical)
    ensures forall s :: s in cdt.contents ==> InTree(cdt.contents[s].cap)
    ensures r == null ==>
              forall s :: s in cdt.contents ==> ObjectLess(RankOf(Key(hypothetical, 0, 0)), RankOf(cdt.contents[s]))
    ensures r != null ==> r in cdt.contents && !ObjectLess(RankOf(Key(hypothetical, 0, 0)), RankOf(cdt.contents[r]))
    ensures r != null ==>
              forall s :: s in cdt.contents && !ObjectLess(RankOf(Key(hypothetical, 0, 0)), RankOf(cdt.contents[s])) ==>
                            s == r || Less(RankOf(cdt.contents[s]), RankOf(cdt.contents[r]))
  {
    ghost var m := cdt.contents;
    ComparableCapsAreInTree(m);
    var key := Key(hypothetical, 0, 0);
    ghost var target := RankOf(key);
    var next := cdt.root;
    ghost var u := cdt.tree;
    r := null;
    while next != null
      invariant Reached(cdt, next, u)
      invariant BestOutside(m, cdt.tree, u, target, r)
      decreases u
    {
      var current := next;
      ReachedTop(cdt, current, u);
      CoarseComparators(current.SlotKey(), key);
      if CompSlotWith(current.SlotKey(), key, LargestChild) == LT {
        BestGoesRight(m, cdt.tree, u, target, r);
        next := current.right;
        assert r != null ==> Comparable(m[current].cap, m[r].cap);
        if r != null {
          assert u.item in InOrder(u);
          CompSlotIsLess(current.SlotKey(), r.SlotKey());
        }
        if r == null || CompSlot(current.SlotKey(), r.SlotKey()) == GT {
          r := current;
        }
        u := u.right;
      } else {
        BestGoesLeft(m, cdt.tree, u, target, r);
        next := current.left;
        u := u.left;
      }
    }
    forall s | s in m
      ensures r == null ==> ObjectLess(target, RankOf(m[s]))
      ensures r != null && !ObjectLess(target, RankOf(m[s])) ==> s == r || Less(RankOf(m[s]), RankOf(m[r]))
    {
      var x := SlotHasItem(cdt.tree, s);
    }
  }

  /** _cdtFindChild: the greatest descendant of a slot, or null exactly when it has none. */
  method CdtFindChild(cdt: Cdt, parentSlot: Cte) returns (child: Cte?)
    requires cdt.Valid() && parentSlot in cdt.contents
    ensures forall s :: s in cdt.contents ==> InTree(cdt.contents[s].cap)
    ensures child == null <==>
              forall s :: s in cdt.contents ==> !IsDescendant(cdt.contents[parentSlot], cdt.contents[s])
    ensures child != null ==> child in cdt.contents && IsDescendant(cdt.contents[parentSlot], cdt.contents[child])
    ensures child != null ==>
              forall s :: s in cdt.contents && IsDescendant(cdt.contents[parentSlot], cdt.contents[s]) ==>
                            s == child || Less(RankOf(cdt.contents[s]), RankOf(cdt.contents[child]))
  {
    ghost var m := cdt.contents;
    ComparableCapsAreInTree(m);
    LargestChildComparable(m, parentSlot.cap);
    assert cdt.root != null;
    child := AaFindFromBelow(cdt, BuildLargestChild(parentSlot.cap));
    if child != null {
      CoarseComparators(child.SlotKey(), parentSlot.SlotKey());
    }
    if child == null || CompSlotWith(child.SlotKey(), parentSlot.SlotKey(), SlotLt) != GT {
      child := null;
    }
  }
}
