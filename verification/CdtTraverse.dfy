/**
 In-order neighbours in a tree without parent links (kernel/src/kernel/cdt.c): a parent is found
 by searching from the root again, and the neighbour by climbing parent by parent.
 */
module CdtTraverse {
  import opened Caps
  import opened AATree
  import opened CdtSlots
  import opened Derivation
  import opened CdtSearch

  /** `sub` is a subtree of `t`, and `lo` nodes of `t` come before it. */
  ghost predicate Within(t: CdtTree, sub: CdtTree, lo: int) {
    || (sub == t && lo == 0)
    || (t.Node? && Within(t.left, sub, lo))
    || (t.Node? && Within(t.right, sub, lo - |InOrder(t.left)| - 1))
  }

  lemma {:induction false} WithinSlice(t: CdtTree, sub: CdtTree, lo: int)
    requires Within(t, sub, lo)
    ensures 0 <= lo && lo + |InOrder(sub)| <= |InOrder(t)|
    ensures InOrder(t)[lo..lo + |InOrder(sub)|] == InOrder(sub)
    ensures Slots(sub) <= Slots(t)
  {
    if sub == t && lo == 0 {
    } else if Within(t.left, sub, lo) {
      WithinSlice(t.left, sub, lo);
    } else {
      var n := |InOrder(t.left)| + 1;
      WithinSlice(t.right, sub, lo - n);
      assert InOrder(t)[n..] == InOrder(t.right);
      assert InOrder(t)[lo..lo + |InOrder(sub)|] == InOrder(t.right)[lo - n..lo - n + |InOrder(sub)|];
    }
  }

  lemma {:induction false} WithinChildren(t: CdtTree, u: CdtTree, lo: int)
    requires Within(t, u, lo) && u.Node?
    ensures Within(t, u.left, lo) && Within(t, u.right, lo + |InOrder(u.left)| + 1)
  {
    if u == t && lo == 0 {
      assert Within(t.left, u.left, 0) && Within(t.right, u.right, 0);
    } else if Within(t.left, u, lo) {
      WithinChildren(t.left, u, lo);
    } else {
      WithinChildren(t.right, u, lo - |InOrder(t.left)| - 1);
    }
  }

  /** Where the top of a subtree is found in the whole tree. */
  lemma WithinAt(t: CdtTree, u: CdtTree, lo: int)
    requires Within(t, u, lo) && u.Node?
    ensures 0 <= lo && lo + |InOrder(u)| <= |InOrder(t)| && |InOrder(u)| == |InOrder(u.left)| + 1 + |InOrder(u.right)|
    ensures InOrder(t)[lo + |InOrder(u.left)|] == u.item
    ensures (u.left.Nil? ==> |InOrder(u.left)| == 0) && (u.right.Nil? ==> |InOrder(u.right)| == 0)
  {
    WithinSlice(t, u, lo);
    hide Within;
    var s, n := InOrder(t)[lo..lo + |InOrder(u)|], |InOrder(u.left)|;
    assert s[n] == u.item && s[n] == InOrder(t)[lo + n];
  }

  lemma NextBelow(t: CdtTree, u: CdtTree, lo: int)
    requires Within(t, u, lo) && u.Node? && u.right.Node?
    ensures 0 <= lo && lo + |InOrder(u.left)| + 1 < |InOrder(t)|
    ensures InOrder(t)[lo + |InOrder(u.left)| + 1] == Leftmost(u.right)
  {
    WithinSlice(t, u, lo);
    LeftmostIsFirst(u.right);
    hide Within, Leftmost;
    var s, n := InOrder(t)[lo..lo + |InOrder(u)|], |InOrder(u.left)|;
    assert s[n + 1] == InOrder(u.right)[0] && s[n + 1] == InOrder(t)[lo + n + 1];
  }

  lemma PreviousBelow(t: CdtTree, u: CdtTree, lo: int)
    requires Within(t, u, lo) && u.Node? && u.left.Node?
    ensures 0 < lo + |InOrder(u.left)| <= |InOrder(t)|
    ensures InOrder(t)[lo + |InOrder(u.left)| - 1] == Rightmost(u.left)
  {
    WithinSlice(t, u, lo);
    RightmostIsLast(u.left);
    hide Within, Rightmost;
    var s, n := InOrder(t)[lo..lo + |InOrder(u)|], |InOrder(u.left)|;
    assert s[n - 1] == InOrder(u.left)[n - 1] && s[n - 1] == InOrder(t)[lo + n - 1];
  }

  lemma {:induction false} Locate(t: CdtTree, s: Cte) returns (sub: CdtTree, lo: int)
    requires s in Slots(t)
    ensures Within(t, sub, lo) && sub.Node? && sub.item.slot == s
  {
    if s in Slots(t.left) {
      sub, lo := Locate(t.left, s);
    } else if s == t.item.slot {
      sub, lo := t, 0;
    } else {
      sub, lo := Locate(t.right, s);
      lo := lo + |InOrder(t.left)| + 1;
    }
  }

  lemma {:induction false} ShapeWithin(n: Cte?, t: CdtTree, sub: CdtTree, lo: int)
    requires Shape(n, t) && Within(t, sub, lo) && sub.Node?
    ensures sub.item.slot in Slots(t) && Shape(sub.item.slot, sub)
    ensures Distinct(t) ==> Distinct(sub)
  {
    if sub == t && lo == 0 {
    } else if Within(t.left, sub, lo) {
      ShapeWithin(n.left, t.left, sub, lo);
    } else {
      ShapeWithin(n.right, t.right, sub, lo - |InOrder(t.left)| - 1);
    }
  }

  /** `sub` hangs below `up` on the left or on the right, `lo` and `upLo` being what comes before each. */
  ghost predicate HangsBelow(up: CdtTree, upLo: int, sub: CdtTree, lo: int) {
    && up.Node?
    && ((up.left == sub && lo == upLo) || (up.right == sub && lo == upLo + |InOrder(up.left)| + 1))
  }

  lemma WithinSide(u: CdtTree, sub: CdtTree, lo: int)
    requires Within(u, sub, lo) && sub.Node? && u.Node? && sub.item.slot != u.item.slot
    ensures (Within(u.left, sub, lo) && sub.item in InOrder(u.left))
         || (Within(u.right, sub, lo - |InOrder(u.left)| - 1) && sub.item in InOrder(u.right))
  {
    if Within(u.left, sub, lo) {
      ItemWithin(u.left, sub, lo);
    } else {
      assert sub != u;
      ItemWithin(u.right, sub, lo - |InOrder(u.left)| - 1);
    }
  }

  /** Two slots of a valid tree compare as the ranks in the tree do. */
  lemma CompareInTree(cdt: Cdt, x: Item<Cte>, y: Item<Cte>)
    requires cdt.Valid() && x in InOrder(cdt.tree) && y in InOrder(cdt.tree)
    ensures x.slot in cdt.contents && y.slot in cdt.contents
    ensures Comparable(x.slot.SlotKey().cap, y.slot.SlotKey().cap)
    ensures CompSlot(x.slot.SlotKey(), y.slot.SlotKey()) == LT <==> Less(x.rank, y.rank)
    ensures CompSlot(x.slot.SlotKey(), y.slot.SlotKey()) == GT <==> Less(y.rank, x.rank)
  {
    var m := cdt.contents;
    ComparableCapsAreInTree(m);
    assert Comparable(m[x.slot].cap, m[y.slot].cap);
    CompSlotIsLess(x.slot.SlotKey(), y.slot.SlotKey());
  }

  /** One step of aaParent towards `sub`. */
  lemma StepTowards(cdt: Cdt, n: Cte, u: CdtTree, uLo: int, sub: CdtTree, lo: int)
    requires cdt.Valid() && WalkedTo(cdt, n, u, uLo, sub, lo)
    requires sub.Node? && sub.item.slot != n
    ensures n in cdt.contents
    ensures var s := sub.item.slot;
            && Comparable(n.SlotKey().cap, s.SlotKey().cap)
            && CompSlot(n.SlotKey(), s.SlotKey()) != EQ
            && (CompSlot(n.SlotKey(), s.SlotKey()) == LT ==>
                  u.right.Node? && Within(u.right, sub, lo - uLo - |InOrder(u.left)| - 1))
            && (CompSlot(n.SlotKey(), s.SlotKey()) == GT ==> u.left.Node? && Within(u.left, sub, lo - uLo))
  {
    hide IsTreeOf, Comparable, CompSlot, RankOf, Shape, Within, Slots, InOrder, Sorted, Less;
    OrderedAround(u);
    WithinSide(u, sub, lo - uLo);
    CompareInTree(cdt, u.item, sub.item);
    LessIsTotalOrder(sub.item.rank, u.item.rank, sub.item.rank);
    NonEmpty(u.left, sub.item);
    NonEmpty(u.right, sub.item);
  }

  lemma NonEmpty(t: CdtTree, x: Item<Cte>)
    ensures x in InOrder(t) ==> t.Node?
  {
  }

  lemma ItemWithin(t: CdtTree, sub: CdtTree, lo: int)
    requires Within(t, sub, lo) && sub.Node?
    ensures t.Node? && sub.item in InOrder(t)
  {
    WithinAt(t, sub, lo);
  }

  /** A subtree is the only one of its tree with its top slot. */
  lemma {:induction false} OnlySubtree(u: CdtTree, sub: CdtTree, lo: int)
    requires Distinct(u) && u.Node? && sub.Node? && Within(u, sub, lo) && u.item.slot == sub.item.slot
    ensures u == sub && lo == 0
  {
    assert sub.item.slot in Slots(sub);
    if Within(u.left, sub, lo) {
      WithinSlice(u.left, sub, lo);
    } else if Within(u.right, sub, lo - |InOrder(u.left)| - 1) {
      WithinSlice(u.right, sub, lo - |InOrder(u.left)| - 1);
    }
  }

  /** `p` is the slot whose left or right link leads to the top of `sub`. */
  ghost predicate IsParent(cdt: Cdt, p: Cte, up: CdtTree, upLo: int, sub: CdtTree, lo: int)
    reads cdt, Slots(up)
  {
    && Within(cdt.tree, up, upLo) && HangsBelow(up, upLo, sub, lo)
    && p == up.item.slot && p in cdt.contents && Shape(p, up) && Distinct(up)
  }

  /** Which of a parent's links leads to a child. */
  lemma ParentLinks(cdt: Cdt, p: Cte, up: CdtTree, upLo: int, sub: CdtTree, lo: int)
    requires sub.Node? && IsParent(cdt, p, up, upLo, sub, lo)
    ensures p.left == sub.item.slot <==> up.left == sub && lo == upLo
    ensures p.right == sub.item.slot <==> up.right == sub && lo == upLo + |InOrder(up.left)| + 1
  {
    assert Shape(p.left, up.left) && Shape(p.right, up.right);
    assert sub.item.slot in Slots(sub);
    hide Within, InOrder;
  }

  /** aaParent has walked down to slot `n`, the top of subtree `u`, and `sub` lies inside `u`. */
  ghost predicate WalkedTo(cdt: Cdt, n: Cte?, u: CdtTree, uLo: int, sub: CdtTree, lo: int)
    reads cdt, cdt.contents.Keys, Slots(cdt.tree), Slots(u)
  {
    && u.Node? && n == u.item.slot && Reached(cdt, n, u) && Distinct(u)
    && Within(cdt.tree, u, uLo) && Within(u, sub, lo - uLo)
  }

  lemma WalkRight(cdt: Cdt, n: Cte, u: CdtTree, uLo: int, sub: CdtTree, lo: int)
    requires cdt.Valid() && WalkedTo(cdt, n, u, uLo, sub, lo)
    requires u.right.Node? && Within(u.right, sub, lo - uLo - |InOrder(u.left)| - 1)
    ensures WalkedTo(cdt, n.right, u.right, uLo + |InOrder(u.left)| + 1, sub, lo) && n.right == u.right.item.slot
    ensures IsParent(cdt, n, u, uLo, u.right, uLo + |InOrder(u.left)| + 1)
  {
    ReachedTop(cdt, n, u);
    WithinChildren(cdt.tree, u, uLo);
    hide Within, RankOf, InOrder, Ordered, IsTreeOf, Slots;
  }

  lemma WalkLeft(cdt: Cdt, n: Cte, u: CdtTree, uLo: int, sub: CdtTree, lo: int)
    requires cdt.Valid() && WalkedTo(cdt, n, u, uLo, sub, lo)
    requires u.left.Node? && Within(u.left, sub, lo - uLo)
    ensures WalkedTo(cdt, n.left, u.left, uLo, sub, lo) && n.left == u.left.item.slot
    ensures IsParent(cdt, n, u, uLo, u.left, uLo)
  {
    ReachedTop(cdt, n, u);
    WithinChildren(cdt.tree, u, uLo);
    hide Within, RankOf, InOrder, Ordered, IsTreeOf, Slots;
  }

  lemma WalkStart(cdt: Cdt, sub: CdtTree, lo: int)
    requires cdt.Valid() && sub.Node? && Within(cdt.tree, sub, lo)
    ensures WalkedTo(cdt, cdt.root, cdt.tree, 0, sub, lo) && cdt.tree.Node? && cdt.root == cdt.tree.item.slot
  {
    ItemWithin(cdt.tree, sub, lo);
  }

  lemma WalkEnd(cdt: Cdt, n: Cte, u: CdtTree, uLo: int, sub: CdtTree, lo: int)
    requires WalkedTo(cdt, n, u, uLo, sub, lo) && sub.Node? && n == sub.item.slot
    ensures u == sub && uLo == lo
  {
    OnlySubtree(u, sub, lo - uLo);
  }

  /** aaParent: the slot that links to the given one, found by searching from the root. */
  method AaParent(cdt: Cdt, slot: Cte, ghost sub: CdtTree, ghost lo: int)
    returns (p: Cte?, ghost up: CdtTree, ghost upLo: int)
    requires cdt.Valid() && sub.Node? && sub.item.slot == slot && slot in cdt.contents && Within(cdt.tree, sub, lo)
    ensures p == null ==> sub == cdt.tree && lo == 0
    ensures p != null ==> IsParent(cdt, p, up, upLo, sub, lo)
  {
    hide *;
    p := null;
    var next := cdt.root;
    ghost var u, uLo := cdt.tree, 0;
    up, upLo := Nil, 0;
    WalkStart(cdt, sub, lo);
    while next != slot
      invariant cdt.Valid() && WalkedTo(cdt, next, u, uLo, sub, lo) && u.Node? && next == u.item.slot
      invariant p == null ==> u == cdt.tree && uLo == 0
      invariant p != null ==> IsParent(cdt, p, up, upLo, u, uLo)
      decreases u
    {
      StepTowards(cdt, next, u, uLo, sub, lo);
      p, up, upLo := next, u, uLo;
      match CompSlot(p.SlotKey(), slot.SlotKey())
      case LT =>
        WalkRight(cdt, p, u, uLo, sub, lo);
        next := p.right;
        u, uLo := u.right, uLo + |InOrder(u.left)| + 1;
      case GT =>
        WalkLeft(cdt, p, u, uLo, sub, lo);
        next := p.left;
        u := u.left;
      case EQ => assert false;
    }
    WalkEnd(cdt, slot, u, uLo, sub, lo);
  }

  /** aaTraverseForward: the slot right after the given one in the tree order, null at the end. */
  method AaTraverseForward(cdt: Cdt, slot: Cte, ghost i: nat) returns (r: Cte?)
    requires cdt.Valid() && slot in cdt.contents
    requires i < |InOrder(cdt.tree)| && InOrder(cdt.tree)[i].slot == slot
    ensures r == if i + 1 < |InOrder(cdt.tree)| then InOrder(cdt.tree)[i + 1].slot else null
  {
    hide InOrder, Within, Slots, IsTreeOf, Distinct, Leftmost, Rightmost;
    ghost var t := cdt.tree;
    ghost var sub, lo := Locate(t, slot);
    PositionIsUnique(cdt, sub, lo, i);
    ShapeWithin(cdt.root, t, sub, lo);
    var right := slot.right;
    if right != null {
      NextBelow(t, sub, lo);
      r := AaSucc(right, sub.right);
      return;
    }
    WithinAt(t, sub, lo);
    var cur := slot;
    ghost var up, upLo;
    r, up, upLo := AaParent(cdt, cur, sub, lo);
    while r != null && r.left != cur
      invariant sub.Node? && cur == sub.item.slot && Within(t, sub, lo) && lo + |InOrder(sub)| == i + 1
      invariant r == null ==> sub == t && lo == 0
      invariant r != null ==> IsParent(cdt, r, up, upLo, sub, lo)
      decreases |InOrder(t)| - |InOrder(sub)|
    {
      ParentLinks(cdt, r, up, upLo, sub, lo);
      WithinAt(t, up, upLo);
      cur, sub, lo := r, up, upLo;
      r, up, upLo := AaParent(cdt, cur, sub, lo);
    }
    if r != null {
      ParentLinks(cdt, r, up, upLo, sub, lo);
      WithinAt(t, up, upLo);
    }
  }

  /** A slot is found at one position only. */
  lemma PositionIsUnique(cdt: Cdt, sub: CdtTree, lo: int, i: nat)
    requires cdt.Valid() && Within(cdt.tree, sub, lo) && sub.Node?
    requires i < |InOrder(cdt.tree)| && InOrder(cdt.tree)[i].slot == sub.item.slot
    ensures i == lo + |InOrder(sub.left)|
  {
    hide Within, Shape, Slots, Distinct, Balanced, RankOf, Comparable, Less, InOrder;
    WithinAt(cdt.tree, sub, lo);
    var o, j := InOrder(cdt.tree), lo + |InOrder(sub.left)|;
    assert o[i] in o && o[j] in o;
    assert o[i].rank == o[j].rank;
    LessIsTotalOrder(o[i].rank, o[j].rank, o[i].rank);
  }

  /** aaTraverseBackward: the slot right before the given one in the tree order, null at the start. */
  method AaTraverseBackward(cdt: Cdt, slot: Cte, ghost i: nat) returns (r: Cte?)
    requires cdt.Valid() && slot in cdt.contents
    requires i < |InOrder(cdt.tree)| && InOrder(cdt.tree)[i].slot == slot
    ensures r == if i > 0 then InOrder(cdt.tree)[i - 1].slot else null
  {
    hide InOrder, Within, Slots, IsTreeOf, Distinct, Leftmost, Rightmost;
    ghost var t := cdt.tree;
    ghost var sub, lo := Locate(t, slot);
    PositionIsUnique(cdt, sub, lo, i);
    ShapeWithin(cdt.root, t, sub, lo);
    var left := slot.left;
    if left != null {
      PreviousBelow(t, sub, lo);
      r := AaPred(left, sub.left);
      return;
    }
    WithinAt(t, sub, lo);
    var cur := slot;
    ghost var up, upLo;
    r, up, upLo := AaParent(cdt, cur, sub, lo);
    while r != null && r.right != cur
      invariant sub.Node? && cur == sub.item.slot && Within(t, sub, lo) && lo == i
      invariant r == null ==> sub == t && lo == 0
      invariant r != null ==> IsParent(cdt, r, up, upLo, sub, lo)
      decreases |InOrder(t)| - |InOrder(sub)|
    {
      ParentLinks(cdt, r, up, upLo, sub, lo);
      WithinAt(t, up, upLo);
      cur, sub, lo := r, up, upLo;
      r, up, upLo := AaParent(cdt, cur, sub, lo);
    }
    if r != null {
      ParentLinks(cdt, r, up, upLo, sub, lo);
      WithinAt(t, up, upLo);
    }
  }
}
