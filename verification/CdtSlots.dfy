/**
 The AA tree of kernel/src/kernel/cdt.c in place: capability slots hold the tree links, and each
 routine rewrites those links. Every routine takes the tree it works on as a ghost value and is
 proved to leave behind exactly the tree that `AATree` computes from it.
 */
module CdtSlots {
  import opened Arithmetic
  import opened Caps
  import opened AATree

  /** cdtLevel is a five-bit field. */
  const MAX_LEVEL: nat := 31

  /** A capability table entry: a cap and its derivation tree node. */
  class Cte {
    const addr: nat
    var cap: Cap
    var depth: nat
    var level: nat
    var left: Cte?
    var right: Cte?

    constructor (addr: nat)
      ensures this.addr == addr && cap == NullCap && depth == 0 && level == 0 && left == null && right == null
    {
      this.addr, cap, depth, level, left, right := addr, NullCap, 0, 0, null, null;
    }

    function SlotKey(): Key
      reads this`cap, this`depth
    {
      Key(cap, depth, addr)
    }
  }

  type CdtTree = Tree<Cte>

  ghost function Slots(t: CdtTree): set<Cte> {
    if t.Nil? then {} else Slots(t.left) + {t.item.slot} + Slots(t.right)
  }

  /** No slot occurs twice. */
  ghost predicate Distinct(t: CdtTree) {
    t.Node? ==>
      && Distinct(t.left) && Distinct(t.right)
      && t.item.slot !in Slots(t.left) && t.item.slot !in Slots(t.right)
      && Slots(t.left) !! Slots(t.right)
  }

  /** The links and levels stored from slot `n` on spell out the tree `t`. */
  ghost predicate Shape(n: Cte?, t: CdtTree)
    reads Slots(t)`left, Slots(t)`right, Slots(t)`level
  {
    if t.Nil? then n == null
    else n == t.item.slot && n.level == t.level && Shape(n.left, t.left) && Shape(n.right, t.right)
  }

  /** Each node's recorded rank is the one its slot's cap and depth give it. */
  ghost predicate Ranked(t: CdtTree)
    reads Slots(t)`cap, Slots(t)`depth
  {
    t.Node? ==>
      && InTree(t.item.slot.cap) && RankOf(t.item.slot.SlotKey()) == t.item.rank
      && Ranked(t.left) && Ranked(t.right)
  }

  /** The slots of `t` may be compared with `c`. */
  ghost predicate AllComparable(t: CdtTree, c: Cap)
    reads Slots(t)`cap
  {
    forall x :: x in Slots(t) ==> Comparable(x.cap, c)
  }

  lemma {:induction false} SlotAt(t: CdtTree, i: nat)
    requires i < |InOrder(t)|
    ensures InOrder(t)[i].slot in Slots(t)
  {
    var n := |InOrder(t.left)|;
    if i < n {
      SlotAt(t.left, i);
    } else if i > n {
      SlotAt(t.right, i - n - 1);
    }
  }

  method AaSkew(slot: Cte?, ghost t: CdtTree) returns (r: Cte?)
    requires Shape(slot, t) && Distinct(t)
    modifies Slots(t)`left, Slots(t)`right
    ensures Shape(r, Skew(t)) && Distinct(Skew(t)) && Slots(Skew(t)) == Slots(t)
  {
    if slot == null { return null; }
    var left := slot.left;
    if left != null && left.level == slot.level {
      slot.left := left.right;
      left.right := slot;
      return left;
    }
    return slot;
  }

  method AaSplit(slot: Cte?, ghost t: CdtTree) returns (r: Cte?)
    requires Shape(slot, t) && Distinct(t)
    requires Level(Split(t)) <= MAX_LEVEL
    modifies Slots(t)`left, Slots(t)`right, Slots(t)`level
    ensures Shape(r, Split(t)) && Distinct(Split(t)) && Slots(Split(t)) == Slots(t)
  {
    if slot == null { return null; }
    var right := slot.right;
    if right != null {
      var rightRight := right.right;
      assert Shape(rightRight, t.right.right);
      if rightRight != null && slot.level == rightRight.level {
        slot.right := right.left;
        var level := right.level + 1;
        assert level <= MAX_LEVEL;  // the level does not overflow its field
        right.level := level;
        right.left := slot;
        return right;
      }
    }
    return slot;
  }

  function AaLevel(slot: Cte?): nat
    reads slot
  {
    if slot == null then 0 else slot.level
  }

  method AaDecLevel(slot: Cte?, ghost t: CdtTree) returns (r: Cte?)
    requires Shape(slot, t) && Distinct(t)
    modifies Slots(t)`level
    ensures Shape(r, DecLevel(t)) && Distinct(DecLevel(t)) && Slots(DecLevel(t)) == Slots(t)
  {
    if slot == null { return null; }
    var left, right := slot.left, slot.right;
    assert Shape(left, t.left) && Shape(right, t.right);
    var shouldBe := Min(AaLevel(left), AaLevel(right)) + 1;
    if shouldBe < slot.level {
      slot.level := shouldBe;
      if right != null && shouldBe < right.level {
        right.level := shouldBe;
      }
    }
    return slot;
  }

  /** slot->right = aaSkew(slot->right) */
  method AaSkewRight(slot: Cte, ghost t: CdtTree)
    requires t.Node? && Shape(slot, t) && Distinct(t)
    modifies Slots(t)`left, Slots(t)`right
    ensures Shape(slot, t.(right := Skew(t.right)))
    ensures Distinct(t.(right := Skew(t.right))) && Slots(t.(right := Skew(t.right))) == Slots(t)
  {
    assert allocated(Slots(t.left));
    var right := AaSkew(slot.right, t.right);
    slot.right := right;
  }

  /** slot->right = aaSplit(slot->right) */
  method AaSplitRight(slot: Cte, ghost t: CdtTree)
    requires t.Node? && Shape(slot, t) && Distinct(t)
    requires Level(Split(t.right)) <= MAX_LEVEL
    modifies Slots(t)`left, Slots(t)`right, Slots(t)`level
    ensures Shape(slot, t.(right := Split(t.right)))
    ensures Distinct(t.(right := Split(t.right))) && Slots(t.(right := Split(t.right))) == Slots(t)
  {
    assert allocated(Slots(t.left));
    var right := AaSplit(slot.right, t.right);
    slot.right := right;
  }

  /** The first half of aaRebalance: level decrease and three skews. */
  method AaStraighten(slot: Cte, ghost t: CdtTree) returns (r: Cte)
    requires t.Node? && Shape(slot, t) && Distinct(t)
    modifies Slots(t)`left, Slots(t)`right, Slots(t)`level
    ensures Shape(r, Straighten(t)) && Distinct(Straighten(t)) && Slots(Straighten(t)) == Slots(t)
  {
    var lowered := AaDecLevel(slot, t);
    var skewed := AaSkew(lowered, DecLevel(t));
    ghost var t1 := Skew(DecLevel(t));
    AaSkewRight(skewed, t1);
    var right := skewed.right;
    if right != null {
      assert allocated(Slots(t1.left));
      AaSkewRight(right, Skew(t1.right));
    }
    return skewed;
  }

  /** aaRebalance: level decrease, three skews, two splits. */
  method AaRebalance(slot: Cte?, ghost t: CdtTree) returns (r: Cte?, ghost t': CdtTree)
    requires Shape(slot, t) && Distinct(t)
    requires t.Node? ==> SplitsStayBelow(t, MAX_LEVEL)
    modifies Slots(t)`left, Slots(t)`right, Slots(t)`level
    ensures t' == Rebalance(t)
    ensures Shape(r, t') && Distinct(t') && Slots(t') == Slots(t)
  {
    if slot == null { return null, Nil; }
    r := AaStraighten(slot, t);
    t' := Straighten(t);
    r := AaSplit(r, t');
    t' := Split(t');
    AaSplitRight(r, t');
    t' := t'.(right := Split(t'.right));
  }

  /** aaSucc: the leftmost slot of a subtree. */
  method AaSucc(slot: Cte, ghost t: CdtTree) returns (r: Cte)
    requires t.Node? && Shape(slot, t)
    ensures r == Leftmost(t).slot
  {
    r := slot;
    ghost var u := t;
    while r.left != null
      invariant u.Node? && Shape(r, u) && Leftmost(u) == Leftmost(t)
      decreases u
    {
      r := r.left;
      u := u.left;
    }
  }

  /** aaPred: the rightmost slot of a subtree. */
  method AaPred(slot: Cte, ghost t: CdtTree) returns (r: Cte)
    requires t.Node? && Shape(slot, t)
    ensures r == Rightmost(t).slot
  {
    r := slot;
    ghost var u := t;
    while r.right != null
      invariant u.Node? && Shape(r, u) && Rightmost(u) == Rightmost(t)
      decreases u
    {
      r := r.right;
      u := u.right;
    }
  }

  /** The number of nodes for which no valid tree can need a level beyond the field's range. */
  const MAX_NODES: nat := 0xFFFF_FFFE

  lemma LevelFits(t: CdtTree)
    requires Balanced(t) && Size(t) <= MAX_NODES
    ensures Level(t) <= MAX_LEVEL
  {
    LevelBound(t);
    assert Bit(8) == 256 && Bit(16) == 256 * Bit(8);
    assert Bit(24) == 256 * Bit(16) && Bit(32) == 256 * Bit(24);
    if Level(t) > MAX_LEVEL {
      BitMonotone(32, Level(t));
    }
  }

  ghost function ItemOf(s: Cte): Item<Cte>
    requires InTree(s.cap)
    reads s`cap, s`depth
  {
    Item(s, RankOf(s.SlotKey()))
  }

  /** The end of every step of aaInsert: aaSplit(aaSkew(root)). */
  method AaSkewSplit(root: Cte?, ghost t: CdtTree) returns (r: Cte?, ghost t': CdtTree)
    requires Shape(root, t) && Distinct(t)
    requires Level(Split(Skew(t))) <= MAX_LEVEL
    modifies Slots(t)`left, Slots(t)`right, Slots(t)`level
    ensures t' == Split(Skew(t))
    ensures Shape(r, t') && Distinct(t') && Slots(t') == Slots(t)
  {
    r := AaSkew(root, t);
    r := AaSplit(r, Skew(t));
    t' := Split(Skew(t));
  }

  /** What one step of aaInsert may rely on. */
  lemma InsertStep(t: CdtTree, slot: Cte)
    requires t.Node? && Ranked(t) && InTree(slot.cap) && Comparable(slot.cap, t.item.slot.cap)
    requires Balanced(t) && Size(t) < MAX_NODES && !HasRank(t, RankOf(slot.SlotKey()))
    ensures var c, x := CompSlot(slot.SlotKey(), t.item.slot.SlotKey()), ItemOf(slot);
            && c != EQ
            && (c == GT ==> Insert(t, x) == Split(Skew(t.(right := Insert(t.right, x)))))
            && (c == LT ==> Insert(t, x) == Split(Skew(t.(left := Insert(t.left, x)))))
    ensures !HasRank(t.left, ItemOf(slot).rank) && !HasRank(t.right, ItemOf(slot).rank)
    ensures Level(Insert(t, ItemOf(slot))) <= MAX_LEVEL
  {
    var x := ItemOf(slot);
    CompSlotIsLess(slot.SlotKey(), t.item.slot.SlotKey());
    LessIsTotalOrder(x.rank, t.item.rank, x.rank);
    HasRankParts(t, x.rank);
    InsertBalanced(t, x);
    InsertSize(t, x);
    LevelFits(Insert(t, x));
  }

  method SetRight(n: Cte, right: Cte?, ghost t: CdtTree, ghost r: CdtTree) returns (ghost t': CdtTree)
    requires t.Node? && n == t.item.slot && n.level == t.level && Shape(n.left, t.left) && Shape(right, r)
    requires Distinct(t.left) && Distinct(r) && n !in Slots(t.left) && n !in Slots(r) && Slots(t.left) !! Slots(r)
    modifies n`right
    ensures t' == t.(right := r) && Shape(n, t') && Distinct(t') && Slots(t') == Slots(t.left) + {n} + Slots(r)
  {
    n.right := right;
    t' := t.(right := r);
  }

  method SetLeft(n: Cte, left: Cte?, ghost t: CdtTree, ghost l: CdtTree) returns (ghost t': CdtTree)
    requires t.Node? && n == t.item.slot && n.level == t.level && Shape(n.right, t.right) && Shape(left, l)
    requires Distinct(t.right) && Distinct(l) && n !in Slots(t.right) && n !in Slots(l) && Slots(l) !! Slots(t.right)
    modifies n`left
    ensures t' == t.(left := l) && Shape(n, t') && Distinct(t') && Slots(t') == Slots(l) + {n} + Slots(t.right)
  {
    n.left := left;
    t' := t.(left := l);
  }

  method AaInsert(root: Cte?, slot: Cte, ghost t: CdtTree) returns (r: Cte?, ghost t': CdtTree)
    requires Shape(root, t) && Distinct(t) && Ranked(t) && slot !in Slots(t)
    requires InTree(slot.cap) && AllComparable(t, slot.cap) && slot.left == null && slot.right == null
    requires Balanced(t) && Size(t) < MAX_NODES && !HasRank(t, RankOf(slot.SlotKey()))
    modifies Slots(t)`left, Slots(t)`right, Slots(t)`level, slot`left, slot`right, slot`level
    ensures t' == Insert(t, ItemOf(slot))
    ensures Shape(r, t') && Distinct(t') && Slots(t') == Slots(t) + {slot}
    decreases t, 1
  {
    if root == null {
      slot.level := 1;
      return slot, Node(1, Nil, ItemOf(slot), Nil);
    }
    InsertStep(t, slot);
    match CompSlot(slot.SlotKey(), root.SlotKey())
    case GT => r, t' := AaInsertRight(root, slot, t);
    case LT => r, t' := AaInsertLeft(root, slot, t);
    case EQ => assert false;  // inserting a duplicate
  }

  /** The GT case of aaInsert. */
  method AaInsertRight(root: Cte, slot: Cte, ghost t: CdtTree) returns (r: Cte?, ghost t': CdtTree)
    requires t.Node? && Shape(root, t) && Distinct(t) && Ranked(t) && slot !in Slots(t)
    requires InTree(slot.cap) && AllComparable(t, slot.cap) && slot.left == null && slot.right == null
    requires Balanced(t) && Size(t) < MAX_NODES && !HasRank(t.right, ItemOf(slot).rank)
    requires Level(Split(Skew(t.(right := Insert(t.right, ItemOf(slot)))))) <= MAX_LEVEL
    modifies Slots(t)`left, Slots(t)`right, Slots(t)`level, slot`left, slot`right, slot`level
    ensures t' == Split(Skew(t.(right := Insert(t.right, ItemOf(slot)))))
    ensures Shape(r, t') && Distinct(t') && Slots(t') == Slots(t) + {slot}
    decreases t, 0
  {
    hide Sorted, RankOf, Less, Comparable;
    assert allocated(Slots(t.left)) && allocated(Slots(t.right));
    var right, right' := AaInsert(root.right, slot, t.right);
    t' := SetRight(root, right, t, right');
    r, t' := AaSkewSplit(root, t');
  }

  /** The LT case of aaInsert. */
  method AaInsertLeft(root: Cte, slot: Cte, ghost t: CdtTree) returns (r: Cte?, ghost t': CdtTree)
    requires t.Node? && Shape(root, t) && Distinct(t) && Ranked(t) && slot !in Slots(t)
    requires InTree(slot.cap) && AllComparable(t, slot.cap) && slot.left == null && slot.right == null
    requires Balanced(t) && Size(t) < MAX_NODES && !HasRank(t.left, ItemOf(slot).rank)
    requires Level(Split(Skew(t.(left := Insert(t.left, ItemOf(slot)))))) <= MAX_LEVEL
    modifies Slots(t)`left, Slots(t)`right, Slots(t)`level, slot`left, slot`right, slot`level
    ensures t' == Split(Skew(t.(left := Insert(t.left, ItemOf(slot)))))
    ensures Shape(r, t') && Distinct(t') && Slots(t') == Slots(t) + {slot}
    decreases t, 0
  {
    hide Sorted, RankOf, Less, Comparable;
    assert allocated(Slots(t.left)) && allocated(Slots(t.right));
    var left, left' := AaInsert(root.left, slot, t.left);
    t' := SetLeft(root, left, t, left');
    r, t' := AaSkewSplit(root, t');
  }

  /** Every slot of a ranked tree sits at some in-order position under its own rank. */
  lemma {:induction false} Position(t: CdtTree, s: Cte) returns (i: nat)
    requires Ranked(t) && s in Slots(t)
    ensures InTree(s.cap) && i < |InOrder(t)| && InOrder(t)[i] == ItemOf(s)
  {
    if s in Slots(t.left) {
      i := Position(t.left, s);
    } else if s == t.item.slot {
      i := |InOrder(t.left)|;
    } else {
      i := Position(t.right, s);
      i := |InOrder(t.left)| + 1 + i;
    }
  }

  /** A node's place relative to the root decides which subtree of an ordered tree holds it. */
  lemma InSubtree(t: CdtTree, s: Cte)
    requires t.Node? && Ordered(t) && Ranked(t) && s in Slots(t)
    ensures InTree(s.cap)
    ensures Less(RankOf(s.SlotKey()), t.item.rank) ==> s in Slots(t.left)
    ensures Less(t.item.rank, RankOf(s.SlotKey())) ==> s in Slots(t.right)
    ensures RankOf(s.SlotKey()) == t.item.rank ==> s == t.item.slot
    ensures Ordered(t.left) && Ordered(t.right)
  {
    SortedParts(InOrder(t.left), t.item, InOrder(t.right));
    if s in Slots(t.left) {
      var i := Position(t.left, s);
      LessIsTotalOrder(RankOf(s.SlotKey()), t.item.rank, RankOf(s.SlotKey()));
    } else if s in Slots(t.right) {
      var i := Position(t.right, s);
      LessIsTotalOrder(t.item.rank, RankOf(s.SlotKey()), t.item.rank);
    }
  }

  ghost predicate MutuallyComparable(t: CdtTree)
    reads Slots(t)`cap
  {
    forall x, y :: x in Slots(t) && y in Slots(t) ==> Comparable(x.cap, y.cap)
  }

  /** What one step of aaRemove may rely on. */
  lemma RemoveStep(t: CdtTree, target: Cte)
    requires t.Node? && Ranked(t) && Ordered(t) && Balanced(t) && Level(t) <= MAX_LEVEL
    requires target in Slots(t) && MutuallyComparable(t)
    ensures InTree(target.cap)
    ensures Ordered(t.left) && Ordered(t.right)
    ensures var c, x := CompSlot(target.SlotKey(), t.item.slot.SlotKey()), RankOf(target.SlotKey());
            && (c == GT ==> target in Slots(t.right) && Remove(t, x) == Rebalance(t.(right := Remove(t.right, x))))
            && (c == LT ==> target in Slots(t.left) && Remove(t, x) == Rebalance(t.(left := Remove(t.left, x))))
            && (c == EQ ==> target == t.item.slot && Remove(t, x) == Rebalance(RemoveNode(t)))
    ensures var c, x := CompSlot(target.SlotKey(), t.item.slot.SlotKey()), RankOf(target.SlotKey());
            && (c == GT ==> SplitsStayBelow(t.(right := Remove(t.right, x)), MAX_LEVEL))
            && (c == LT ==> SplitsStayBelow(t.(left := Remove(t.left, x)), MAX_LEVEL))
            && (c == EQ && RemoveNode(t).Node? ==> SplitsStayBelow(RemoveNode(t), MAX_LEVEL))
  {
    InSubtree(t, target);
    var x := RankOf(target.SlotKey());
    CompSlotIsLess(target.SlotKey(), t.item.slot.SlotKey());
    LessIsTotalOrder(x, t.item.rank, x);
    match CompSlot(target.SlotKey(), t.item.slot.SlotKey())
    case GT =>
      RemoveBalanced(t.right, x);
      ShrinkRight(t, Remove(t.right, x), t.item);
    case LT =>
      RemoveBalanced(t.left, x);
      ShrinkLeft(t, Remove(t.left, x), t.item);
    case EQ =>
      RemoveNodeBalanced(t);
  }

  method AaRemove(isSwapped: bool, root: Cte?, target: Cte, ghost t: CdtTree) returns (r: Cte?, ghost t': CdtTree)
    requires Shape(root, t) && Distinct(t) && Ranked(t) && Ordered(t)
    requires target in Slots(t) && MutuallyComparable(t)
    requires Balanced(t) && Level(t) <= MAX_LEVEL
    modifies Slots(t)`left, Slots(t)`right, Slots(t)`level
    ensures InTree(target.cap) && t' == Remove(t, RankOf(target.SlotKey()))
    ensures Shape(r, t') && Distinct(t') && Slots(t') == Slots(t) - {target}
    decreases t, 2
  {
    RemoveStep(t, target);
    match CompSlot(target.SlotKey(), root.SlotKey())
    case GT => r, t' := AaRemoveRight(isSwapped, root, target, t);
    case LT => r, t' := AaRemoveLeft(isSwapped, root, target, t);
    case EQ =>
      r, t' := AaRemoveNode(isSwapped, root, t);
      r, t' := AaRebalance(r, t');
  }

  /** The GT case of aaRemove. */
  method AaRemoveRight(isSwapped: bool, root: Cte, target: Cte, ghost t: CdtTree) returns (r: Cte?, ghost t': CdtTree)
    requires t.Node? && Shape(root, t) && Distinct(t) && Ranked(t) && Ordered(t.right)
    requires target in Slots(t.right) && MutuallyComparable(t) && InTree(target.cap)
    requires Balanced(t) && Level(t) <= MAX_LEVEL
    requires SplitsStayBelow(t.(right := Remove(t.right, RankOf(target.SlotKey()))), MAX_LEVEL)
    modifies Slots(t)`left, Slots(t)`right, Slots(t)`level
    ensures t' == Rebalance(t.(right := Remove(t.right, RankOf(target.SlotKey()))))
    ensures Shape(r, t') && Distinct(t') && Slots(t') == Slots(t) - {target}
    decreases t, 1
  {
    hide Sorted, RankOf, Less, Comparable;
    assert allocated(Slots(t.left)) && allocated(Slots(t.right));
    var right, right' := AaRemove(isSwapped, root.right, target, t.right);
    t' := SetRight(root, right, t, right');
    r, t' := AaRebalance(root, t');
  }

  /** The LT case of aaRemove. */
  method AaRemoveLeft(isSwapped: bool, root: Cte, target: Cte, ghost t: CdtTree) returns (r: Cte?, ghost t': CdtTree)
    requires t.Node? && Shape(root, t) && Distinct(t) && Ranked(t) && Ordered(t.left)
    requires target in Slots(t.left) && MutuallyComparable(t) && InTree(target.cap)
    requires Balanced(t) && Level(t) <= MAX_LEVEL
    requires SplitsStayBelow(t.(left := Remove(t.left, RankOf(target.SlotKey()))), MAX_LEVEL)
    modifies Slots(t)`left, Slots(t)`right, Slots(t)`level
    ensures t' == Rebalance(t.(left := Remove(t.left, RankOf(target.SlotKey()))))
    ensures Shape(r, t') && Distinct(t') && Slots(t') == Slots(t) - {target}
    decreases t, 1
  {
    hide Sorted, RankOf, Less, Comparable;
    assert allocated(Slots(t.left)) && allocated(Slots(t.right));
    var left, left' := AaRemove(isSwapped, root.left, target, t.left);
    t' := SetLeft(root, left, t, left');
    r, t' := AaRebalance(root, t');
  }

  method AaRemoveNode(isSwapped: bool, root: Cte, ghost t: CdtTree) returns (r: Cte?, ghost t': CdtTree)
    requires t.Node? && Shape(root, t) && Distinct(t) && Ranked(t) && Ordered(t)
    requires Balanced(t) && Level(t) <= MAX_LEVEL && MutuallyComparable(t)
    modifies Slots(t)`left, Slots(t)`right, Slots(t)`level
    ensures t' == RemoveNode(t)
    ensures Shape(r, t') && Distinct(t') && Slots(t') == Slots(t) - {t.item.slot}
    decreases t, 1
  {
    hide Sorted, RankOf, Less, Comparable;
    var left, right := root.left, root.right;
    assert allocated(Slots(t.left)) && allocated(Slots(t.right));
    if left != null {
      var pred := AaPred(left, t.left);
      OrderedParts(t);
      RightmostRanked(t.left);
      var newLeft, left' := AaRemove(true, left, pred, t.left);
      t' := Relink(pred, root.level, newLeft, root.right, left', Rightmost(t.left), t.right);
      return pred, t';
    } else if right != null {
      var succ := AaSucc(right, t.right);
      OrderedParts(t);
      LeftmostRanked(t.right);
      var newRight, right' := AaRemove(true, right, succ, t.right);
      t' := Relink(succ, root.level, null, newRight, Nil, Leftmost(t.right), right');
      return succ, t';
    } else {
      return null, Nil;
    }
  }

  /** Writes all three tree fields of a slot, making it the root over two given subtrees. */
  method Relink(n: Cte, level: nat, left: Cte?, right: Cte?, ghost l: CdtTree, ghost x: Item<Cte>, ghost r: CdtTree)
    returns (ghost t': CdtTree)
    requires Shape(left, l) && Shape(right, r) && Distinct(l) && Distinct(r)
    requires n == x.slot && n !in Slots(l) && n !in Slots(r) && Slots(l) !! Slots(r)
    modifies n`left, n`right, n`level
    ensures t' == Node(level, l, x, r)
    ensures Shape(n, t') && Distinct(t') && Slots(t') == Slots(l) + {n} + Slots(r)
  {
    n.level := level;
    n.right := right;
    n.left := left;
    t' := Node(level, l, x, r);
  }

  lemma OrderedParts(t: CdtTree)
    requires t.Node? && Ordered(t)
    ensures Ordered(t.left) && Ordered(t.right)
  {
    SortedParts(InOrder(t.left), t.item, InOrder(t.right));
  }

  lemma {:induction false} RightmostRanked(t: CdtTree)
    requires t.Node? && Ranked(t)
    ensures Rightmost(t).slot in Slots(t) && InTree(Rightmost(t).slot.cap)
    ensures Rightmost(t) == ItemOf(Rightmost(t).slot)
  {
    if t.right.Node? { RightmostRanked(t.right); }
  }

  lemma {:induction false} LeftmostRanked(t: CdtTree)
    requires t.Node? && Ranked(t)
    ensures Leftmost(t).slot in Slots(t) && InTree(Leftmost(t).slot.cap)
    ensures Leftmost(t) == ItemOf(Leftmost(t).slot)
  {
    if t.left.Node? { LeftmostRanked(t.left); }
  }
}
