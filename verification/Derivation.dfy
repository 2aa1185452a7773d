/**
 The capability derivation tree (kernel/src/kernel/cdt.c) as the rest of the kernel changes it:
 insertion, removal, move, update and swap of slots.
 */
module Derivation {
  import opened Arithmetic
  import opened Caps
  import opened AATree
  import opened CdtSlots

  /** What is in the tree: each slot with its cap and depth. */
  type Contents = map<Cte, Key>

  /** The slots hold what `m` says. */
  ghost predicate Stored(m: Contents)
    reads m.Keys`cap, m.Keys`depth
  {
    forall s :: s in m ==> s.SlotKey() == m[s]
  }

  ghost predicate AllCapsComparable(m: Contents) {
    forall x, y :: x in m && y in m ==> Comparable(m[x].cap, m[y].cap)
  }

  /** `t` is a search-ordered and balanced tree of exactly the slots of `m`. */
  ghost predicate IsTreeOf(t: CdtTree, m: Contents) {
    && Slots(t) == m.Keys && Distinct(t) && Ordered(t) && Balanced(t) && Size(t) <= MAX_NODES
    && AllCapsComparable(m)
    && forall x :: x in InOrder(t) ==> x.slot in m && x.rank == RankOf(m[x.slot])
  }

  /** `c` may join the slots of `m` in `slot`: the slot's address is its own and the caps can be compared. */
  ghost predicate MayHold(m: Contents, slot: Cte, c: Cap) {
    InTree(c) && forall x :: x in m ==> x.addr != slot.addr && Comparable(m[x].cap, c)
  }

  /** The depth cdtInsert gives a cap derived from another: one more, until the field is full. */
  function ChildDepth(parent: Cap, depth: nat, child: Cap): nat
    requires InTree(parent) && InTree(child)
  {
    if SpaceOf(parent) != SpaceOf(child) then 0
    else if depth + 1 == Bit(DepthBits(child)) then depth
    else depth + 1
  }

  /** `m` with `slot` holding cap `c` at the given depth; a null cap is not in the tree. */
  ghost function Placed(m: Contents, slot: Cte, c: Cap, depth: nat): Contents {
    if c.NullCap? then m else m[slot := Key(c, depth, slot.addr)]
  }

  /** Every depth fits the field that caps of its kind have for it. */
  ghost predicate DepthsFit(m: Contents) {
    forall s :: s in m ==> m[s].depth < Bit(DepthBits(m[s].cap))
  }

  /** What cdtInsert puts in the tree has a depth that fits, when it is derived from a cap of its own kind. */
  lemma DerivedDepthFits(m: Contents, parent: Cte, slot: Cte, c: Cap)
    requires DepthsFit(m) && parent in m && InTree(m[parent].cap) && InTree(c)
    requires SpaceOf(m[parent].cap) == SpaceOf(c) ==> DepthBits(m[parent].cap) == DepthBits(c)
    ensures DepthsFit(m[slot := Key(c, ChildDepth(m[parent].cap, m[parent].depth, c), slot.addr)])
  {
    var d, bound := m[parent].depth, Bit(DepthBits(m[parent].cap));
    assert d < bound;
  }

  /** Removal keeps the depths within their fields; so do a move and an update that keep the kind of cap. */
  lemma MovedDepthFits(m: Contents, from: Cte, to: Cte, c: Cap)
    requires DepthsFit(m) && from in m && DepthBits(c) == DepthBits(m[from].cap)
    ensures DepthsFit(m - {from}) && DepthsFit((m - {from})[to := Key(c, m[from].depth, to.addr)])
    ensures DepthsFit(m[from := Key(c, m[from].depth, from.addr)])
  {
  }

  lemma MayHoldBeside(m: Contents, slot1: Cte, c1: Cap, depth: nat, slot2: Cte, c2: Cap)
    requires MayHold(m, slot2, c2)
    requires c1.NullCap? || (slot1.addr != slot2.addr && Comparable(c1, c2))
    ensures MayHold(Placed(m, slot1, c1, depth), slot2, c2)
  {
  }

  class Cdt {
    /** ksRootCTE */
    var root: Cte?
    ghost var tree: CdtTree
    ghost var contents: Contents

    ghost predicate Valid()
      reads this, contents.Keys, Slots(tree)
    {
      && Shape(root, tree) && Slots(tree) == contents.Keys && Stored(contents) && IsTreeOf(tree, contents)
      && Size(tree) <= MAX_NODES
    }

    constructor ()
      ensures Valid() && contents == map[] && root == null
    {
      root, tree, contents := null, Nil, map[];
    }

    /** ksRootCTE = aaInsert(ksRootCTE, slot) */
    method InsertTree(slot: Cte)
      requires Valid() && slot !in contents && MayHold(contents, slot, slot.cap)
      requires slot.left == null && slot.right == null && Size(tree) < MAX_NODES
      modifies this, contents.Keys`left, contents.Keys`right, contents.Keys`level
      modifies slot`left, slot`right, slot`level
      ensures Valid() && contents == old(contents)[slot := slot.SlotKey()]
      ensures Size(tree) == old(Size(tree)) + 1
    {
      hide Shape, Slots, Distinct, Balanced, Size, InOrder, IsTreeOf;
      root, tree := InsertAtRoot(root, slot, tree, contents);
      contents := contents[slot := slot.SlotKey()];
    }

    /** ksRootCTE = aaRemove(false, ksRootCTE, slot) */
    method RemoveTree(slot: Cte)
      requires Valid() && slot in contents
      modifies this, contents.Keys`left, contents.Keys`right, contents.Keys`level
      ensures Valid() && contents == old(contents) - {slot}
      ensures Size(tree) == old(Size(tree)) - 1
    {
      hide Shape, Slots, Distinct, Balanced, Size, InOrder, IsTreeOf;
      root, tree := RemoveAtRoot(root, slot, tree, contents);
      contents := contents - {slot};
    }

    /** Stores a cap and a fresh node in a slot outside the tree, and inserts it unless the cap is null. */
    method Attach(slot: Cte, c: Cap, depth: nat)
      requires Valid() && slot !in contents && Size(tree) < MAX_NODES
      requires c.NullCap? || MayHold(contents, slot, c)
      modifies this, contents.Keys`left, contents.Keys`right, contents.Keys`level
      modifies slot`left, slot`right, slot`level, slot`depth, slot`cap
      ensures Valid() && slot.cap == c && slot.depth == depth
      ensures contents == Placed(old(contents), slot, c, depth)
      ensures Size(tree) == old(Size(tree)) + if c.NullCap? then 0 else 1
    {
      hide Shape, Slots, Distinct, Balanced, Size, InOrder, IsTreeOf;
      slot.left, slot.right, slot.level, slot.depth, slot.cap := null, null, 0, depth, c;
      if !c.NullCap? {
        InsertTree(slot);
      }
    }

    /** Takes a slot out of the tree, unless its cap is null. */
    method Detach(slot: Cte)
      requires Valid() && (slot.cap.NullCap? <==> slot !in contents)
      modifies this, contents.Keys`left, contents.Keys`right, contents.Keys`level
      ensures Valid() && contents == old(contents) - {slot}
      ensures Size(tree) <= old(Size(tree))
    {
      if !slot.cap.NullCap? {
        RemoveTree(slot);
      }
    }

    method DetachBoth(slot1: Cte, slot2: Cte)
      requires Valid() && slot1 != slot2
      requires (slot1.cap.NullCap? <==> slot1 !in contents) && (slot2.cap.NullCap? <==> slot2 !in contents)
      modifies this, contents.Keys`left, contents.Keys`right, contents.Keys`level
      ensures Valid() && contents == old(contents) - {slot1, slot2}
      ensures Size(tree) <= old(Size(tree))
    {
      hide Shape, Slots, Distinct, Balanced, Size, InOrder, IsTreeOf;
      Detach(slot1);
      Detach(slot2);
    }

    method CdtInsert(parentSlot: Cte?, newSlot: Cte)
      requires Valid() && newSlot !in contents && MayHold(contents, newSlot, newSlot.cap) && Size(tree) < MAX_NODES
      requires parentSlot != null ==> InTree(parentSlot.cap)
      modifies this, contents.Keys`left, contents.Keys`right, contents.Keys`level
      modifies newSlot`left, newSlot`right, newSlot`level, newSlot`depth, newSlot`cap
      ensures Valid() && newSlot.cap == old(newSlot.cap)
      ensures var depth := if parentSlot == null then 0
                           else old(ChildDepth(parentSlot.cap, parentSlot.depth, newSlot.cap));
              contents == old(contents)[newSlot := Key(newSlot.cap, depth, newSlot.addr)]
    {
      hide Shape, Slots, Distinct, Balanced, Size, InOrder, IsTreeOf;
      var depth := 0;
      if parentSlot != null && SpaceOf(parentSlot.cap) == SpaceOf(newSlot.cap) {
        depth := parentSlot.depth + 1;
        if depth == Bit(DepthBits(newSlot.cap)) {
          depth := depth - 1;
        }
      }
      Attach(newSlot, newSlot.cap, depth);
    }

    method CdtRemove(slot: Cte)
      requires Valid() && slot in contents
      modifies this, contents.Keys`left, contents.Keys`right, contents.Keys`level, slot`depth
      ensures Valid() && contents == old(contents) - {slot}
      ensures slot.left == null && slot.right == null && slot.level == 0 && slot.depth == 0
      ensures Size(tree) == old(Size(tree)) - 1
    {
      hide Shape, Slots, Distinct, Balanced, Size, InOrder, IsTreeOf;
      RemoveTree(slot);
      slot.left, slot.right, slot.level, slot.depth := null, null, 0, 0;
    }

    method CdtMove(oldSlot: Cte, newSlot: Cte)
      requires Valid() && oldSlot in contents && newSlot !in contents
      requires MayHold(contents - {oldSlot}, newSlot, newSlot.cap)
      modifies this, contents.Keys`left, contents.Keys`right, contents.Keys`level, oldSlot`depth
      modifies newSlot`left, newSlot`right, newSlot`level, newSlot`depth, newSlot`cap
      ensures Valid() && newSlot.cap == old(newSlot.cap)
      ensures contents == (old(contents) - {oldSlot})[newSlot := Key(newSlot.cap, old(oldSlot.depth), newSlot.addr)]
    {
      hide Shape, Slots, Distinct, Balanced, Size, InOrder, IsTreeOf;
      var depth := oldSlot.depth;
      CdtRemove(oldSlot);
      Attach(newSlot, newSlot.cap, depth);
    }

    /** The in-place shortcut is taken when the new cap has the old one's place in the order. */
    method CdtUpdate(slot: Cte, newCap: Cap)
      requires Valid() && slot in contents && MayHold(contents - {slot}, slot, newCap)
      modifies this, contents.Keys`left, contents.Keys`right, contents.Keys`level, slot`depth, slot`cap
      ensures Valid() && slot.cap == newCap
      ensures contents == old(contents)[slot := Key(newCap, old(slot.depth), slot.addr)]
    {
      hide Shape, Slots, Distinct, Balanced, Size, InOrder, IsTreeOf, Comparable, CapsEqual;
      RecapTree(tree, contents, slot, newCap);
      if CapsEqual(slot.cap, newCap) {
        slot.cap := newCap;
        contents := contents[slot := slot.SlotKey()];
      } else {
        RemoveTree(slot);
        Attach(slot, newCap, slot.depth);
      }
    }

    method CdtSwap(cap1: Cap, slot1: Cte, cap2: Cap, slot2: Cte)
      requires Valid() && slot1 != slot2 && Size(tree) < MAX_NODES - 1
      requires (slot1.cap.NullCap? <==> slot1 !in contents) && (slot2.cap.NullCap? <==> slot2 !in contents)
      requires cap1.NullCap? || MayHold(contents - {slot1, slot2}, slot2, cap1)
      requires cap2.NullCap? || MayHold(contents - {slot1, slot2}, slot1, cap2)
      requires cap1.NullCap? || cap2.NullCap? || (slot1.addr != slot2.addr && Comparable(cap2, cap1))
      modifies this, contents.Keys`left, contents.Keys`right, contents.Keys`level
      modifies slot1`left, slot1`right, slot1`level, slot1`depth, slot1`cap
      modifies slot2`left, slot2`right, slot2`level, slot2`depth, slot2`cap
      ensures Valid() && slot1.cap == cap2 && slot2.cap == cap1
      ensures contents == Placed(Placed(old(contents) - {slot1, slot2}, slot1, cap2, old(slot2.depth)),
                                 slot2, cap1, old(slot1.depth))
    {
      hide Shape, Slots, Distinct, Balanced, Size, InOrder, IsTreeOf, Comparable, MayHold;
      if !cap1.NullCap? {
        MayHoldBeside(contents - {slot1, slot2}, slot1, cap2, slot2.depth, slot2, cap1);
      }
      DetachBoth(slot1, slot2);
      var depth1, depth2 := slot1.depth, slot2.depth;
      Attach(slot1, cap2, depth2);
      Attach(slot2, cap1, depth1);
    }
  }

  // ---------------------------------------------------------------------------------------
  // From the routines on links to the tree of a set of slots
  // ---------------------------------------------------------------------------------------

  lemma {:induction false} RankedFrom(t: CdtTree, m: Contents)
    requires Stored(m) && Slots(t) <= m.Keys
    requires forall s :: s in m ==> InTree(m[s].cap)
    requires forall x :: x in InOrder(t) ==> x.slot in m && x.rank == RankOf(m[x.slot])
    ensures Ranked(t)
  {
    if t.Node? {
      assert t.item in InOrder(t);
      RankedFrom(t.left, m);
      RankedFrom(t.right, m);
    }
  }

  lemma ItemsAreSlots(t: CdtTree)
    ensures forall x :: x in InOrder(t) ==> x.slot in Slots(t)
  {
    forall x | x in InOrder(t) ensures x.slot in Slots(t) {
      var i :| 0 <= i < |InOrder(t)| && InOrder(t)[i] == x;
      SlotAt(t, i);
    }
  }

  lemma ComparableCapsAreInTree(m: Contents)
    requires AllCapsComparable(m)
    ensures forall s :: s in m ==> InTree(m[s].cap)
  {
    forall s | s in m ensures InTree(m[s].cap) { assert Comparable(m[s].cap, m[s].cap); }
  }

  lemma {:induction false} SizeInOrder(t: CdtTree)
    ensures Size(t) == |InOrder(t)|
  {
    if t.Node? { SizeInOrder(t.left); SizeInOrder(t.right); }
  }

  /** A tree stays the tree of its slots when one cap gives way to one that cdtUpdate calls equal. */
  lemma RecapTree(t: CdtTree, m: Contents, slot: Cte, c: Cap)
    requires IsTreeOf(t, m) && slot in m && MayHold(m - {slot}, slot, c)
    ensures InTree(m[slot].cap)
    ensures CapsEqual(m[slot].cap, c) ==> IsTreeOf(t, m[slot := m[slot].(cap := c)])
  {
    ComparableCapsAreInTree(m);
    if CapsEqual(m[slot].cap, c) {
      CapsEqualKeepsRank(m[slot].cap, c, m[slot].depth, m[slot].addr);
      var m' := m[slot := m[slot].(cap := c)];
      forall x, y | x in m' && y in m' ensures Comparable(m'[x].cap, m'[y].cap) {
        if x != slot { assert x in m - {slot}; }
        if y != slot { assert y in m - {slot}; }
      }
    }
  }

  /** A slot whose address is its own has a rank of its own. */
  lemma RankIsNew(t: CdtTree, m: Contents, slot: Cte, k: Key)
    requires IsTreeOf(t, m) && InTree(k.cap) && k.addr == slot.addr && MayHold(m, slot, k.cap)
    requires Stored(m)
    ensures !HasRank(t, RankOf(k))
  {
    hide Comparable, Ordered, Balanced, Distinct;
    forall i | 0 <= i < |InOrder(t)| ensures InOrder(t)[i].rank != RankOf(k) {
      var x := InOrder(t)[i];
      assert x in InOrder(t) && m[x.slot].addr == x.slot.addr;
    }
  }

  lemma InsertedTree(t: CdtTree, m: Contents, slot: Cte)
    requires Stored(m) && IsTreeOf(t, m) && slot !in m && MayHold(m, slot, slot.cap) && Size(t) < MAX_NODES
    ensures !HasRank(t, ItemOf(slot).rank)
    ensures var t' := Insert(t, ItemOf(slot));
            && Ordered(t') && Balanced(t') && Size(t') == Size(t) + 1
            && forall x :: x in InOrder(t') ==> x == ItemOf(slot) || x in InOrder(t)
  {
    var x := ItemOf(slot);
    RankIsNew(t, m, slot, slot.SlotKey());
    InsertBalanced(t, x);
    InsertOrdered(t, x);
    var k := InsertInOrder(t, x);
    SizeInOrder(t);
    SizeInOrder(Insert(t, x));
  }

  lemma RemovedTree(t: CdtTree, slot: Cte)
    requires Ranked(t) && Ordered(t) && Balanced(t) && slot in Slots(t)
    ensures InTree(slot.cap)
    ensures var t' := Remove(t, RankOf(slot.SlotKey()));
            && Ordered(t') && Balanced(t') && Size(t') == Size(t) - 1
            && forall x :: x in InOrder(t') ==> x in InOrder(t)
  {
    var i := Position(t, slot);
    var r := RankOf(slot.SlotKey());
    RemoveBalanced(t, r);
    RemoveInOrder(t, i);
    SizeInOrder(t);
    SizeInOrder(Remove(t, r));
  }

  lemma JoinedTree(t: CdtTree, m: Contents, t': CdtTree, slot: Cte, k: Key)
    requires IsTreeOf(t, m) && slot !in m && MayHold(m, slot, k.cap)
    requires Slots(t') == Slots(t) + {slot} && Distinct(t') && Ordered(t') && Balanced(t') && Size(t') <= MAX_NODES
    requires forall x :: x in InOrder(t') ==> x == Item(slot, RankOf(k)) || x in InOrder(t)
    ensures IsTreeOf(t', m[slot := k])
  {
    var m' := m[slot := k];
    forall x | x in InOrder(t') ensures x.slot in m' && x.rank == RankOf(m'[x.slot]) {
    }
  }

  lemma LeftTree(t: CdtTree, m: Contents, t': CdtTree, slot: Cte)
    requires IsTreeOf(t, m) && slot in m
    requires Slots(t') == Slots(t) - {slot} && Distinct(t') && Ordered(t') && Balanced(t') && Size(t') <= MAX_NODES
    requires forall x :: x in InOrder(t') ==> x in InOrder(t)
    ensures IsTreeOf(t', m - {slot})
  {
    ItemsAreSlots(t');
  }

  /** aaInsert from the root of a valid tree leaves a valid tree with one more slot. */
  method InsertAtRoot(root: Cte?, slot: Cte, ghost t: CdtTree, ghost m: Contents) returns (r: Cte?, ghost t': CdtTree)
    requires Shape(root, t) && Stored(m) && IsTreeOf(t, m) && Size(t) < MAX_NODES
    requires slot !in m && MayHold(m, slot, slot.cap) && slot.left == null && slot.right == null
    modifies m.Keys`left, m.Keys`right, m.Keys`level, slot`left, slot`right, slot`level
    ensures Shape(r, t') && IsTreeOf(t', m[slot := slot.SlotKey()])
    ensures Size(t') == Size(t) + 1 <= MAX_NODES && Slots(t') == m.Keys + {slot}
  {
    hide Shape, Distinct, Ordered, Balanced, InOrder, RankOf, Insert, Comparable;
    InsertedTree(t, m, slot);
    ComparableCapsAreInTree(m);
    RankedFrom(t, m);
    r, t' := AaInsert(root, slot, t);
    JoinedTree(t, m, t', slot, slot.SlotKey());
  }

  /** aaRemove from the root of a valid tree leaves a valid tree with one slot less. */
  method RemoveAtRoot(root: Cte?, slot: Cte, ghost t: CdtTree, ghost m: Contents) returns (r: Cte?, ghost t': CdtTree)
    requires Shape(root, t) && Stored(m) && IsTreeOf(t, m) && slot in m
    modifies m.Keys`left, m.Keys`right, m.Keys`level
    ensures Shape(r, t') && IsTreeOf(t', m - {slot})
    ensures Size(t') == Size(t) - 1 <= MAX_NODES && Slots(t') == m.Keys - {slot}
  {
    hide Shape, Distinct, Ordered, Balanced, InOrder, RankOf, Remove, Comparable;
    ComparableCapsAreInTree(m);
    RankedFrom(t, m);
    RemovedTree(t, slot);
    LevelFits(t);
    r, t' := AaRemove(false, root, slot, t);
    LeftTree(t, m, t', slot);
  }
}
