/**
 Whether a cap is the last one to its object (cdtIsFinal, kernel/src/kernel/cdt.c; sameObjectAs,
 kernel/src/object/objecttype.c).
 */
module CdtLifetime {
  import opened Arithmetic
  import opened Caps
  import opened AATree
  import opened CdtSlots
  import opened Derivation
  import opened CdtSearch
  import opened CdtTraverse

  // ---------------------------------------------------------------------------------------
  // Caps to one object
  // ---------------------------------------------------------------------------------------

  predicate IsArchCap(c: Cap) {
    c.FrameCap? || c.PageTableCap? || c.PageDirectoryCap?
  }

  predicate ArchSameRegionAs(a: Cap, b: Cap) {
    match a
    case FrameCap(p, n, _, _) =>
      b.FrameCap? && p <= b.framePtr && b.framePtr + Bit(b.frameBits) <= p + Bit(n)
    case PageTableCap(p, _) => b.PageTableCap? && p == b.ptPtr
    case PageDirectoryCap(p) => b.PageDirectoryCap? && p == b.pdPtr
    case _ => false
  }

  predicate ArchSameObjectAs(a: Cap, b: Cap) {
    if a.FrameCap? && b.FrameCap? then a.framePtr == b.framePtr && a.frameBits == b.frameBits
    else ArchSameRegionAs(a, b)
  }

  predicate SameRegionAs(a: Cap, b: Cap) {
    match a
    case UntypedCap(p, n, _) =>
      PtrOf(b) != 0 && p <= PtrOf(b) && PtrOf(b) + Bit(SizeBitsOf(b)) <= p + Bit(n)
    case EndpointCap(p, _, _) => b.EndpointCap? && p == b.epPtr
    case AsyncEndpointCap(p, _, _) => b.AsyncEndpointCap? && p == b.aepPtr
    case CNodeCap(p, r, _) => b.CNodeCap? && p == b.cnodePtr && r == b.radix
    case ThreadCap(p) => b.ThreadCap? && p == b.tcbPtr
    case ReplyCap(_, _, t) => b.ReplyCap? && t == b.replyTcb
    case DomainCap => b.DomainCap?
    case IrqControlCap => b.IrqControlCap? || b.IrqHandlerCap?
    case IrqHandlerCap(i) => b.IrqHandlerCap? && i == b.irq
    case _ => IsArchCap(a) && IsArchCap(b) && ArchSameRegionAs(a, b)
  }

  /** A cap to untyped memory or to a page is to the region of another exactly if all the memory of that is in it. */
  lemma SameRegionContains(a: Cap, b: Cap)
    requires a.UntypedCap? || (a.FrameCap? && b.FrameCap?)
    ensures SameRegionAs(a, b) <==>
              && (a.UntypedCap? ==> PtrOf(b) != 0)
              && forall x :: InMemory(b, x) ==> InMemory(a, x)
  {
    if forall x :: InMemory(b, x) ==> InMemory(a, x) {
      BitMonotone(0, SizeBitsOf(b));
      assert InMemory(b, PtrOf(b)) && InMemory(b, PtrOf(b) + Bit(SizeBitsOf(b)) - 1);
    }
  }

  ghost predicate InMemory(c: Cap, x: nat) {
    PtrOf(c) <= x < PtrOf(c) + Bit(SizeBitsOf(c))
  }

  predicate SameObjectAs(a: Cap, b: Cap) {
    if a.UntypedCap? then false
    else if a.IrqControlCap? && b.IrqHandlerCap? then false
    else if IsArchCap(a) && IsArchCap(b) then ArchSameObjectAs(a, b)
    else SameRegionAs(a, b)
  }

  /** Caps to one object are of one kind, and have one address and one size. */
  lemma SameObjectIs(a: Cap, b: Cap)
    requires InTree(a) && InTree(b)
    ensures SameObjectAs(a, b) <==>
              && ((a.EndpointCap? && b.EndpointCap?) || (a.AsyncEndpointCap? && b.AsyncEndpointCap?)
                  || (a.CNodeCap? && b.CNodeCap?) || (a.ThreadCap? && b.ThreadCap? && a == b)
                  || (a.FrameCap? && b.FrameCap?) || (a.PageTableCap? && b.PageTableCap?)
                  || (a.PageDirectoryCap? && b.PageDirectoryCap?) || (a.IrqHandlerCap? && b.IrqHandlerCap?)
                  || (a.IrqControlCap? && b.IrqControlCap?) || (a.DomainCap? && b.DomainCap?))
              && SpacePtr(a) == SpacePtr(b) && SizeBitsOf(a) == SizeBitsOf(b)
  {
  }

  /** "Typed objects do not overlap": the typed caps at one address are caps to one object. */
  ghost predicate ObjectsAgree(m: Contents) {
    forall x, y :: x in m && y in m && x != y && SharesAddress(m[x].cap, m[y].cap) ==> SameObjectAs(m[x].cap, m[y].cap)
  }

  predicate SharesAddress(a: Cap, b: Cap) {
    InTree(a) && InTree(b) && SpaceOf(a) == TypedMemory && SpaceOf(b) == TypedMemory && PtrOf(a) == PtrOf(b)
  }

  /** The caps that the tree order keeps side by side. */
  predicate SameGroup(a: Cap, b: Cap) {
    || SharesAddress(a, b)
    || (a.IrqControlCap? && b.IrqControlCap?)
    || (a.IrqHandlerCap? && b.IrqHandlerCap? && a.irq == b.irq)
    || (a.DomainCap? && b.DomainCap?)
  }

  lemma SameObjectSameGroup(a: Cap, b: Cap)
    requires InTree(a) && InTree(b) && SameObjectAs(a, b)
    ensures SameGroup(a, b)
  {
  }

  /** Nothing outside a group comes between two of its caps. */
  lemma GroupsAreConvex(a: Key, b: Key, c: Key)
    requires InTree(a.cap) && InTree(b.cap) && InTree(c.cap)
    requires SameGroup(a.cap, c.cap) && Less(RankOf(a), RankOf(b)) && Less(RankOf(b), RankOf(c))
    ensures SameGroup(b.cap, a.cap) && SameGroup(b.cap, c.cap)
  {
  }

  /** No other slot in the tree holds a cap to the object of `slot`. */
  ghost predicate IsOnlyCap(m: Contents, slot: Cte)
    requires slot in m
  {
    forall s :: s in m && s != slot ==> !SameObjectAs(m[s].cap, m[slot].cap)
  }

  /** If some other slot has a cap to the object of the i-th one, then so has a neighbour of the i-th. */
  lemma NeighboursDecide(cdt: Cdt, slot: Cte, i: nat)
    requires cdt.Valid() && ObjectsAgree(cdt.contents) && slot in cdt.contents
    requires i < |InOrder(cdt.tree)| && InOrder(cdt.tree)[i].slot == slot
    ensures var o, m := InOrder(cdt.tree), cdt.contents;
            && (i + 1 < |o| ==> o[i + 1].slot in m && o[i + 1].slot != slot)
            && (i > 0 ==> o[i - 1].slot in m && o[i - 1].slot != slot)
            && (IsOnlyCap(m, slot) <==>
                  && (i + 1 < |o| ==> !SameObjectAs(m[o[i + 1].slot].cap, m[slot].cap))
                  && (i > 0 ==> !SameObjectAs(m[o[i - 1].slot].cap, m[slot].cap)))
  {
    var o, m := InOrder(cdt.tree), cdt.contents;
    ComparableCapsAreInTree(m);
    assert o[i] in o;
    if i + 1 < |o| { assert o[i + 1] in o; LessIsTotalOrder(o[i].rank, o[i].rank, o[i].rank); }
    if i > 0 { assert o[i - 1] in o; LessIsTotalOrder(o[i].rank, o[i].rank, o[i].rank); }
    forall s | s in m && s != slot && SameObjectAs(m[s].cap, m[slot].cap)
      ensures (i + 1 < |o| && SameObjectAs(m[o[i + 1].slot].cap, m[slot].cap))
           || (i > 0 && SameObjectAs(m[o[i - 1].slot].cap, m[slot].cap))
    {
      var x := SlotHasItem(cdt.tree, s);
      var j :| 0 <= j < |o| && o[j] == x;
      SameObjectSameGroup(m[s].cap, m[slot].cap);
      if j > i + 1 {
        GroupsAreConvex(m[slot], m[o[i + 1].slot], m[s]);
      } else if j < i - 1 {
        GroupsAreConvex(m[s], m[o[i - 1].slot], m[slot]);
      }
    }
  }

  /**
   cdtIsFinal looks at the two in-order neighbours only; the answer is right for the whole tree.
   */
  method CdtIsFinal(cdt: Cdt, slot: Cte) returns (final: bool)
    requires cdt.Valid() && ObjectsAgree(cdt.contents) && slot in cdt.contents
    ensures final <==> IsOnlyCap(cdt.contents, slot)
  {
    ghost var i := IndexOf(cdt, slot);
    NeighboursDecide(cdt, slot, i);
    var closest := AaTraverseForward(cdt, slot, i);
    if closest != null && SameObjectAs(closest.cap, slot.cap) {
      return false;
    }
    closest := AaTraverseBackward(cdt, slot, i);
    if closest != null && SameObjectAs(closest.cap, slot.cap) {
      return false;
    }
    return true;
  }

  lemma IndexOf(cdt: Cdt, slot: Cte) returns (i: nat)
    requires cdt.Valid() && slot in cdt.contents
    ensures i < |InOrder(cdt.tree)| && InOrder(cdt.tree)[i].slot == slot
  {
    var x := SlotHasItem(cdt.tree, slot);
    i :| 0 <= i < |InOrder(cdt.tree)| && InOrder(cdt.tree)[i] == x;
  }

  /**
   Turning the last cap to an object into a zombie, as finaliseSlot does, keeps the typed caps at
   each address in agreement: no other cap was left at that address.
   */
  lemma ZombieKeepsAgreement(m: Contents, slot: Cte, zombie: Cap)
    requires slot in m && ObjectsAgree(m) && IsOnlyCap(m, slot)
    requires zombie.ZombieCap? && SharesAddress(zombie, m[slot].cap)
    ensures ObjectsAgree(m[slot := m[slot].(cap := zombie)])
  {
    forall y | y in m && y != slot
      ensures SharesAddress(m[y].cap, m[slot].cap) ==> SameObjectAs(m[y].cap, m[slot].cap)
    {
    }
    hide SameObjectAs;
    assert forall y :: y in m && y != slot ==> !SharesAddress(m[y].cap, zombie) && !SharesAddress(zombie, m[y].cap);
  }

  ghost predicate AllInTree(m: Contents) {
    forall s :: s in m ==> InTree(m[s].cap)
  }

  lemma CapsInTree(cdt: Cdt)
    requires cdt.Valid()
    ensures AllInTree(cdt.contents)
  {
    ComparableCapsAreInTree(cdt.contents);
  }

  lemma TreeCaps(cdt: Cdt)
    requires cdt.Valid()
    ensures AllCapsComparable(cdt.contents)
  {
  }
}
