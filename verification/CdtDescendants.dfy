/**
 What the interval searched by _cdtFindChild (kernel/src/kernel/cdt.c) means for each kind of cap,
 and when a freshly derived cap lies in its parent's interval.
 */
module CdtDescendants {
  import opened Arithmetic
  import opened Caps
  import opened CdtSearch
  import opened Derivation

  const ADDRESS_SPACE: nat := 0x1_0000_0000

  /** A naturally aligned power-of-two block of at least 16 bytes in the 32-bit address space. */
  predicate IsBlock(c: Cap) {
    && c.UntypedCap? && 4 <= c.blockSize
    && c.uPtr % Bit(c.blockSize) == 0 && c.uPtr + Bit(c.blockSize) <= ADDRESS_SPACE
  }

  predicate InsideBlock(inner: Cap, outer: Cap)
    requires inner.UntypedCap? && outer.UntypedCap?
  {
    outer.uPtr <= inner.uPtr && inner.uPtr + Bit(inner.blockSize) <= outer.uPtr + Bit(outer.blockSize)
  }

  /** Two naturally aligned blocks are nested or disjoint. */
  lemma BlocksNest(a: Cap, b: Cap)
    requires IsBlock(a) && IsBlock(b) && a.uPtr < b.uPtr < a.uPtr + Bit(a.blockSize)
    ensures b.blockSize < a.blockSize && InsideBlock(b, a)
  {
    if a.blockSize <= b.blockSize {
      FinerAligned(b.uPtr, b.blockSize, a.blockSize);
      AlignedApart(a.uPtr, b.uPtr, Bit(a.blockSize));
    } else {
      FinerAligned(a.uPtr, a.blockSize, b.blockSize);
      var n, end := Bit(b.blockSize), a.uPtr + Bit(a.blockSize);
      FinerAligned(Bit(a.blockSize), a.blockSize, b.blockSize);
      AddMultiples(a.uPtr, Bit(a.blockSize), n);
      AlignedApart(b.uPtr, end, n);
    }
  }

  /**
   For untyped blocks the interval up to build_largest_child holds exactly the blocks contained in
   the parent's block, except blocks of the parent's own extent that are not deeper than it.
   */
  lemma UntypedDescendants(parent: Key, child: Key)
    requires IsBlock(parent.cap) && InTree(child.cap)
    requires child.cap.UntypedCap? ==> IsBlock(child.cap)
    ensures IsDescendant(parent, child) <==>
              && child.cap.UntypedCap? && InsideBlock(child.cap, parent.cap)
              && (child.cap.blockSize < parent.cap.blockSize || parent.depth < child.depth)
  {
    if child.cap.UntypedCap? {
      LargestUntypedChild(parent.cap);
      InsideCases(parent.cap, child.cap);
      AboveSixteen(parent.cap, child.cap);
    }
  }

  lemma LargestUntypedChild(c: Cap)
    requires IsBlock(c)
    ensures Bit(c.blockSize) >= 16
    ensures BuildLargestChild(c) == UntypedCap(c.uPtr + Bit(c.blockSize) - 16, 4, false)
  {
    assert Bit(4) == 16;
    if c.blockSize > 4 { BitGrows(4, c.blockSize); }
  }

  /** Containment of blocks, said as the order on untyped caps sees it. */
  lemma InsideCases(p: Cap, c: Cap)
    requires IsBlock(p) && IsBlock(c)
    ensures InsideBlock(c, p) <==>
              || (c.uPtr == p.uPtr && c.blockSize <= p.blockSize)
              || p.uPtr < c.uPtr < p.uPtr + Bit(p.blockSize)
    ensures p.uPtr < c.uPtr < p.uPtr + Bit(p.blockSize) ==> c.blockSize < p.blockSize
  {
    if p.uPtr < c.uPtr < p.uPtr + Bit(p.blockSize) {
      BlocksNest(p, c);
    }
    if c.uPtr == p.uPtr {
      if c.blockSize < p.blockSize { BitGrows(c.blockSize, p.blockSize); }
      if p.blockSize < c.blockSize { BitGrows(p.blockSize, c.blockSize); }
    }
  }

  /** A block starts before the parent's end exactly when it starts no later than the last 16 bytes. */
  lemma AboveSixteen(p: Cap, c: Cap)
    requires IsBlock(p) && IsBlock(c)
    ensures c.uPtr < p.uPtr + Bit(p.blockSize) <==> c.uPtr <= p.uPtr + Bit(p.blockSize) - 16
  {
    assert Bit(4) == 16;
    FinerAligned(c.uPtr, c.blockSize, 4);
    FinerAligned(p.uPtr, p.blockSize, 4);
    SelfAligned(p.blockSize);
    FinerAligned(Bit(p.blockSize), p.blockSize, 4);
    AddMultiples(p.uPtr, Bit(p.blockSize), 16);
    if c.uPtr < p.uPtr + Bit(p.blockSize) {
      AlignedApart(c.uPtr, p.uPtr + Bit(p.blockSize), 16);
    }
  }

  lemma SelfAligned(b: nat)
    ensures Bit(b) % Bit(b) == 0
  {
  }

  /** The unbadged endpoint cap has every badged cap of its endpoint as a descendant. */
  lemma EndpointDescendants(parent: Key, child: Key)
    requires parent.cap.EndpointCap? && InTree(child.cap) && Comparable(parent.cap, child.cap)
    requires child.cap.EndpointCap? ==> child.cap.epBadge <= MAX_BADGE
    ensures IsDescendant(parent, child) <==>
              && child.cap.EndpointCap? && child.cap.epPtr == parent.cap.epPtr
              && ((parent.cap.epBadge == 0 && child.cap.epBadge != 0)
                  || (child.cap.epBadge == parent.cap.epBadge && parent.depth < child.depth))
  {
  }

  /** The same for async endpoints. */
  lemma AsyncEndpointDescendants(parent: Key, child: Key)
    requires parent.cap.AsyncEndpointCap? && InTree(child.cap) && Comparable(parent.cap, child.cap)
    requires child.cap.AsyncEndpointCap? ==> child.cap.aepBadge <= MAX_BADGE
    ensures IsDescendant(parent, child) <==>
              && child.cap.AsyncEndpointCap? && child.cap.aepPtr == parent.cap.aepPtr
              && ((parent.cap.aepBadge == 0 && child.cap.aepBadge != 0)
                  || (child.cap.aepBadge == parent.cap.aepBadge && parent.depth < child.depth))
  {
  }

  /** The IRQ control cap has every handler cap as a descendant. */
  lemma IrqControlDescendants(parent: Key, child: Key)
    requires parent.cap.IrqControlCap? && InTree(child.cap)
    requires child.cap.IrqHandlerCap? ==> child.cap.irq <= MAX_IRQ
    ensures IsDescendant(parent, child) <==>
              child.cap.IrqHandlerCap? || (child.cap.IrqControlCap? && parent.depth < child.depth)
  {
  }

  /** Any other cap has the deeper caps to its object as descendants, and those of its depth that are mapped higher. */
  lemma OtherDescendants(parent: Key, child: Key)
    requires InTree(parent.cap) && InTree(child.cap) && Comparable(parent.cap, child.cap)
    requires !parent.cap.UntypedCap? && !parent.cap.EndpointCap? && !parent.cap.AsyncEndpointCap?
             && !parent.cap.IrqControlCap?
    ensures IsDescendant(parent, child) <==>
              && SpaceOf(child.cap) == SpaceOf(parent.cap) && SpacePtr(child.cap) == SpacePtr(parent.cap)
              && !child.cap.IrqControlCap?
              && (parent.depth < child.depth
                  || (parent.depth == child.depth && ExtraOf(parent.cap) < ExtraOf(child.cap)))
  {
  }

  /**
   What CNodeCopy and CNodeMint give cteInsert: a cap to the same object, with the badge of the
   original or, where that has none, a new one, and with its mapping or (for frames and page tables,
   as Arch_deriveCap does) none.
   */
  predicate IsDerived(original: Cap, copy: Cap)
    requires InTree(original) && InTree(copy)
  {
    && SpaceOf(original) == SpaceOf(copy)
    && SpacePtr(original) == SpacePtr(copy)
    && SpaceSize(original) == SpaceSize(copy)
    && (BadgeOf(original) == BadgeOf(copy) || BadgeOf(original) == 0)
    && (ExtraOf(original) == ExtraOf(copy) || ExtraOf(copy) == 0)
  }

  /**
   A derived cap, inserted by cdtInsert, is a descendant of the original exactly if it got a new
   badge or the depth field still had room; otherwise it counts as a sibling that revocation does
   not reach.
   */
  lemma CopyIsDescendant(parent: Key, copy: Cap, addr: nat)
    requires InTree(parent.cap) && InTree(copy) && Comparable(parent.cap, copy) && IsDerived(parent.cap, copy)
    requires parent.depth < Bit(DepthBits(copy))
    requires BadgeOf(copy) <= MAX_BADGE && (copy.UntypedCap? ==> IsBlock(copy) && IsBlock(parent.cap))
    ensures IsDescendant(parent, Key(copy, ChildDepth(parent.cap, parent.depth, copy), addr)) <==>
              BadgeOf(copy) != BadgeOf(parent.cap) || parent.depth + 1 < Bit(DepthBits(copy))
  {
    var child := Key(copy, ChildDepth(parent.cap, parent.depth, copy), addr);
    if copy.UntypedCap? {
      UntypedDescendants(parent, child);
      BitInjective(parent.cap.blockSize, copy.blockSize);
    }
  }

  /** The depth field has one bit in frame and page table caps and five in all others. */
  lemma CopiesRunOut(parent: Key, copy: Cap, addr: nat)
    requires InTree(parent.cap) && InTree(copy) && Comparable(parent.cap, copy) && IsDerived(parent.cap, copy)
    requires BadgeOf(copy) == BadgeOf(parent.cap) <= MAX_BADGE && parent.depth < Bit(DepthBits(copy))
    requires copy.UntypedCap? ==> IsBlock(copy) && IsBlock(parent.cap)
    ensures IsDescendant(parent, Key(copy, ChildDepth(parent.cap, parent.depth, copy), addr)) <==>
              parent.depth < if copy.FrameCap? || copy.PageTableCap? then 1 else 31
  {
    CopyIsDescendant(parent, copy, addr);
    assert Bit(1) == 2 && Bit(2) == 4 && Bit(3) == 8 && Bit(4) == 16 && Bit(5) == 32;
  }

  /** The first cap to an object made of untyped memory has room below it: a copy of it is its descendant. */
  lemma FirstCopyIsDescendant(untyped: Key, original: Cap, addr: nat, copy: Cap, copyAddr: nat)
    requires untyped.cap.UntypedCap? && InTree(original) && SpaceOf(original) != UntypedMemory
    requires InTree(copy) && Comparable(original, copy) && IsDerived(original, copy) && BadgeOf(copy) <= MAX_BADGE
    ensures var first := Key(original, ChildDepth(untyped.cap, untyped.depth, original), addr);
            IsDescendant(first, Key(copy, ChildDepth(first.cap, first.depth, copy), copyAddr))
  {
    assert Bit(1) == 2;
    BitMonotone(1, DepthBits(copy));
    CopyIsDescendant(Key(original, 0, addr), copy, copyAddr);
  }
}
