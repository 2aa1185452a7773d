/**
 Deletion and revocation (kernel/src/object/cnode.c) with what finaliseCap (objecttype.c) does to
 other slots of the derivation tree: the last handler cap of an interrupt takes the async endpoint
 cap in the interrupt's node with it (kernel/src/object/interrupt.c), and the last cap to a page
 table or page directory takes the mappings out of the caps mapped there
 (kernel/src/arch/arm/kernel/vspace.c). Where one of the assertions on the way can fail, the outcome
 says so.
 */
module CdtDeletion {
  import opened Arithmetic
  import opened Collections
  import opened Caps
  import opened AATree
  import opened CdtSlots
  import opened Derivation
  import opened CdtSearch
  import opened CdtLifetime
  import opened CdtMapping

  datatype Outcome = Done | ZombieLeft | AssertionFails

  datatype Revocation = Finished | Preempted | Failed

  /** What is left of a cap by finaliseCap: null, unless an object with slots of its own must be emptied first. */
  function Remainder(c: Cap, final: bool): Cap {
    match c
    case CNodeCap(p, r, _) => if final then ZombieCap(p, r + CTE_SIZE_BITS, Bit(r)) else NullCap
    case ThreadCap(_) => if final then ZombieCap(PtrOf(c), TCB_BLOCK_SIZE_BITS, 5) else NullCap
    case ZombieCap(_, _, _) => c
    case _ => NullCap
  }

  /** capRemovable: nothing is left, or a zombie that has no slot to empty any more but the one it is in. */
  predicate Removable(remainder: Cap, addr: nat) {
    remainder.ZombieCap? ==> remainder.zombieNumber == 0 || (remainder.zombieNumber == 1 && addr == remainder.zombiePtr)
  }

  // ---------------------------------------------------------------------------------------
  // Interrupt nodes
  // ---------------------------------------------------------------------------------------

  /**
   intStateIRQNode is an array of slots of its own. The slot of an interrupt holds the async endpoint
   cap that is signalled, or nothing.
   */
  ghost predicate NodesOk(m: Contents, nodes: seq<Cte>) {
    && (forall i, j :: 0 <= i < j < |nodes| ==> nodes[i] != nodes[j])
    && (forall i :: 0 <= i < |nodes| && nodes[i] in m ==> m[nodes[i]].cap.AsyncEndpointCap?)
    && (forall s :: s in m && m[s].cap.IrqHandlerCap? ==> m[s].cap.irq < |nodes|)
  }

  /** A node is in the tree unless it is empty. */
  ghost predicate NodesStored(m: Contents, nodes: seq<Cte>)
    reads nodes
  {
    forall i :: 0 <= i < |nodes| ==> (nodes[i].cap.NullCap? <==> nodes[i] !in m)
  }

  /** The last handler cap of the interrupt is among the caps in `gone`. */
  ghost predicate LosesHandler(m: Contents, gone: set<Cte>, irq: nat) {
    && (exists s :: s in m && s in gone && m[s].cap == IrqHandlerCap(irq))
    && (forall s :: s in m && m[s].cap == IrqHandlerCap(irq) ==> s in gone)
  }

  /** The nodes that are emptied when the caps in `gone` are deleted. */
  ghost function LostNodes(m: Contents, nodes: seq<Cte>, gone: set<Cte>): set<Cte> {
    set i | 0 <= i < |nodes| && nodes[i] in m && LosesHandler(m, gone, i) :: nodes[i]
  }

  /** A single cap is the last handler of an interrupt exactly if cdtIsFinal says so of it. */
  lemma LastHandler(m: Contents, slot: Cte, irq: nat)
    requires slot in m && forall s :: s in m ==> InTree(m[s].cap)
    ensures LosesHandler(m, {slot}, irq) <==> m[slot].cap == IrqHandlerCap(irq) && IsOnlyCap(m, slot)
  {
    if m[slot].cap == IrqHandlerCap(irq) && IsOnlyCap(m, slot) {
      forall s | s in m && m[s].cap == IrqHandlerCap(irq) ensures s == slot {
        assert SameObjectAs(m[s].cap, m[slot].cap);
      }
    }
  }

  /** cteDeleteOne of a cap that finaliseCap disposes of without looking at other slots. */
  method CteDeleteOne(cdt: Cdt, slot: Cte)
    requires cdt.Valid() && ObjectsAgree(cdt.contents) && (slot.cap.NullCap? <==> slot !in cdt.contents)
    requires slot.cap.NullCap? || slot.cap.EndpointCap? || slot.cap.AsyncEndpointCap? || slot.cap.DomainCap?
    modifies cdt, cdt.contents.Keys
    ensures cdt.Valid() && ObjectsAgree(cdt.contents) && cdt.contents == old(cdt.contents) - {slot}
    ensures slot.cap == NullCap && Size(cdt.tree) <= old(Size(cdt.tree))
  {
    hide Shape, Slots, IsTreeOf, ObjectsAgree, IsOnlyCap;
    if !slot.cap.NullCap? {
      var final := CdtIsFinal(cdt, slot);
      assert Remainder(slot.cap, final) == NullCap;
      AgreementKept(cdt.contents, {slot});
      cdt.CdtRemove(slot);
      slot.cap := NullCap;
    }
  }

  lemma AgreementKept(m: Contents, gone: set<Cte>)
    requires ObjectsAgree(m)
    ensures ObjectsAgree(m - gone)
  {
    hide SameObjectAs, SharesAddress;
  }

  // ---------------------------------------------------------------------------------------
  // Deletion
  // ---------------------------------------------------------------------------------------

  /** A search that finaliseCap asserts to succeed finds nothing. */
  ghost predicate SearchFails(m: Contents, slot: Cte, entries: seq<Cap>)
    requires slot in m
  {
    || (UsesTable(m[slot].cap) && !TableMapped(m, TableOf(m[slot].cap)))
    || (IsFinalTable(m, slot) && (TableUnmapped(m, slot, entries) || !AllRecorded(m, entries)))
  }

  /** The slots of the tree after finaliseCap of `slot`. */
  ghost function Finalised(m: Contents, slot: Cte, nodes: seq<Cte>, entries: seq<Cap>): Contents
    requires slot in m
  {
    (if IsFinalTable(m, slot) then UnmappedIn(m, MappedSlots(m, entries)) else m) - LostNodes(m, nodes, {slot})
  }

  /**
   Deleting the slot leaves a zombie in it: it holds the last cap to a CNode, other than one whose only slot is
   this one, or the last cap to a thread, or a zombie that has slots left other than this one.
   */
  ghost predicate ZombieStays(m: Contents, slot: Cte)
    requires slot in m
  {
    match m[slot].cap
    case CNodeCap(p, r, _) => IsOnlyCap(m, slot) && !(r == 0 && p == m[slot].addr)
    case ThreadCap(_) => IsOnlyCap(m, slot)
    case ZombieCap(p, _, n) => n > 1 || (n == 1 && p != m[slot].addr)
    case _ => false
  }

  /** The number of slots that an object has of its own; a zombie tells how many are left. */
  function SlotCount(c: Cap): nat {
    if c.CNodeCap? then Bit(c.radix) else if c.ThreadCap? then 5 else if c.ZombieCap? then c.zombieNumber else 0
  }

  /** `z` is a zombie with all the memory and all the slots of the object of `c`. */
  predicate IsZombieOf(z: Cap, c: Cap) {
    z.ZombieCap? && PtrOf(z) == PtrOf(c) && SizeBitsOf(z) == SizeBitsOf(c) && z.zombieNumber == SlotCount(c)
  }

  /** finaliseCap and capRemovable come to that. */
  lemma RemainderIs(m: Contents, slot: Cte)
    requires slot in m
    ensures var c := m[slot].cap;
            var z := Remainder(c, c.ZombieCap? || IsOnlyCap(m, slot));
            && (ZombieStays(m, slot) <==> !Removable(z, m[slot].addr))
            && (ZombieStays(m, slot) ==> IsZombieOf(z, c) && (c.CNodeCap? || c.ThreadCap? || c.ZombieCap?))
            && (c.ZombieCap? ==> z == c)
  {
    if m[slot].cap.CNodeCap? && m[slot].cap.radix > 0 { BitGrows(0, m[slot].cap.radix); }
  }

  /** The zombie may take the place of the cap, and every invariant is kept. */
  lemma ZombieMayStay(cdt: Cdt, slot: Cte, nodes: seq<Cte>, zombie: Cap)
    requires cdt.Valid() && ObjectsAgree(cdt.contents) && TablesOk(cdt.contents) && NodesOk(cdt.contents, nodes)
    requires slot in cdt.contents && OwnAddresses(cdt.contents) && IsZombieOf(zombie, cdt.contents[slot].cap)
    requires ZombieStays(cdt.contents, slot) && !cdt.contents[slot].cap.ZombieCap?
    ensures MayHold(cdt.contents - {slot}, slot, zombie) && slot !in nodes
    ensures var m' := cdt.contents[slot := cdt.contents[slot].(cap := zombie)];
            ObjectsAgree(m') && TablesOk(m') && NodesOk(m', nodes)
  {
    var m := cdt.contents;
    CapsInTree(cdt);
    ZombieKeepsAgreement(m, slot, zombie);
    ZombieAlone(m, slot, zombie);
    var m' := m[slot := m[slot].(cap := zombie)];
    forall s | s in m' && UsesTable(m'[s].cap) ensures TableAt(m', TableOf(m'[s].cap)) {
      assert m'[s] == m[s] && TableAt(m, TableOf(m[s].cap));
    }
  }

  lemma ZombieAlone(m: Contents, slot: Cte, zombie: Cap)
    requires slot in m && ObjectsAgree(m) && AllInTree(m) && IsOnlyCap(m, slot)
    requires zombie.ZombieCap? && SharesAddress(zombie, m[slot].cap)
    ensures forall s :: s in m && s != slot ==> Comparable(m[s].cap, zombie)
  {
    forall s | s in m && s != slot
      ensures SharesAddress(m[s].cap, m[slot].cap) ==> SameObjectAs(m[s].cap, m[slot].cap)
    {
    }
    hide SameObjectAs;
  }

  lemma FinalisedCases(m: Contents, slot: Cte, nodes: seq<Cte>, entries: seq<Cap>)
    requires slot in m && AllInTree(m) && NodesOk(m, nodes)
    ensures m[slot].cap.IrqHandlerCap? ==> m[slot].cap.irq < |nodes| && nodes[m[slot].cap.irq] != slot
    ensures Finalised(m, slot, nodes, entries) ==
            if m[slot].cap.IrqHandlerCap? && IsOnlyCap(m, slot) then m - {nodes[m[slot].cap.irq]}
            else if IsFinalTable(m, slot) then UnmappedIn(m, MappedSlots(m, entries))
            else m
  {
    hide IsOnlyCap;
    forall i | 0 <= i < |nodes|
      ensures LosesHandler(m, {slot}, i) <==> m[slot].cap == IrqHandlerCap(i) && IsOnlyCap(m, slot)
    {
      LastHandler(m, slot, i);
    }
    hide LosesHandler;
    if m[slot].cap.IrqHandlerCap? && IsOnlyCap(m, slot) {
      var irq := m[slot].cap.irq;
      assert LostNodes(m, nodes, {slot}) == if nodes[irq] in m then {nodes[irq]} else {};
    } else {
      assert LostNodes(m, nodes, {slot}) == {};
    }
  }

  lemma FinalisedKeeps(m: Contents, slot: Cte, nodes: seq<Cte>, entries: seq<Cap>)
    requires slot in m && AllInTree(m) && NodesOk(m, nodes)
    ensures var m' := Finalised(m, slot, nodes, entries);
            slot in m' && m'.Keys <= m.Keys && NodesOk(m', nodes) && NodesOk(m' - {slot}, nodes)
  {
    FinalisedCases(m, slot, nodes, entries);
    hide IsOnlyCap, LosesHandler, MappedSlots, LostNodes, IsFinalTable;
  }

  /** finaliseCap of a cap of which nothing is left, as far as it looks at other slots of the tree. */
  method FinaliseCap(cdt: Cdt, slot: Cte, final: bool, nodes: seq<Cte>, entries: seq<Cap>) returns (ok: bool)
    requires cdt.Valid() && ObjectsAgree(cdt.contents) && slot in cdt.contents && TablesOk(cdt.contents)
    requires final <==> IsOnlyCap(cdt.contents, slot)
    requires NodesOk(cdt.contents, nodes) && NodesStored(cdt.contents, nodes)
    requires IsFinalTable(cdt.contents, slot) ==> TableOk(cdt.contents, slot, entries)
    modifies cdt, cdt.contents.Keys
    ensures ok <==> !SearchFails(old(cdt.contents), slot, entries)
    ensures ok ==> cdt.Valid() && ObjectsAgree(cdt.contents) && NodesStored(cdt.contents, nodes)
    ensures ok ==> cdt.contents == Finalised(old(cdt.contents), slot, nodes, entries)
  {
    hide Shape, Slots, IsTreeOf, ObjectsAgree, IsOnlyCap, Finalised, LostNodes, MappedSlots, TableMapped, TableAt;
    hide DepthsFit, MappedOnce, EntriesOk;
    CapsInTree(cdt);
    FinalisedCases(cdt.contents, slot, nodes, entries);
    ok := true;
    if slot.cap.IrqHandlerCap? {
      if final {
        CteDeleteOne(cdt, nodes[slot.cap.irq]);
      }
    } else if (slot.cap.PageTableCap? || slot.cap.PageDirectoryCap?) && final {
      ok := UnmapAll(cdt, slot, entries);
    } else if UsesTable(slot.cap) {
      RootIsSlot(cdt, slot);
      ok := FindTable(cdt, TableOf(slot.cap));
    }
    if ok {
      CapsInTree(cdt);
    }
  }

  /** A zombie is known to be the last cap: no other cap is to the object of one. */
  lemma ZombieIsOnly(m: Contents, slot: Cte)
    requires slot in m
    ensures m[slot].cap.ZombieCap? ==> IsOnlyCap(m, slot)
  {
  }

  /**
   A small or large page cannot be deleted once its page table has been unmapped, with the mapping of the page
   left in its cap; an unmapped one, and a section, can.
   */
  lemma PageOfUnmappedTable(table: Cte, page: Cte, bits: nat, rights: nat, entry: nat, mapping: nat)
    requires table != page && table.addr != page.addr && (entry == 0 || 4096 <= entry < 5120)
    ensures var m: Contents := map[table := Key(PageTableCap(4096, mapping), 0, table.addr),
                                   page := Key(FrameCap(8192, bits, rights, entry), 0, page.addr)];
            && AllInTree(m) && TablesOk(m)
            && (SearchFails(m, page, []) <==> mapping == 0 && entry != 0 && (bits == 12 || bits == 16))
  {
    var m: Contents := map[table := Key(PageTableCap(4096, mapping), 0, table.addr),
                           page := Key(FrameCap(8192, bits, rights, entry), 0, page.addr)];
    assert m[page].cap == FrameCap(8192, bits, rights, entry) && m[table].cap == PageTableCap(4096, mapping);
    assert UsesTable(m[page].cap) ==> TableOf(m[page].cap) == 4096;
    assert Bit(1) == 2 && DepthsFit(m);
  }

  lemma TablesStay(m: Contents, gone: set<Cte>)
    requires TablesOk(m)
    ensures TablesOk(m - gone)
  {
    hide UsesTable, TableOf;
  }

  lemma TablesKept(m: Contents, slot: Cte, nodes: seq<Cte>, entries: seq<Cap>)
    requires slot in m && TablesOk(m)
    ensures TablesOk(Finalised(m, slot, nodes, entries) - {slot})
  {
    var gone := LostNodes(m, nodes, {slot}) + {slot};
    var m' := if IsFinalTable(m, slot) then UnmappedIn(m, MappedSlots(m, entries)) else m;
    TablesUnmapped(m, MappedSlots(m, entries));
    TablesStay(m', gone);
    assert Finalised(m, slot, nodes, entries) - {slot} == m' - gone;
  }

  lemma TablesUnmapped(m: Contents, gone: set<Cte>)
    requires TablesOk(m)
    ensures TablesOk(UnmappedIn(m, gone))
  {
    var m' := UnmappedIn(m, gone);
    forall s | s in m' && UsesTable(m'[s].cap) ensures TableAt(m', TableOf(m'[s].cap)) {
      assert m'[s] == m[s] && TableAt(m, TableOf(m[s].cap));
    }
  }

  /**
   cteDelete, up to the emptying of zombies: the slot goes, and with it the interrupt node of a last
   handler and the mappings in a last table, and nothing else. Where a zombie with slots to empty remains
   it is in the slot, nothing else has changed, and this stops. An assertion fails exactly when one of the
   searches of the tree that are asserted to succeed finds nothing.
   */
  method CteDeleteLeaf(cdt: Cdt, slot: Cte, nodes: seq<Cte>, entries: seq<Cap>) returns (r: Outcome)
    requires cdt.Valid() && ObjectsAgree(cdt.contents) && slot in cdt.contents && TablesOk(cdt.contents)
    requires NodesOk(cdt.contents, nodes) && NodesStored(cdt.contents, nodes)
    requires IsFinalTable(cdt.contents, slot) ==> TableOk(cdt.contents, slot, entries)
    requires ZombieStays(cdt.contents, slot) ==> OwnAddresses(cdt.contents)
    modifies cdt, cdt.contents.Keys
    ensures r == AssertionFails <==> old(SearchFails(cdt.contents, slot, entries))
    ensures r == ZombieLeft <==> old(ZombieStays(cdt.contents, slot))
    ensures r != AssertionFails ==>
              && cdt.Valid() && ObjectsAgree(cdt.contents) && TablesOk(cdt.contents)
              && NodesOk(cdt.contents, nodes) && NodesStored(cdt.contents, nodes)
    ensures r == Done ==>
              cdt.contents == Finalised(old(cdt.contents), slot, nodes, entries) - {slot} && slot.cap == NullCap
    ensures r == ZombieLeft ==>
              && IsZombieOf(slot.cap, old(slot.cap))
              && cdt.contents == old(cdt.contents)[slot := Key(slot.cap, old(slot.depth), slot.addr)]
  {
    hide Shape, Slots, IsTreeOf, ObjectsAgree, IsOnlyCap, Finalised, NodesOk, TableOk, TablesOk, TableMapped;
    hide Remainder, Removable, ZombieStays, IsZombieOf, OwnAddresses;
    ghost var m := cdt.contents;
    CapsInTree(cdt);
    var final := true;
    if !slot.cap.ZombieCap? {
      final := CdtIsFinal(cdt, slot);
    }
    ZombieIsOnly(m, slot);
    RemainderIs(m, slot);
    var remainder := Remainder(slot.cap, final);
    if !Removable(remainder, slot.addr) {
      if !slot.cap.ZombieCap? {
        ZombieMayStay(cdt, slot, nodes, remainder);
        cdt.CdtUpdate(slot, remainder);
      }
      return ZombieLeft;
    }
    FinalisedKeeps(m, slot, nodes, entries);
    TablesKept(m, slot, nodes, entries);
    var ok := FinaliseCap(cdt, slot, final, nodes, entries);
    if !ok {
      return AssertionFails;
    }
    AgreementKept(cdt.contents, {slot});
    CapsInTree(cdt);
    cdt.CdtRemove(slot);
    slot.cap := NullCap;
    return Done;
  }

  // ---------------------------------------------------------------------------------------
  // Reply caps, which are not in the tree
  // ---------------------------------------------------------------------------------------

  /** Slots in user hands hold nothing, a cap that is in the tree, or a reply cap, whose tree node is empty. */
  ghost predicate IsUserSlot(cdt: Cdt, slot: Cte)
    reads cdt, slot
  {
    slot in cdt.contents || ((slot.cap.NullCap? || slot.cap.ReplyCap?) && slot.left == null && slot.right == null)
  }

  lemma RootInTree(cdt: Cdt)
    requires cdt.Valid() && cdt.root != null
    ensures cdt.root in cdt.contents
  {
  }

  /**
   cteDelete of any slot. For a reply cap cdtIsFinal has no link to follow and goes on to compare the
   cap with the root of the tree, where cap_get_capSpaceType asserts that there is no such cap.
   */
  method CteDelete(cdt: Cdt, slot: Cte, nodes: seq<Cte>, entries: seq<Cap>) returns (r: Outcome)
    requires cdt.Valid() && ObjectsAgree(cdt.contents) && TablesOk(cdt.contents)
    requires cdt.root != null && IsUserSlot(cdt, slot)
    requires NodesOk(cdt.contents, nodes) && NodesStored(cdt.contents, nodes)
    requires slot in cdt.contents && IsFinalTable(cdt.contents, slot) ==> TableOk(cdt.contents, slot, entries)
    requires slot in cdt.contents && ZombieStays(cdt.contents, slot) ==> OwnAddresses(cdt.contents)
    modifies cdt, cdt.contents.Keys
    ensures r == AssertionFails <==>
              old(slot.cap.ReplyCap? || (slot in cdt.contents && SearchFails(cdt.contents, slot, entries)))
    ensures r != AssertionFails ==>
              && cdt.Valid() && ObjectsAgree(cdt.contents) && TablesOk(cdt.contents)
              && NodesOk(cdt.contents, nodes) && NodesStored(cdt.contents, nodes)
    ensures old(slot.cap.NullCap?) ==> r == Done && cdt.contents == old(cdt.contents)
    ensures old(slot in cdt.contents) ==>
              && (r == ZombieLeft <==> old(ZombieStays(cdt.contents, slot)))
              && (r == Done ==> cdt.contents == Finalised(old(cdt.contents), slot, nodes, entries) - {slot})
              && (r == ZombieLeft ==>
                    && IsZombieOf(slot.cap, old(slot.cap))
                    && cdt.contents == old(cdt.contents)[slot := Key(slot.cap, old(slot.depth), slot.addr)])
  {
    hide Shape, Slots, IsTreeOf, ObjectsAgree, ZombieStays, Finalised, NodesOk, NodesStored, TableOk, IsFinalTable;
    hide TablesOk, SearchFails, IsZombieOf, OwnAddresses;
    CapsInTree(cdt);
    RootInTree(cdt);
    if slot.cap.NullCap? {
      return Done;
    }
    if slot.right == null && cdt.root != slot && !InTree(slot.cap) {
      return AssertionFails;
    }
    r := CteDeleteLeaf(cdt, slot, nodes, entries);
  }

  /**
   invokeCNodeRotate with the same first and last slot: cdtSwap looks both slots up in the tree, and
   comes to the same assertion if one of them holds a reply cap.
   */
  method RotateInPlace(cdt: Cdt, cap1: Cap, slot1: Cte, cap2: Cap, slot2: Cte) returns (r: Outcome)
    requires cdt.Valid() && cdt.root != null && slot1 != slot2 && Size(cdt.tree) < MAX_NODES - 1
    requires IsUserSlot(cdt, slot1) && IsUserSlot(cdt, slot2) && !slot1.cap.NullCap? && !slot2.cap.NullCap?
    requires InTree(slot1.cap) && InTree(slot2.cap) ==>
               && MayHold(cdt.contents - {slot1, slot2}, slot2, cap1)
               && MayHold(cdt.contents - {slot1, slot2}, slot1, cap2)
               && slot1.addr != slot2.addr && Comparable(cap2, cap1)
    modifies cdt, cdt.contents.Keys, slot1, slot2
    ensures r == if old(slot1.cap.ReplyCap? || slot2.cap.ReplyCap?) then AssertionFails else Done
    ensures r == Done ==>
              && cdt.Valid()
              && cdt.contents == Placed(Placed(old(cdt.contents) - {slot1, slot2}, slot1, cap2, old(slot2.depth)),
                                        slot2, cap1, old(slot1.depth))
  {
    hide Shape, Slots, IsTreeOf, Comparable, MayHold, Placed;
    CapsInTree(cdt);
    if !InTree(slot1.cap) || !InTree(slot2.cap) {
      return AssertionFails;
    }
    cdt.CdtSwap(cap1, slot1, cap2, slot2);
    return Done;
  }

  // ---------------------------------------------------------------------------------------
  // Revocation
  // ---------------------------------------------------------------------------------------

  /** The descendants of `slot`. */
  ghost function Descendants(m: Contents, slot: Cte): set<Cte>
    requires slot in m && AllInTree(m)
  {
    set s | s in m && IsDescendant(m[slot], m[s])
  }

  /** The slots of the tree once the caps in `gone` have been deleted one by one. */
  ghost function AfterDeleting(m: Contents, nodes: seq<Cte>, gone: set<Cte>): Contents {
    m - gone - LostNodes(m, nodes, gone)
  }

  /** A descendant is of its ancestor's space, and one of a typed cap is another cap to the same object. */
  lemma DescendantsShareGroup(parent: Key, child: Key)
    requires InTree(parent.cap) && InTree(child.cap) && IsDescendant(parent, child)
    ensures SpaceOf(parent.cap) == SpaceOf(child.cap)
    ensures SpaceOf(parent.cap) == TypedMemory ==>
              SharesAddress(parent.cap, child.cap) && SharesAddress(child.cap, parent.cap)
  {
  }

  /** What revocation deletes is never the last cap to an object that owns slots or to a table. */
  lemma DescendantIsLeaf(m: Contents, slot: Cte, child: Cte)
    requires slot in m && child in m && slot != child && ObjectsAgree(m) && AllInTree(m)
    requires IsDescendant(m[slot], m[child]) && !m[slot].cap.UntypedCap?
    ensures !ZombieStays(m, child) && !IsFinalTable(m, child)
  {
    DescendantsShareGroup(m[slot], m[child]);
    if SpaceOf(m[slot].cap) == TypedMemory {
      assert SameObjectAs(m[child].cap, m[slot].cap) && SameObjectAs(m[slot].cap, m[child].cap);
    }
  }

  /** `gone` are descendants of `slot`, and the descendants not in it are all smaller. */
  ghost predicate GreatestDescendants(m: Contents, slot: Cte, gone: set<Cte>)
    requires slot in m && AllInTree(m)
  {
    && gone <= Descendants(m, slot)
    && forall d, e :: d in gone && e in Descendants(m, slot) - gone ==> Less(RankOf(m[e]), RankOf(m[d]))
  }

  /** `child` is the greatest descendant of `slot` outside `gone`; null says there is none. */
  ghost predicate NextDescendant(m: Contents, slot: Cte, gone: set<Cte>, child: Cte?)
    requires slot in m && AllInTree(m)
  {
    && (child == null ==> Descendants(m, slot) <= gone)
    && (child != null ==>
          && child in Descendants(m, slot) - gone
          && forall s :: s in Descendants(m, slot) - gone ==> s == child || Less(RankOf(m[s]), RankOf(m[child])))
  }

  /** No node that is emptied is itself a descendant, nor is the slot being revoked. */
  lemma NodesApart(m: Contents, nodes: seq<Cte>, slot: Cte, gone: set<Cte>)
    requires slot in m && AllInTree(m) && NodesOk(m, nodes) && gone <= Descendants(m, slot)
    ensures slot !in gone && slot !in LostNodes(m, nodes, gone)
    ensures LostNodes(m, nodes, gone) !! Descendants(m, slot)
  {
    forall s | s in LostNodes(m, nodes, gone) ensures s != slot && s !in Descendants(m, slot) {
      var i :| 0 <= i < |nodes| && nodes[i] in m && LosesHandler(m, gone, i) && s == nodes[i];
      var h :| h in m && h in gone && m[h].cap == IrqHandlerCap(i);
      DescendantsShareGroup(m[slot], m[h]);
      if IsDescendant(m[slot], m[s]) { DescendantsShareGroup(m[slot], m[s]); }
    }
    assert !IsDescendant(m[slot], m[slot]);
  }

  lemma OneMoreGone(m: Contents, slot: Cte, gone: set<Cte>, child: Cte)
    requires slot in m && AllInTree(m) && GreatestDescendants(m, slot, gone) && NextDescendant(m, slot, gone, child)
    ensures GreatestDescendants(m, slot, gone + {child})
    ensures |gone + {child}| == |gone| + 1 <= |m|
  {
    hide RankOf, Less, IsDescendant;
    SubsetSize(gone + {child}, m.Keys);
  }

  /** An interrupt loses its last handler with one more cap gone: either it had lost it already, or it was this cap. */
  lemma LosesOneMore(m: Contents, nodes: seq<Cte>, gone: set<Cte>, child: Cte, irq: nat)
    requires NodesOk(m, nodes) && child in m && child !in gone
    ensures var m' := AfterDeleting(m, nodes, gone);
            LosesHandler(m, gone + {child}, irq) <==> LosesHandler(m, gone, irq) || LosesHandler(m', {child}, irq)
  {
    var m' := AfterDeleting(m, nodes, gone);
    forall s | s in m && s !in gone && m[s].cap.IrqHandlerCap? ensures s in m' {
    }
  }

  /** Deleting one more cap from what is left after `gone`. */
  lemma DeletedOneMore(m: Contents, nodes: seq<Cte>, gone: set<Cte>, child: Cte)
    requires NodesOk(m, nodes) && child in AfterDeleting(m, nodes, gone)
    requires !IsFinalTable(AfterDeleting(m, nodes, gone), child)
    ensures Finalised(AfterDeleting(m, nodes, gone), child, nodes, []) - {child} ==
            AfterDeleting(m, nodes, gone + {child})
  {
    var m' := AfterDeleting(m, nodes, gone);
    forall i | 0 <= i < |nodes|
      ensures LosesHandler(m, gone + {child}, i) <==> LosesHandler(m, gone, i) || LosesHandler(m', {child}, i)
    {
      LosesOneMore(m, nodes, gone, child, i);
    }
    hide LosesHandler, IsFinalTable;
    var lost, lost' := LostNodes(m, nodes, gone), LostNodes(m', nodes, {child});
    assert LostNodes(m, nodes, gone + {child}) + gone == lost + lost' + gone;
  }

  /** The next descendant to go is in the tree, and finaliseCap disposes of it at once. */
  lemma VictimIsLeaf(m: Contents, nodes: seq<Cte>, slot: Cte, gone: set<Cte>, child: Cte)
    requires slot in m && AllInTree(m) && !m[slot].cap.UntypedCap? && NodesOk(m, nodes)
    requires ObjectsAgree(AfterDeleting(m, nodes, gone))
    requires GreatestDescendants(m, slot, gone) && NextDescendant(m, slot, gone, child)
    ensures var rest := AfterDeleting(m, nodes, gone);
            child in rest && !ZombieStays(rest, child) && !IsFinalTable(rest, child)
  {
    hide ObjectsAgree, IsOnlyCap, Remainder, RankOf, Less, LostNodes, NodesOk, ZombieStays, IsFinalTable;
    NodesApart(m, nodes, slot, gone);
    DescendantIsLeaf(AfterDeleting(m, nodes, gone), slot, child);
  }

  method FindNextDescendant(cdt: Cdt, slot: Cte, ghost m: Contents, ghost nodes: seq<Cte>, ghost gone: set<Cte>)
    returns (child: Cte?)
    requires cdt.Valid() && slot in m && AllInTree(m) && NodesOk(m, nodes) && GreatestDescendants(m, slot, gone)
    requires cdt.contents == AfterDeleting(m, nodes, gone)
    ensures NextDescendant(m, slot, gone, child)
  {
    hide RankOf, Less, IsDescendant, LostNodes, NodesOk, IsTreeOf, Shape, Slots;
    NodesApart(m, nodes, slot, gone);
    child := CdtFindChild(cdt, slot);
    forall s | s in Descendants(m, slot) - gone ensures s in cdt.contents && cdt.contents[s] == m[s] {
    }
  }

  /** The deletions so far have not changed which page tables are mapped, as far as a descendant needs one. */
  lemma SameTables(m: Contents, nodes: seq<Cte>, slot: Cte, gone: set<Cte>, child: Cte)
    requires slot in m && AllInTree(m) && NodesOk(m, nodes) && ObjectsAgree(m)
    requires gone <= Descendants(m, slot) && child in Descendants(m, slot)
    requires child in AfterDeleting(m, nodes, gone)
    ensures SearchFails(AfterDeleting(m, nodes, gone), child, []) <==> SearchFails(m, child, [])
  {
    var rest := AfterDeleting(m, nodes, gone);
    if UsesTable(m[child].cap) && TableMapped(m, TableOf(m[child].cap)) {
      var p := TableOf(m[child].cap);
      var s :| s in m && m[s].cap.PageTableCap? && m[s].cap.ptPtr == p && m[s].cap.ptMapping != 0;
      assert s in rest by { TableIsNoDescendant(m, nodes, slot, gone, child, s); }
    }
  }

  lemma TableIsNoDescendant(m: Contents, nodes: seq<Cte>, slot: Cte, gone: set<Cte>, child: Cte, table: Cte)
    requires slot in m && AllInTree(m) && NodesOk(m, nodes) && ObjectsAgree(m)
    requires gone <= Descendants(m, slot) && child in Descendants(m, slot)
    requires m[child].cap.FrameCap? && table in m && m[table].cap.PageTableCap?
    ensures table in AfterDeleting(m, nodes, gone)
  {
    DescendantsShareGroup(m[slot], m[child]);
    PageIsNoTable(m, child, table);
    if table in gone {
      DescendantsShareGroup(m[slot], m[table]);
    }
  }

  lemma PageIsNoTable(m: Contents, page: Cte, table: Cte)
    requires ObjectsAgree(m) && page in m && table in m && m[page].cap.FrameCap? && m[table].cap.PageTableCap?
    ensures !SharesAddress(m[page].cap, m[table].cap)
  {
  }

  /**
   cteRevoke: the caps deleted are the descendants of the slot, or, if it is preempted (which may happen
   once `budget` caps have been deleted), the `budget` greatest of them. With them go the nodes of the
   interrupts whose last handler was deleted, and no other slot. The assertion of unmapPagePTE fails
   exactly if it comes to a descendant mapped through a page table that is not mapped.
   */
  method CteRevoke(cdt: Cdt, slot: Cte, nodes: seq<Cte>, budget: nat) returns (r: Revocation, ghost gone: set<Cte>)
    requires cdt.Valid() && ObjectsAgree(cdt.contents) && TablesOk(cdt.contents)
    requires NodesOk(cdt.contents, nodes) && NodesStored(cdt.contents, nodes)
    requires slot in cdt.contents && !slot.cap.UntypedCap? && budget > 0
    modifies cdt, cdt.contents.Keys
    ensures AllInTree(old(cdt.contents)) && GreatestDescendants(old(cdt.contents), slot, gone)
    ensures r != Failed ==>
              && cdt.Valid() && ObjectsAgree(cdt.contents) && TablesOk(cdt.contents)
              && NodesOk(cdt.contents, nodes) && NodesStored(cdt.contents, nodes)
              && cdt.contents == AfterDeleting(old(cdt.contents), nodes, gone)
    ensures r == Finished ==> gone == Descendants(old(cdt.contents), slot)
    ensures r == Preempted ==> |gone| == budget
    ensures NoneMissing(old(cdt.contents), gone)
    ensures r == Failed ==>
              exists d :: NextDescendant(old(cdt.contents), slot, gone, d) && d != null
                          && SearchFails(old(cdt.contents), d, [])
  {
    hide IsTreeOf, Shape, Slots, ObjectsAgree, ZombieStays, IsFinalTable, NextDescendant, Descendants, AllInTree;
    hide NodesOk, NodesStored, Finalised, TableOk, AfterDeleting, TablesOk, SearchFails, NoneMissing;
    ghost var m := cdt.contents;
    CapsInTree(cdt);
    NoneGone(m, nodes, slot);
    gone := {};
    var deleted := 0;
    var child := FindNextDescendant(cdt, slot, m, nodes, gone);
    while child != null
      invariant cdt.Valid() && ObjectsAgree(cdt.contents) && TablesOk(cdt.contents) && AllInTree(m)
      invariant cdt.contents.Keys <= m.Keys && NodesOk(cdt.contents, nodes) && NodesStored(cdt.contents, nodes)
      invariant GreatestDescendants(m, slot, gone) && NextDescendant(m, slot, gone, child) && NoneMissing(m, gone)
      invariant deleted == |gone| < budget && |gone| <= |m|
      invariant cdt.contents == AfterDeleting(m, nodes, gone)
      decreases |m| - |gone|
    {
      VictimIsLeaf(m, nodes, slot, gone, child);
      DeletedOneMore(m, nodes, gone, child);
      VictimTable(m, nodes, slot, gone, child);
      var outcome := CteDeleteLeaf(cdt, child, nodes, []);
      if outcome == AssertionFails {
        return Failed, gone;
      }
      OneMoreGone(m, slot, gone, child);
      gone := gone + {child};
      deleted := deleted + 1;
      FewerSlots(m, nodes, gone);
      if deleted == budget {
        return Preempted, gone;
      }
      child := FindNextDescendant(cdt, slot, m, nodes, gone);
    }
    AllGone(m, slot, gone);
    return Finished, gone;
  }

  /** None of the slots was mapped through a page table that is not mapped. */
  ghost predicate NoneMissing(m: Contents, gone: set<Cte>) {
    forall d :: d in gone && d in m ==> !SearchFails(m, d, [])
  }

  lemma VictimTable(m: Contents, nodes: seq<Cte>, slot: Cte, gone: set<Cte>, child: Cte)
    requires slot in m && AllInTree(m) && NodesOk(m, nodes) && ObjectsAgree(m) && NoneMissing(m, gone)
    requires GreatestDescendants(m, slot, gone) && NextDescendant(m, slot, gone, child)
    requires child in AfterDeleting(m, nodes, gone)
    ensures child in m && (SearchFails(AfterDeleting(m, nodes, gone), child, []) <==> SearchFails(m, child, []))
    ensures !SearchFails(m, child, []) ==> NoneMissing(m, gone + {child})
  {
    hide SearchFails;
    SameTables(m, nodes, slot, gone, child);
  }

  lemma FewerSlots(m: Contents, nodes: seq<Cte>, gone: set<Cte>)
    ensures AfterDeleting(m, nodes, gone).Keys <= m.Keys
  {
  }

  lemma NoneGone(m: Contents, nodes: seq<Cte>, slot: Cte)
    requires slot in m && AllInTree(m)
    ensures GreatestDescendants(m, slot, {}) && AfterDeleting(m, nodes, {}) == m && NoneMissing(m, {})
  {
    assert LostNodes(m, nodes, {}) == {};
  }

  lemma AllGone(m: Contents, slot: Cte, gone: set<Cte>)
    requires slot in m && AllInTree(m) && GreatestDescendants(m, slot, gone) && NextDescendant(m, slot, gone, null)
    ensures gone == Descendants(m, slot)
  {
  }

  lemma HandlerDescends(parent: Key, child: Key)
    requires InTree(parent.cap) && child.cap.IrqHandlerCap? && IsDescendant(parent, child)
    ensures parent.cap.IrqControlCap? || parent.cap == child.cap
  {
  }

  /** Revoking takes out the descendants and nothing else, unless the cap is the interrupt control cap. */
  lemma RevokesOnlyDescendants(m: Contents, nodes: seq<Cte>, slot: Cte)
    requires slot in m && AllInTree(m) && !m[slot].cap.IrqControlCap?
    ensures AfterDeleting(m, nodes, Descendants(m, slot)) == m - Descendants(m, slot)
  {
    var gone := Descendants(m, slot);
    forall h | h in gone && m[h].cap.IrqHandlerCap? ensures m[slot].cap == m[h].cap {
      HandlerDescends(m[slot], m[h]);
    }
    assert !IsDescendant(m[slot], m[slot]);
    assert LostNodes(m, nodes, gone) == {};
  }

  /**
   Revoking the interrupt control cap takes out its descendants and nothing else if and only if no
   interrupt that has a handler cap is delivered to an async endpoint.
   */
  lemma RevokingIrqControl(m: Contents, nodes: seq<Cte>, slot: Cte)
    requires slot in m && AllInTree(m) && m[slot].cap.IrqControlCap? && NodesOk(m, nodes) && |nodes| <= MAX_IRQ + 1
    ensures AfterDeleting(m, nodes, Descendants(m, slot)) == m - Descendants(m, slot) <==>
              forall h :: h in m && m[h].cap.IrqHandlerCap? ==> nodes[m[h].cap.irq] !in m
  {
    var gone := Descendants(m, slot);
    NodesApart(m, nodes, slot, gone);
    forall h | h in m && m[h].cap.IrqHandlerCap?
      ensures h in gone && LosesHandler(m, gone, m[h].cap.irq)
    {
      HandlersGo(m, slot, m[h].cap.irq);
    }
    hide IsDescendant, Descendants;
    if forall h :: h in m && m[h].cap.IrqHandlerCap? ==> nodes[m[h].cap.irq] !in m {
      assert LostNodes(m, nodes, gone) == {};
    } else {
      var h :| h in m && m[h].cap.IrqHandlerCap? && nodes[m[h].cap.irq] in m;
      assert nodes[m[h].cap.irq] in LostNodes(m, nodes, gone);
      assert nodes[m[h].cap.irq] in m - gone;
    }
  }

  lemma HandlersGo(m: Contents, slot: Cte, irq: nat)
    requires slot in m && AllInTree(m) && m[slot].cap.IrqControlCap? && irq <= MAX_IRQ
    ensures forall h :: h in m && m[h].cap == IrqHandlerCap(irq) ==> h in Descendants(m, slot)
  {
  }

  // ---------------------------------------------------------------------------------------
  // Filling and emptying interrupt nodes
  // ---------------------------------------------------------------------------------------

  /** invokeIRQHandler_ClearIRQHandler: the interrupt's node is empty and nothing else has changed. */
  method ClearIrqHandler(cdt: Cdt, irq: nat, nodes: seq<Cte>)
    requires cdt.Valid() && ObjectsAgree(cdt.contents) && irq < |nodes|
    requires NodesOk(cdt.contents, nodes) && NodesStored(cdt.contents, nodes)
    modifies cdt, cdt.contents.Keys
    ensures cdt.Valid() && ObjectsAgree(cdt.contents)
    ensures NodesOk(cdt.contents, nodes) && NodesStored(cdt.contents, nodes)
    ensures cdt.contents == old(cdt.contents) - {nodes[irq]} && nodes[irq].cap == NullCap
    ensures Size(cdt.tree) <= old(Size(cdt.tree))
  {
    hide Shape, Slots, IsTreeOf, ObjectsAgree;
    CteDeleteOne(cdt, nodes[irq]);
    CapsInTree(cdt);
  }

  /**
   invokeIRQHandler_SetIRQHandler: the node holds a copy of the async endpoint cap, derived from the
   slot it was taken from, instead of what it held.
   */
  method SetIrqHandler(cdt: Cdt, irq: nat, slot: Cte, nodes: seq<Cte>)
    requires cdt.Valid() && ObjectsAgree(cdt.contents) && irq < |nodes| && Size(cdt.tree) < MAX_NODES
    requires NodesOk(cdt.contents, nodes) && NodesStored(cdt.contents, nodes)
    requires slot in cdt.contents && slot.cap.AsyncEndpointCap? && slot !in nodes
    requires forall s :: s in cdt.contents && s != nodes[irq] ==> s.addr != nodes[irq].addr
    modifies cdt, cdt.contents.Keys, nodes[irq]
    ensures cdt.Valid() && ObjectsAgree(cdt.contents)
    ensures NodesOk(cdt.contents, nodes) && NodesStored(cdt.contents, nodes)
    ensures var k := old(slot.SlotKey());
            var node := Key(k.cap, ChildDepth(k.cap, k.depth, k.cap), nodes[irq].addr);
            cdt.contents == old(cdt.contents)[nodes[irq] := node]
  {
    hide Shape, Slots, IsTreeOf, ObjectsAgree, Comparable;
    ghost var m := cdt.contents;
    TreeCaps(cdt);
    ClearIrqHandler(cdt, irq, nodes);
    CapsInTree(cdt);
    NodeMayHold(m, slot, nodes[irq]);
    nodes[irq].cap := slot.cap;
    cdt.CdtInsert(slot, nodes[irq]);
    CapsInTree(cdt);
  }

  lemma NodeMayHold(m: Contents, slot: Cte, node: Cte)
    requires AllCapsComparable(m) && ObjectsAgree(m) && slot in m && slot != node && m[slot].cap.AsyncEndpointCap?
    requires forall s :: s in m && s != node ==> s.addr != node.addr
    ensures InTree(m[slot].cap) && MayHold(m - {node}, node, m[slot].cap)
    ensures forall depth: nat :: ObjectsAgree((m - {node})[node := Key(m[slot].cap, depth, node.addr)])
  {
    forall s | s in m && s != node ensures Comparable(m[s].cap, m[slot].cap) {
    }
  }

  // ---------------------------------------------------------------------------------------
  // Inputs on which things go wrong
  // ---------------------------------------------------------------------------------------

  /** Empty slots for interrupt nodes, at addresses from `base` on. */
  method NewNodes(n: nat, base: nat) returns (nodes: seq<Cte>)
    ensures |nodes| == n && forall i :: 0 <= i < n ==> nodes[i].cap == NullCap && nodes[i].addr == base + i
    ensures forall i, j :: 0 <= i < j < n ==> nodes[i] != nodes[j]
    ensures forall i :: 0 <= i < n ==> fresh(nodes[i])
  {
    nodes := [];
    for k := 0 to n
      invariant |nodes| == k && forall i :: 0 <= i < k ==> nodes[i].cap == NullCap && nodes[i].addr == base + i
      invariant forall i, j :: 0 <= i < j < k ==> nodes[i] != nodes[j]
      invariant forall i :: 0 <= i < k ==> fresh(nodes[i])
    {
      var node := new Cte(base + k);
      nodes := nodes + [node];
    }
  }

  /** The interrupt control cap, a handler cap for interrupt 5, and the async endpoint it is delivered to. */
  ghost function IrqCaps(control: Cte, handler: Cte, node: Cte): Contents {
    Placed(Placed(Placed(map[], control, IrqControlCap, 0), handler, IrqHandlerCap(5), 1),
           node, AsyncEndpointCap(64, 0, 1), 0)
  }

  lemma IrqCapsFit(control: Cte, handler: Cte, node: Cte)
    requires control.addr == 1 && handler.addr == 2 && node.addr > 2
    ensures MayHold(map[], control, IrqControlCap)
    ensures var m := Placed(map[], control, IrqControlCap, 0);
            && m.Keys == {control} && MayHold(m, handler, IrqHandlerCap(5))
            && var m' := Placed(m, handler, IrqHandlerCap(5), 1);
               m'.Keys == {control, handler} && MayHold(m', node, AsyncEndpointCap(64, 0, 1))
    ensures var m := IrqCaps(control, handler, node);
            && m.Keys == {control, handler, node} && m[control] == Key(IrqControlCap, 0, 1)
            && m[handler] == Key(IrqHandlerCap(5), 1, 2) && m[node] == Key(AsyncEndpointCap(64, 0, 1), 0, node.addr)
  {
  }

  lemma IrqCapsReal(control: Cte, handler: Cte, node: Cte)
    requires control.addr == 1 && handler.addr == 2 && node.addr > 2
    ensures var m := IrqCaps(control, handler, node); AllInTree(m) && ObjectsAgree(m) && TablesOk(m)
  {
    IrqCapsFit(control, handler, node);
    hide IrqCaps;
    assert Bit(5) == 32 by { assert Bit(1) == 2 && Bit(2) == 4 && Bit(3) == 8 && Bit(4) == 16; }
  }

  lemma IrqCapsRevoked(control: Cte, handler: Cte, node: Cte, nodes: seq<Cte>)
    requires control.addr == 1 && handler.addr == 2 && node.addr > 2
    requires |nodes| == MAX_IRQ + 1 && nodes[5] == node && control !in nodes && handler !in nodes
    requires forall i, j :: 0 <= i < j < |nodes| ==> nodes[i] != nodes[j]
    ensures var m := IrqCaps(control, handler, node);
            && AllInTree(m) && NodesOk(m, nodes) && control in m && node in m && handler in m
            && Descendants(m, control) == {handler}
            && node !in AfterDeleting(m, nodes, {handler}) && !SearchFails(m, handler, [])
  {
    IrqCapsFit(control, handler, node);
    hide IrqCaps;
    var m := IrqCaps(control, handler, node);
    assert LosesHandler(m, {handler}, 5);
    assert nodes[5] in LostNodes(m, nodes, {handler});
  }

  method BuildIrqCaps(cdt: Cdt, control: Cte, handler: Cte, node: Cte)
    requires cdt.Valid() && cdt.contents == map[] && Size(cdt.tree) == 0
    requires control.addr == 1 && handler.addr == 2 && node.addr > 2
    modifies cdt, control, handler, node
    ensures cdt.Valid() && cdt.contents == IrqCaps(control, handler, node)
    ensures control.cap == IrqControlCap && node.cap == AsyncEndpointCap(64, 0, 1)
  {
    hide Shape, Slots, Distinct, Balanced, Ordered, InOrder, IsTreeOf, Size, Comparable, MayHold, Placed, Stored;
    IrqCapsFit(control, handler, node);
    cdt.Attach(control, IrqControlCap, 0);
    cdt.Attach(handler, IrqHandlerCap(5), 1);
    cdt.Attach(node, AsyncEndpointCap(64, 0, 1), 0);
  }

  method BuildIrqTree() returns (cdt: Cdt, control: Cte, ghost handler: Cte, nodes: seq<Cte>)
    ensures fresh(cdt) && cdt.Valid() && control.addr == 1 && handler.addr == 2
    ensures |nodes| == MAX_IRQ + 1 && nodes[5].addr > 2 && control !in nodes && handler !in nodes
    ensures fresh(control) && fresh(handler) && fresh(nodes[5]) && control.cap == IrqControlCap
    ensures forall i, j :: 0 <= i < j < |nodes| ==> nodes[i] != nodes[j]
    ensures forall i :: 0 <= i < |nodes| ==> (nodes[i].cap.NullCap? <==> i != 5)
    ensures cdt.contents == IrqCaps(control, handler, nodes[5])
  {
    hide Shape, Slots, Distinct, Balanced, Ordered, InOrder, IsTreeOf, Size, Stored, IrqCaps;
    cdt := new Cdt();
    control := new Cte(1);
    var handlerSlot := new Cte(2);
    handler := handlerSlot;
    nodes := NewNodes(MAX_IRQ + 1, 3);
    EmptyTree(cdt);
    BuildIrqCaps(cdt, control, handlerSlot, nodes[5]);
  }

  /** Revoking the interrupt control cap takes out a cap that is not its descendant. */
  method RevokingTakesMore() returns (r: Revocation, kept: bool)
    ensures r == Finished && !kept
  {
    hide Shape, Slots, Distinct, Balanced, Ordered, InOrder, IsTreeOf, Size, Stored, IrqCaps, Placed, NextDescendant;
    hide ObjectsAgree, TablesOk, NodesOk, AfterDeleting, SearchFails, Descendants, AllInTree, NoneMissing;
    var cdt, control, handler, nodes := BuildIrqTree();
    IrqCapsFit(control, handler, nodes[5]);
    IrqCapsReal(control, handler, nodes[5]);
    IrqCapsRevoked(control, handler, nodes[5], nodes);
    ghost var m := cdt.contents;
    ghost var gone;
    r, gone := CteRevoke(cdt, control, nodes, 2);
    OnlyHandler(m, control, handler, gone);
    kept := !nodes[5].cap.NullCap?;
  }

  lemma OnlyHandler(m: Contents, control: Cte, handler: Cte, gone: set<Cte>)
    requires control in m && AllInTree(m) && Descendants(m, control) == {handler} && !SearchFails(m, handler, [])
    requires GreatestDescendants(m, control, gone)
    ensures |gone| < 2
    ensures forall d :: NextDescendant(m, control, gone, d) && d != null ==> d in m && !SearchFails(m, d, [])
  {
    SubsetSize(gone, {handler});
  }

  /** A page directory, and a page table that is not mapped. */
  ghost function TwoTables(dir: Cte, table: Cte, mapping: nat): Contents {
    map[dir := Key(PageDirectoryCap(16384), 0, 1), table := Key(PageTableCap(4096, mapping), 0, 2)]
  }

  lemma TwoTablesAre(dir: Cte, table: Cte, mapping: nat)
    requires dir.addr == 1 && table.addr == 2
    ensures var m := TwoTables(dir, table, mapping);
            && m.Keys == {dir, table} && m[dir] == Key(PageDirectoryCap(16384), 0, 1)
            && m[table] == Key(PageTableCap(4096, mapping), 0, 2)
    ensures forall mapping': nat ::
              TwoTables(dir, table, mapping)[table := Key(PageTableCap(4096, mapping'), 0, 2)] ==
              TwoTables(dir, table, mapping')
  {
  }

  lemma TwoTablesApart(dir: Key, table: Key, mapping: nat)
    requires dir.cap == PageDirectoryCap(16384) && table.cap == PageTableCap(4096, mapping)
    ensures !SharesAddress(dir.cap, table.cap) && !SharesAddress(table.cap, dir.cap)
    ensures !SameObjectAs(dir.cap, table.cap) && !SameObjectAs(table.cap, dir.cap)
  {
  }

  lemma TwoTablesReal(dir: Cte, table: Cte, mapping: nat)
    requires dir.addr == 1 && table.addr == 2
    ensures var m := TwoTables(dir, table, mapping);
            && dir in m && table in m && AllInTree(m) && DepthsFit(m) && ObjectsAgree(m) && OwnAddresses(m)
            && TablesOk(m) && IsOnlyCap(m, dir) && IsOnlyCap(m, table) && MappedOnce(m) && NodesOk(m, [])
  {
    hide TwoTables, SharesAddress, SameObjectAs;
    assert Bit(1) == 2 && Bit(5) > 0;
    var m := TwoTables(dir, table, mapping);
    TwoTablesAre(dir, table, mapping);
    TwoTablesApart(m[dir], m[table], mapping);
  }

  /** The entries of the page directory after the page table has been mapped at `first` and again at `second`. */
  lemma TwoEntries(dir: Cte, table: Cte, first: nat, second: nat)
    requires dir.addr == 1 && table.addr == 2 && first != second && first != 0 && second != 0
    ensures var m, entries := TwoTables(dir, table, second), [PageTableCap(4096, first), PageTableCap(4096, second)];
            && dir in m && IsFinalTable(m, dir) && TableOk(m, dir, entries)
            && !Recorded(m, entries[0]) && SearchFails(m, dir, entries)
  {
    TwoTablesReal(dir, table, second);
    var m, entries := TwoTables(dir, table, second), [PageTableCap(4096, first), PageTableCap(4096, second)];
    assert !Recorded(m, entries[0]);
  }

  /**
   A page table whose only cap is mapped can be mapped once more, whatever entries are chosen; deleting the
   page directory then comes to the assertion that the first of the two mappings is recorded.
   */
  method RemapThenDelete(first: nat, second: nat) returns (accepted: bool, again: bool, r: Outcome)
    requires first != second && first != 0 && second != 0
    ensures accepted && again && r == AssertionFails
  {
    hide Shape, Slots, IsTreeOf, Stored, TablesOk, NodesOk, SearchFails, TableOk, IsFinalTable, ObjectsAgree, TwoTables;
    var cdt, dir, table := BuildTwoTables();
    accepted := MapTable(cdt, dir, table, 0, first);
    again := MapTable(cdt, dir, table, first, second);
    TwoTablesReal(dir, table, second);
    TwoTablesAre(dir, table, second);
    TwoEntries(dir, table, first, second);
    RootIsSlot(cdt, dir);
    r := CteDelete(cdt, dir, [], [PageTableCap(4096, first), PageTableCap(4096, second)]);
  }

  method MapTable(cdt: Cdt, ghost dir: Cte, table: Cte, ghost before: nat, mapping: nat) returns (accepted: bool)
    requires cdt.Valid() && dir.addr == 1 && table.addr == 2 && cdt.contents == TwoTables(dir, table, before)
    requires mapping != 0
    modifies cdt, dir, table
    ensures accepted && cdt.Valid() && cdt.contents == TwoTables(dir, table, mapping)
  {
    hide Shape, Slots, IsTreeOf, IsOnlyCap, ObjectsAgree, DepthsFit, OwnAddresses, TwoTables, TablesOk, NodesOk;
    TwoTablesReal(dir, table, before);
    TwoTablesAre(dir, table, before);
    accepted := MapPageTable(cdt, table, mapping);
  }

  method BuildTwoTables() returns (cdt: Cdt, dir: Cte, table: Cte)
    ensures fresh(cdt) && fresh(dir) && fresh(table)
    ensures cdt.Valid() && dir.addr == 1 && table.addr == 2 && cdt.contents == TwoTables(dir, table, 0)
  {
    hide Shape, Slots, Distinct, Balanced, Ordered, InOrder, IsTreeOf, Size, Stored;
    cdt := new Cdt();
    dir := new Cte(1);
    table := new Cte(2);
    EmptyTree(cdt);
    cdt.Attach(dir, PageDirectoryCap(16384), 0);
    cdt.Attach(table, PageTableCap(4096, 0), 0);
  }
}
