/**
 Mappings recorded in capabilities (kernel/src/arch/arm/kernel/vspace.c): a cap to a frame or a page
 table records the table entry that maps it, and the kernel finds the cap that records an entry, or a
 mapped cap to a page table, by searching the derivation tree.
 */
module CdtMapping {
  import opened Arithmetic
  import opened Caps
  import opened AATree
  import opened CdtSlots
  import opened Derivation
  import opened CdtSearch
  import opened CdtLifetime

  /** BIT(PT_SIZE_BITS) */
  const PT_SIZE: nat := 1024

  /** No table entry is recorded in two caps. */
  ghost predicate MappedOnce(m: Contents) {
    forall x, y :: x in m && y in m && x != y && ExtraOf(m[x].cap) == ExtraOf(m[y].cap) ==> ExtraOf(m[x].cap) == 0
  }

  ghost predicate OwnAddresses(m: Contents) {
    forall x, y :: x in m && y in m && x != y ==> x.addr != y.addr
  }

  // ---------------------------------------------------------------------------------------
  // A search that misses
  // ---------------------------------------------------------------------------------------

  /** The unmapped copy `b`, the cap looked for in `a`, and an unrelated cap. */
  ghost function ThreeCaps(hypothetical: Cap, depth: nat, b: Cte, a: Cte, c: Cte): Contents {
    Placed(Placed(Placed(map[], b, Unmapped(hypothetical), depth), a, hypothetical, depth), c, DomainCap, 0)
  }

  /**
   cdtFindWithExtra misses matches for every mapped cap: in this tree of three slots an unmapped copy of
   the cap is to the left of the root. The root holds the cap itself and sends the search to the right,
   where there is only a cap of another kind.
   */
  method HasExtraMisses(hypothetical: Cap, depth: nat) returns (cdt: Cdt, b: Cte, r: Cte?)
    requires InTree(hypothetical) && ComparatorOf(hypothetical) == ByExtra && ExtraOf(hypothetical) != 0
    requires depth < Bit(DepthBits(hypothetical))
    ensures cdt.Valid() && AllComparableTo(cdt.contents, hypothetical) && cdt.root != null
    ensures DepthsFit(cdt.contents) && ObjectsAgree(cdt.contents)
    ensures MappedOnce(cdt.contents) && OwnAddresses(cdt.contents)
    ensures b in cdt.contents && InTree(cdt.contents[b].cap)
    ensures MappedElsewhere(cdt.contents[b], hypothetical, depth)
    ensures r == null && PathsEnd(cdt.tree, cdt.contents, hypothetical, Bit(DepthBits(hypothetical)))
  {
    hide Shape, Slots, Distinct, Balanced, Ordered, InOrder, IsTreeOf, Size, RankOf, Comparable, ThreeCaps;
    hide ObjectsAgree, MappedOnce, OwnAddresses, DepthsFit, ExtraPath, MappedElsewhere;
    var a, c;
    cdt, b, a, c := BuildThreeCaps(hypothetical, depth);
    ThreeCapsFit(hypothetical, depth, b, a, c);
    ThreeCapsReal(hypothetical, depth, b, a, c);
    forall d: nat ensures ExtraPath(cdt.tree, cdt.contents, Key(hypothetical, d, 0)) == null {
      MissedMatch(cdt.tree, hypothetical, depth, d, b, a, c);
    }
    RootIsSlot(cdt, b);
    r := CdtFindWithExtra(cdt, hypothetical);
  }

  method BuildThreeCaps(hypothetical: Cap, depth: nat) returns (cdt: Cdt, b: Cte, a: Cte, c: Cte)
    requires InTree(hypothetical)
    ensures cdt.Valid() && b.addr == 1 && a.addr == 2 && c.addr == 3
    ensures cdt.contents == ThreeCaps(hypothetical, depth, b, a, c) && Size(cdt.tree) == 3
  {
    hide Shape, Slots, Distinct, Balanced, Ordered, InOrder, IsTreeOf, Size, Comparable, MayHold, Placed, Stored;
    cdt := new Cdt();
    b := new Cte(1);
    a := new Cte(2);
    c := new Cte(3);
    EmptyTree(cdt);
    ThreeCapsFit(hypothetical, depth, b, a, c);
    cdt.Attach(b, Unmapped(hypothetical), depth);
    cdt.Attach(a, hypothetical, depth);
    cdt.Attach(c, DomainCap, 0);
  }

  lemma ThreeCapsFit(hypothetical: Cap, depth: nat, b: Cte, a: Cte, c: Cte)
    requires InTree(hypothetical) && b.addr == 1 && a.addr == 2 && c.addr == 3
    ensures InTree(Unmapped(hypothetical)) && MayHold(map[], b, Unmapped(hypothetical))
    ensures var m := Placed(map[], b, Unmapped(hypothetical), depth);
            && m.Keys == {b} && MayHold(m, a, hypothetical)
            && var m' := Placed(m, a, hypothetical, depth);
               m'.Keys == {b, a} && MayHold(m', c, DomainCap)
  {
  }

  lemma ThreeCapsAre(hypothetical: Cap, depth: nat, b: Cte, a: Cte, c: Cte)
    requires InTree(hypothetical) && b.addr == 1 && a.addr == 2 && c.addr == 3
    ensures var m := ThreeCaps(hypothetical, depth, b, a, c);
            && m.Keys == {b, a, c} && m[b] == Key(Unmapped(hypothetical), depth, 1)
            && m[a] == Key(hypothetical, depth, 2) && m[c] == Key(DomainCap, 0, 3)
  {
  }

  lemma ThreeCapsReal(hypothetical: Cap, depth: nat, b: Cte, a: Cte, c: Cte)
    requires InTree(hypothetical) && ComparatorOf(hypothetical) == ByExtra && ExtraOf(hypothetical) != 0
    requires b.addr == 1 && a.addr == 2 && c.addr == 3 && depth < Bit(DepthBits(hypothetical))
    ensures var m := ThreeCaps(hypothetical, depth, b, a, c);
            && AllComparableTo(m, hypothetical) && b in m && InTree(m[b].cap)
            && MappedElsewhere(m[b], hypothetical, depth)
            && DepthsFit(m) && ObjectsAgree(m) && MappedOnce(m) && OwnAddresses(m)
  {
    hide ThreeCaps;
    ThreeCapsAre(hypothetical, depth, b, a, c);
    var m := ThreeCaps(hypothetical, depth, b, a, c);
    assert MappedElsewhere(m[b], hypothetical, depth);
    UnmappedPair(hypothetical, hypothetical, hypothetical, Unmapped(hypothetical));
    UnmappedPair(hypothetical, hypothetical, Unmapped(hypothetical), hypothetical);
    hide SameObjectAs, SharesAddress, RankOf;
    Alone(m, c);
  }

  /** A domain cap shares its address with no cap. */
  lemma Alone(m: Contents, c: Cte)
    requires c in m && m[c].cap.DomainCap?
    ensures forall s :: s in m ==> !SharesAddress(m[s].cap, m[c].cap) && !SharesAddress(m[c].cap, m[s].cap)
  {
  }

  /** Taking out a mapping changes neither the object of a cap nor its kind. */
  lemma UnmappedPair(a: Cap, b: Cap, a': Cap, b': Cap)
    requires (a' == a || a' == Unmapped(a)) && (b' == b || b' == Unmapped(b))
    ensures SharesAddress(a', b') == SharesAddress(a, b) && SameObjectAs(a', b') == SameObjectAs(a, b)
  {
  }

  lemma MissedMatch(t: CdtTree, hypothetical: Cap, depth: nat, d: nat, b: Cte, a: Cte, c: Cte)
    requires InTree(hypothetical) && ComparatorOf(hypothetical) == ByExtra && ExtraOf(hypothetical) != 0
    requires b.addr == 1 && a.addr == 2 && c.addr == 3 && Size(t) == 3
    requires IsTreeOf(t, ThreeCaps(hypothetical, depth, b, a, c))
    ensures ExtraPath(t, ThreeCaps(hypothetical, depth, b, a, c), Key(hypothetical, d, 0)) == null
  {
    hide ThreeCaps;
    var m, key := ThreeCaps(hypothetical, depth, b, a, c), Key(hypothetical, d, 0);
    ThreeCapsAre(hypothetical, depth, b, a, c);
    if d == depth {
      ThreeSlots(t, m, b, a, c);
      HasExtraComparator(m[a], key);
      HasExtraComparator(m[c], key);
      assert ExtraPath(t, m, key) == ExtraPath(t.right, m, key) == ExtraPath(t.right.left, m, key);
    } else {
      ExtraPathMatches(t, m, key);
    }
  }

  /** Where the search stops there is a match. */
  lemma {:induction false} ExtraPathMatches(t: CdtTree, m: Contents, key: Key)
    requires ComparatorOf(key.cap) == ByExtra && InTree(key.cap)
    ensures var r := ExtraPath(t, m, key);
            r != null ==> r in m && InTree(m[r].cap) && MappedElsewhere(m[r], key.cap, key.depth)
    decreases t
  {
    if t.Node? {
      if t.item.slot in m && Comparable(m[t.item.slot].cap, key.cap) {
        HasExtraComparator(m[t.item.slot], key);
      }
      ExtraPathMatches(t.left, m, key);
      ExtraPathMatches(t.right, m, key);
    }
  }

  // ---------------------------------------------------------------------------------------
  // Page tables that are mapped
  // ---------------------------------------------------------------------------------------

  /** A page mapped through a page table, and the address of that page table. */
  predicate UsesTable(c: Cap) {
    c.FrameCap? && c.frameMapping != 0 && (c.frameBits == 12 || c.frameBits == 16)
  }

  function TableOf(c: Cap): (table: nat)
    requires UsesTable(c)
    ensures table % PT_SIZE == 0 && table <= c.frameMapping < table + PT_SIZE
  {
    c.frameMapping - c.frameMapping % PT_SIZE
  }

  /** Some cap to the page table at `p` is mapped. */
  ghost predicate TableMapped(m: Contents, p: nat) {
    exists s :: s in m && m[s].cap.PageTableCap? && m[s].cap.ptPtr == p && m[s].cap.ptMapping != 0
  }

  /** What has a cap at address `p`, if anything, is a page table. */
  ghost predicate TableAt(m: Contents, p: nat) {
    forall s :: s in m && InTree(m[s].cap) && SpaceOf(m[s].cap) == TypedMemory && PtrOf(m[s].cap) == p ==>
                  m[s].cap.PageTableCap?
  }

  /** Depths fit, and mapped pages are mapped through page tables. */
  ghost predicate TablesOk(m: Contents) {
    DepthsFit(m) && forall s :: s in m && UsesTable(m[s].cap) ==> TableAt(m, TableOf(m[s].cap))
  }

  /** unmapPagePTE asserts that this search for the page table finds something. */
  method FindTable(cdt: Cdt, p: nat) returns (found: bool)
    requires cdt.Valid() && cdt.root != null && DepthsFit(cdt.contents) && TableAt(cdt.contents, p)
    ensures found <==> TableMapped(cdt.contents, p)
  {
    hide Shape, Slots, IsTreeOf, DepthsFit, Comparable, MappedElsewhere, AllLower, OnlyLower, PathsEnd;
    TreeCaps(cdt);
    TableKeys(cdt.contents, p);
    var r := CdtFindWithExtra(cdt, PageTableCap(p, 0));
    if r == null { NothingLower(cdt.contents, p); }
    return r != null;
  }

  /** The caps mapped elsewhere than an unmapped cap are the mapped ones. */
  lemma TableKeys(m: Contents, p: nat)
    requires AllCapsComparable(m) && TableAt(m, p)
    ensures AllInTree(m) && AllComparableTo(m, PageTableCap(p, 0))
    ensures TableMapped(m, p) <==>
              exists s :: s in m && MappedElsewhere(m[s], PageTableCap(p, 0), m[s].depth)
  {
    ComparableCapsAreInTree(m);
    forall s | s in m
      ensures MappedElsewhere(m[s], PageTableCap(p, 0), m[s].depth) <==>
                m[s].cap.PageTableCap? && m[s].cap.ptPtr == p && m[s].cap.ptMapping != 0
    {
    }
    hide MappedElsewhere;
  }

  /** Nothing is mapped lower than an unmapped cap. */
  lemma NothingLower(m: Contents, p: nat)
    requires AllInTree(m) && AllLower(m, PageTableCap(p, 0))
    ensures forall s :: s in m ==> !MappedElsewhere(m[s], PageTableCap(p, 0), m[s].depth)
  {
    hide MappedElsewhere;
  }

  /**
   ARMPageTableMap: the guard is cdtFindWithExtra with the invoked cap itself. For an unmapped cap it lets
   through exactly the page tables that are not mapped. A mapped cap that is the only one to its page
   table it always lets through, and the record of the old mapping is overwritten.
   */
  method MapPageTable(cdt: Cdt, slot: Cte, mapping: nat) returns (accepted: bool)
    requires cdt.Valid() && DepthsFit(cdt.contents) && ObjectsAgree(cdt.contents) && OwnAddresses(cdt.contents)
    requires slot in cdt.contents && slot.cap.PageTableCap? && mapping != 0
    modifies cdt, cdt.contents.Keys
    ensures cdt.Valid() && DepthsFit(cdt.contents) && ObjectsAgree(cdt.contents) && OwnAddresses(cdt.contents)
    ensures var k := Key(old(slot.cap).(ptMapping := mapping), old(slot.depth), slot.addr);
            cdt.contents == if accepted then old(cdt.contents)[slot := k] else old(cdt.contents)
    ensures accepted ==> (old(slot.cap.ptMapping == 0) <==> !TableMapped(old(cdt.contents), old(slot.cap.ptPtr)))
    ensures old(slot.cap.ptMapping == 0) ==> (accepted <==> !TableMapped(old(cdt.contents), old(slot.cap.ptPtr)))
    ensures old(IsOnlyCap(cdt.contents, slot)) ==> accepted
  {
    hide Shape, Slots, IsTreeOf, DepthsFit, Comparable, MappedElsewhere, AllLower, OnlyLower, PathsEnd;
    hide ObjectsAgree, IsOnlyCap, TableMapped, OwnAddresses;
    TreeCaps(cdt);
    RootIsSlot(cdt, slot);
    MapGuard(cdt.contents, slot);
    Remapped(cdt.contents, slot, mapping);
    var r := CdtFindWithExtra(cdt, slot.cap);
    if r != null {
      return false;
    }
    cdt.CdtUpdate(slot, slot.cap.(ptMapping := mapping));
    return true;
  }

  /** What the answer of the guard means. */
  lemma MapGuard(m: Contents, slot: Cte)
    requires AllCapsComparable(m) && ObjectsAgree(m) && slot in m && m[slot].cap.PageTableCap?
    ensures AllInTree(m) && AllComparableTo(m, m[slot].cap)
    ensures m[slot].cap.ptMapping != 0 ==> TableMapped(m, m[slot].cap.ptPtr)
    ensures m[slot].cap.ptMapping == 0 && AllLower(m, m[slot].cap) ==> !TableMapped(m, m[slot].cap.ptPtr)
    ensures forall s :: s in m && MappedElsewhere(m[s], m[slot].cap, m[s].depth) ==> !IsOnlyCap(m, slot)
    ensures m[slot].cap.ptMapping == 0 ==>
              forall s :: s in m && MappedElsewhere(m[s], m[slot].cap, m[s].depth) ==> TableMapped(m, m[slot].cap.ptPtr)
  {
    ComparableCapsAreInTree(m);
    forall s | s in m ensures Comparable(m[s].cap, m[slot].cap) {
    }
    var c := m[slot].cap;
    forall s | s in m && MappedElsewhere(m[s], c, m[s].depth)
      ensures s != slot && SharesAddress(m[s].cap, c) && SameObjectAs(m[s].cap, c) && m[s].cap.PageTableCap?
      ensures m[s].cap.ptPtr == c.ptPtr && m[s].cap.ptMapping != c.ptMapping
    {
      assert SharesAddress(m[s].cap, c);
    }
    forall s | s in m && m[s].cap.PageTableCap? && m[s].cap.ptPtr == c.ptPtr && m[s].cap.ptMapping != c.ptMapping
      ensures MappedElsewhere(m[s], c, m[s].depth)
    {
    }
    hide MappedElsewhere, SameObjectAs, SharesAddress;
  }

  lemma Remapped(m: Contents, slot: Cte, mapping: nat)
    requires AllCapsComparable(m) && ObjectsAgree(m) && OwnAddresses(m) && slot in m && m[slot].cap.PageTableCap?
    requires m[slot].addr == slot.addr
    ensures var c := m[slot].cap.(ptMapping := mapping);
            && MayHold(m - {slot}, slot, c)
            && var m' := m[slot := Key(c, m[slot].depth, slot.addr)];
               && ObjectsAgree(m') && OwnAddresses(m') && (DepthsFit(m) ==> DepthsFit(m'))
  {
    ComparableCapsAreInTree(m);
    var c := m[slot].cap.(ptMapping := mapping);
    forall s | s in m && s != slot ensures Comparable(m[s].cap, c) {
      assert Comparable(m[s].cap, m[slot].cap);
    }
    forall s | s in m
      ensures SharesAddress(m[s].cap, c) == SharesAddress(m[s].cap, m[slot].cap)
      ensures SharesAddress(c, m[s].cap) == SharesAddress(m[slot].cap, m[s].cap)
      ensures SameObjectAs(m[s].cap, c) == SameObjectAs(m[s].cap, m[slot].cap)
      ensures SameObjectAs(c, m[s].cap) == SameObjectAs(m[slot].cap, m[s].cap)
    {
    }
    hide SharesAddress, SameObjectAs, Comparable;
  }

  // ---------------------------------------------------------------------------------------
  // Unmapping all that a table maps
  // ---------------------------------------------------------------------------------------

  /** `c` is a cap to the frame or page table that a table entry maps, and records that entry. */
  predicate MappedBy(c: Cap, entry: Cap) {
    if entry.FrameCap? then c.FrameCap? && c.framePtr == entry.framePtr && c.frameMapping == entry.frameMapping
    else c.PageTableCap? && entry.PageTableCap? && c.ptPtr == entry.ptPtr && c.ptMapping == entry.ptMapping
  }

  /** What has a cap at the address that an entry maps, if anything, is of the kind that the entry says. */
  ghost predicate EntryKind(m: Contents, entry: Cap) {
    && (entry.FrameCap? || entry.PageTableCap?)
    && forall s :: s in m && InTree(m[s].cap) && SpaceOf(m[s].cap) == TypedMemory && PtrOf(m[s].cap) == PtrOf(entry) ==>
                     (m[s].cap.FrameCap? && entry.FrameCap?) || (m[s].cap.PageTableCap? && entry.PageTableCap?)
  }

  /** The valid entries of a table, each given as the cap that names what it maps and its place. */
  ghost predicate EntriesOk(m: Contents, entries: seq<Cap>) {
    && (forall i, j :: 0 <= i < j < |entries| ==> ExtraOf(entries[i]) != ExtraOf(entries[j]))
    && (forall i :: 0 <= i < |entries| ==> ExtraOf(entries[i]) != 0 && EntryKind(m, entries[i]))
  }

  ghost predicate Recorded(m: Contents, entry: Cap) {
    exists s :: s in m && MappedBy(m[s].cap, entry)
  }

  ghost predicate AllRecorded(m: Contents, entries: seq<Cap>) {
    forall i :: 0 <= i < |entries| ==> Recorded(m, entries[i])
  }

  /** The last cap to a page table or page directory. */
  ghost predicate IsFinalTable(m: Contents, slot: Cte)
    requires slot in m
  {
    (m[slot].cap.PageTableCap? || m[slot].cap.PageDirectoryCap?) && IsOnlyCap(m, slot)
  }

  /** What the unmapping of a whole table relies on: the entries of a page table are pages. */
  ghost predicate TableOk(m: Contents, slot: Cte, entries: seq<Cap>)
    requires slot in m
  {
    && MappedOnce(m) && OwnAddresses(m) && EntriesOk(m, entries)
    && (m[slot].cap.PageTableCap? ==> forall i :: 0 <= i < |entries| ==> entries[i].FrameCap?)
  }

  /** A page table with entries that is not mapped itself. */
  ghost predicate TableUnmapped(m: Contents, slot: Cte, entries: seq<Cap>)
    requires slot in m
  {
    m[slot].cap.PageTableCap? && m[slot].cap.ptMapping == 0 && entries != []
  }

  /** The slots whose caps are mapped in the table. */
  ghost function MappedSlots(m: Contents, entries: seq<Cap>): set<Cte> {
    set s | s in m && exists i :: 0 <= i < |entries| && MappedBy(m[s].cap, entries[i])
  }

  /** `m` with the mapping taken out of the caps in `gone`. */
  ghost function UnmappedIn(m: Contents, gone: set<Cte>): (r: Contents)
    ensures r.Keys == m.Keys
  {
    map s | s in m :: if s in gone then m[s].(cap := Unmapped(m[s].cap)) else m[s]
  }

  lemma UnmappedKeeps(m: Contents, gone: set<Cte>)
    requires ObjectsAgree(m) && DepthsFit(m) && MappedOnce(m)
    ensures var m' := UnmappedIn(m, gone); ObjectsAgree(m') && DepthsFit(m') && MappedOnce(m')
  {
    hide SharesAddress, SameObjectAs;
    var m' := UnmappedIn(m, gone);
    forall x, y | x in m' && y in m' && x != y && SharesAddress(m'[x].cap, m'[y].cap)
      ensures SameObjectAs(m'[x].cap, m'[y].cap)
    {
      UnmappedPair(m[x].cap, m[y].cap, m'[x].cap, m'[y].cap);
    }
  }

  /** What cdtFind compares an entry with, and what it takes for a match. */
  lemma EntryMatches(m: Contents, gone: set<Cte>, entry: Cap)
    requires AllCapsComparable(m) && EntryKind(m, entry)
    ensures var m' := UnmappedIn(m, gone);
            && InTree(entry) && AllComparableTo(m', entry) && AllInTree(m')
            && forall x :: x in m' ==> (Matches(m'[x], entry) <==> MappedBy(m'[x].cap, entry))
  {
    ComparableCapsAreInTree(m);
    forall x | x in m
      ensures Comparable(Unmapped(m[x].cap), entry) && Comparable(m[x].cap, entry)
      ensures Matches(m[x], entry) <==> MappedBy(m[x].cap, entry)
      ensures Matches(m[x].(cap := Unmapped(m[x].cap)), entry) <==> MappedBy(Unmapped(m[x].cap), entry)
    {
      if InTree(m[x].cap) && SpaceOf(m[x].cap) == TypedMemory && PtrOf(m[x].cap) == PtrOf(entry) {
        assert (m[x].cap.FrameCap? && entry.FrameCap?) || (m[x].cap.PageTableCap? && entry.PageTableCap?);
      }
    }
    hide Comparable, Matches, MappedBy;
  }

  /** No other cap records the entry, and the cap that does records no other. */
  lemma RecordsOne(m: Contents, entries: seq<Cap>, i: nat, s: Cte)
    requires MappedOnce(m) && EntriesOk(m, entries) && i < |entries| && s in m && MappedBy(m[s].cap, entries[i])
    ensures forall x :: x in m && MappedBy(m[x].cap, entries[i]) ==> x == s
    ensures forall j :: 0 <= j < |entries| && j != i ==> !MappedBy(m[s].cap, entries[j])
  {
    hide EntryKind;
  }

  lemma OneMoreEntry(m: Contents, entries: seq<Cap>, i: nat, s: Cte)
    requires i < |entries| && s in m && MappedBy(m[s].cap, entries[i])
    requires forall x :: x in m && MappedBy(m[x].cap, entries[i]) ==> x == s
    ensures MappedSlots(m, entries[..i + 1]) == MappedSlots(m, entries[..i]) + {s}
  {
    hide MappedBy;
    var before, after := MappedSlots(m, entries[..i]), MappedSlots(m, entries[..i + 1]);
    forall x | x in after ensures x in before + {s} {
      var j :| 0 <= j < i + 1 && MappedBy(m[x].cap, entries[..i + 1][j]);
      if j < i { assert entries[..i][j] == entries[..i + 1][j]; }
    }
    forall x | x in before ensures x in after {
      var j :| 0 <= j < i && MappedBy(m[x].cap, entries[..i][j]);
      assert entries[..i + 1][j] == entries[..i][j];
    }
    assert entries[..i + 1][i] == entries[i];
  }

  /** After the entries before it, an entry is recorded if and only if it was at the start, in the same cap. */
  lemma StillRecorded(m: Contents, entries: seq<Cap>, i: nat)
    requires MappedOnce(m) && EntriesOk(m, entries) && i < |entries|
    ensures var m' := UnmappedIn(m, MappedSlots(m, entries[..i]));
            && (Recorded(m, entries[i]) <==> Recorded(m', entries[i]))
            && forall s :: s in m' && MappedBy(m'[s].cap, entries[i]) ==>
                             m[s] == m'[s] && s !in MappedSlots(m, entries[..i])
  {
    hide EntryKind, MappedOnce;
    var m' := UnmappedIn(m, MappedSlots(m, entries[..i]));
    forall s | s in m && MappedBy(m[s].cap, entries[i]) ensures m'[s] == m[s] && s !in MappedSlots(m, entries[..i]) {
      RecordsOne(m, entries, i, s);
    }
    assert ExtraOf(entries[i]) != 0;
    forall s | s in m' && MappedBy(m'[s].cap, entries[i]) ensures m[s] == m'[s] {
    }
  }

  /** Taking the mapping out of one more cap, as cdtUpdate does it. */
  lemma UnmapOne(m: Contents, before: set<Cte>, s: Cte)
    requires AllCapsComparable(m) && OwnAddresses(m) && s in m && s !in before && m[s].addr == s.addr
    ensures var m' := UnmappedIn(m, before);
            && s in m' && MayHold(m' - {s}, s, Unmapped(m'[s].cap))
            && m'[s := Key(Unmapped(m'[s].cap), m'[s].depth, s.addr)] == UnmappedIn(m, before + {s})
  {
    ComparableCapsAreInTree(m);
    var m' := UnmappedIn(m, before);
    forall x | x in m' && x != s ensures Comparable(m'[x].cap, Unmapped(m'[s].cap)) {
      assert Comparable(m[x].cap, m[s].cap);
    }
  }

  lemma NothingUnmapped(m: Contents, entries: seq<Cap>)
    ensures UnmappedIn(m, MappedSlots(m, entries[..0])) == m
  {
  }

  /**
   The loops of unmapAllPages and unmapAllPageTables: for every valid entry cdtFind gets the cap that
   records it, and cdtUpdate takes its mapping out. All other slots stay as they are. It is asserted that
   there is such a cap, and, for a page, that the page table is mapped somewhere: both hold exactly if
   every entry is recorded in a cap and the table is a page directory, mapped, or empty.
   */
  method UnmapAll(cdt: Cdt, slot: Cte, entries: seq<Cap>) returns (ok: bool)
    requires cdt.Valid() && ObjectsAgree(cdt.contents) && DepthsFit(cdt.contents)
    requires slot in cdt.contents && IsFinalTable(cdt.contents, slot) && TableOk(cdt.contents, slot, entries)
    modifies cdt, cdt.contents.Keys
    ensures ok <==> !TableUnmapped(old(cdt.contents), slot, entries) && AllRecorded(old(cdt.contents), entries)
    ensures ok ==> cdt.Valid() && ObjectsAgree(cdt.contents) && DepthsFit(cdt.contents)
    ensures ok ==> cdt.contents == UnmappedIn(old(cdt.contents), MappedSlots(old(cdt.contents), entries))
  {
    hide Shape, Slots, IsTreeOf, ObjectsAgree, DepthsFit, MappedOnce, EntriesOk, MappedSlots, UnmappedIn, Comparable;
    hide TableMapped, TableAt, IsFinalTable, Recorded, OwnAddresses;
    ghost var m := cdt.contents;
    NothingUnmapped(m, entries);
    TreeCaps(cdt);
    FinalTableKind(m, slot);
    var isTable, p := slot.cap.PageTableCap?, if slot.cap.PageTableCap? then slot.cap.ptPtr else 0;
    for i := 0 to |entries|
      invariant cdt.Valid() && cdt.contents == UnmappedIn(m, MappedSlots(m, entries[..i]))
      invariant i > 0 && isTable ==> m[slot].cap.ptMapping != 0
      invariant forall k :: 0 <= k < i ==> Recorded(m, entries[k])
    {
      RootIsSlot(cdt, slot);
      var recorded := UnmapEntry(cdt, entries[i], m, entries, i);
      if !recorded {
        return false;
      }
      if isTable {
        OwnTable(m, slot, entries, i + 1);
        var found := FindTable(cdt, p);
        if !found {
          return false;
        }
      }
    }
    UnmappedKeeps(m, MappedSlots(m, entries));
    assert entries[..|entries|] == entries;
    return true;
  }

  lemma FinalTableKind(m: Contents, slot: Cte)
    requires slot in m && IsFinalTable(m, slot)
    ensures m[slot].cap.PageTableCap? || m[slot].cap.PageDirectoryCap?
  {
  }

  /** The last cap to a page table is the one that the search finds, if it is mapped. */
  lemma OwnTable(m: Contents, slot: Cte, entries: seq<Cap>, i: nat)
    requires ObjectsAgree(m) && DepthsFit(m) && MappedOnce(m) && AllCapsComparable(m)
    requires slot in m && m[slot].cap.PageTableCap? && IsFinalTable(m, slot) && i <= |entries|
    requires forall k :: 0 <= k < |entries| ==> entries[k].FrameCap?
    ensures var m', p := UnmappedIn(m, MappedSlots(m, entries[..i])), m[slot].cap.ptPtr;
            && DepthsFit(m') && TableAt(m', p) && (TableMapped(m', p) <==> m[slot].cap.ptMapping != 0)
  {
    var gone, p := MappedSlots(m, entries[..i]), m[slot].cap.ptPtr;
    var m' := UnmappedIn(m, gone);
    UnmappedKeeps(m, gone);
    assert slot !in gone && m'[slot] == m[slot];
    forall s | s in m && InTree(m[s].cap) && SpaceOf(m[s].cap) == TypedMemory && PtrOf(m[s].cap) == p
      ensures s == slot
    {
      assert s != slot ==> SharesAddress(m[s].cap, m[slot].cap);
    }
    ComparableCapsAreInTree(m);
  }

  /** One turn of the loop, up to the assertion that a cap was found. */
  method UnmapEntry(cdt: Cdt, entry: Cap, ghost m: Contents, ghost entries: seq<Cap>, ghost i: nat) returns (ok: bool)
    requires cdt.Valid() && cdt.root != null && AllCapsComparable(m) && ObjectsAgree(m) && DepthsFit(m)
    requires MappedOnce(m) && OwnAddresses(m) && EntriesOk(m, entries) && i < |entries| && entry == entries[i]
    requires cdt.contents == UnmappedIn(m, MappedSlots(m, entries[..i]))
    modifies cdt, cdt.contents.Keys
    ensures ok <==> Recorded(m, entry)
    ensures ok ==>
              && cdt.Valid() && cdt.root != null
              && cdt.contents == UnmappedIn(m, MappedSlots(m, entries[..i + 1]))
  {
    hide Shape, Slots, IsTreeOf, ObjectsAgree, DepthsFit, MappedOnce, MappedSlots, UnmappedIn, Comparable, Matches;
    hide MappedBy, EntryKind, OwnAddresses;
    ghost var before := MappedSlots(m, entries[..i]);
    UnmappedKeeps(m, before);
    EntryMatches(m, before, entry);
    StillRecorded(m, entries, i);
    var slot := CdtFind(cdt, entry);
    if slot == null {
      return false;
    }
    RecordsOne(m, entries, i, slot);
    OneMoreEntry(m, entries, i, slot);
    UnmapOne(m, before, slot);
    cdt.CdtUpdate(slot, Unmapped(slot.cap));
    RootIsSlot(cdt, slot);
    return true;
  }
}
