/**
 Capabilities of the ARM build and the comparators that order capability slots in the
 capability derivation tree (kernel/src/kernel/cdt.c). A slot is compared through the three
 things the comparators read: its cap, its derivation depth and its address.
 */
module Caps {
  import opened Arithmetic

  datatype Cap =
    | NullCap
    | UntypedCap(uPtr: nat, blockSize: nat, device: bool)
    | EndpointCap(epPtr: nat, epBadge: nat, epRights: nat)
    | AsyncEndpointCap(aepPtr: nat, aepBadge: nat, aepRights: nat)
    | ReplyCap(callerSlot: nat, master: bool, replyTcb: nat)
    | CNodeCap(cnodePtr: nat, radix: nat, guard: nat)
    | ThreadCap(tcbPtr: nat)
    | FrameCap(framePtr: nat, frameBits: nat, frameRights: nat, frameMapping: nat)
    | PageTableCap(ptPtr: nat, ptMapping: nat)
    | PageDirectoryCap(pdPtr: nat)
    | IrqControlCap
    | IrqHandlerCap(irq: nat)
    | ZombieCap(zombiePtr: nat, zombieBits: nat, zombieNumber: nat)
    | DomainCap

  datatype Space = UntypedMemory | TypedMemory | Irq | Domain
  {
    function Index(): nat {
      match this
      case UntypedMemory => 0
      case TypedMemory => 1
      case Irq => 2
      case Domain => 3
    }
  }

  const EP_SIZE_BITS: nat := 4
  const AEP_SIZE_BITS: nat := 4
  const TCB_BLOCK_SIZE_BITS: nat := 9
  const TCB_BLOCK_SIZE: nat := 512
  const PT_SIZE_BITS: nat := 10
  const PD_SIZE_BITS: nat := 14
  const CTE_SIZE_BITS: nat := 4
  const CTE_DEPTH_BITS: nat := 5
  const MAX_BADGE: nat := 0xFFF_FFFF
  const MAX_IRQ: nat := 0xff

  /** A cap that can be a node of the derivation tree: null and reply caps are not. */
  predicate InTree(c: Cap) {
    !c.NullCap? && !c.ReplyCap?
  }

  function SpaceOf(c: Cap): Space
    requires InTree(c)
  {
    match c
    case UntypedCap(_, _, _) => UntypedMemory
    case IrqControlCap | IrqHandlerCap(_) => Irq
    case DomainCap => Domain
    case _ => TypedMemory
  }

  /** Base address of the object of a memory cap; zero for every other cap. */
  function PtrOf(c: Cap): nat {
    match c
    case UntypedCap(p, _, _) => p
    case EndpointCap(p, _, _) => p
    case AsyncEndpointCap(p, _, _) => p
    case CNodeCap(p, _, _) => p
    case ThreadCap(p) => p - p % TCB_BLOCK_SIZE
    case FrameCap(p, _, _, _) => p
    case PageTableCap(p, _) => p
    case PageDirectoryCap(p) => p
    case ZombieCap(p, _, _) => p
    case _ => 0
  }

  function SizeBitsOf(c: Cap): nat {
    match c
    case UntypedCap(_, b, _) => b
    case EndpointCap(_, _, _) => EP_SIZE_BITS
    case AsyncEndpointCap(_, _, _) => AEP_SIZE_BITS
    case CNodeCap(_, r, _) => r + CTE_SIZE_BITS
    case ThreadCap(_) => TCB_BLOCK_SIZE_BITS
    case FrameCap(_, b, _, _) => b
    case PageTableCap(_, _) => PT_SIZE_BITS
    case PageDirectoryCap(_) => PD_SIZE_BITS
    case ZombieCap(_, b, _) => b
    case _ => 0
  }

  function SpacePtr(c: Cap): nat {
    match c
    case IrqHandlerCap(i) => i
    case ReplyCap(_, _, t) => t
    case _ => PtrOf(c)
  }

  function SpaceSize(c: Cap): nat {
    match c
    case IrqControlCap => 0xff
    case IrqHandlerCap(_) | ReplyCap(_, _, _) | DomainCap => 1
    case _ => Bit(SizeBitsOf(c))
  }

  function BadgeOf(c: Cap): nat {
    match c
    case EndpointCap(_, b, _) => b
    case AsyncEndpointCap(_, b, _) => b
    case _ => 0
  }

  /** The address of the page table or directory entry the cap is mapped by, zero when unmapped. */
  function ExtraOf(c: Cap): nat {
    match c
    case FrameCap(_, _, _, m) => m
    case PageTableCap(_, m) => m
    case _ => 0
  }

  function DepthBits(c: Cap): nat {
    if c.FrameCap? || c.PageTableCap? then 1 else CTE_DEPTH_BITS
  }

  /** The memory of an object: a TCB lies in an aligned block of 512 bytes; what other objects take, in bytes. */
  lemma ObjectMemory(c: Cap)
    ensures c.ThreadCap? ==> PtrOf(c) % 512 == 0 && PtrOf(c) <= c.tcbPtr < PtrOf(c) + 512
    ensures c.CNodeCap? ==> SpaceSize(c) == 16 * Bit(c.radix)
    ensures InTree(c) && !c.CNodeCap? ==>
              SpaceSize(c) == match c
                              case UntypedCap(_, b, _) => Bit(b)
                              case EndpointCap(_, _, _) | AsyncEndpointCap(_, _, _) => 16
                              case ThreadCap(_) => 512
                              case FrameCap(_, b, _, _) => Bit(b)
                              case PageTableCap(_, _) => 1024
                              case PageDirectoryCap(_) => 16384
                              case IrqControlCap => 255
                              case ZombieCap(_, b, _) => Bit(b)
                              case _ => 1
  {
    assert Bit(4) == 16 && Bit(6) == 64 && Bit(9) == 512 && Bit(10) == 1024;
    assert Bit(12) == 4096 && Bit(14) == 16384;
    if c.CNodeCap? { BitSum(CTE_SIZE_BITS, c.radix); }
  }

  predicate CapsEqual(a: Cap, b: Cap)
    requires InTree(a) && InTree(b)
  {
    && SpaceOf(a) == SpaceOf(b)
    && SpacePtr(a) == SpacePtr(b)
    && SpaceSize(a) == SpaceSize(b)
    && BadgeOf(a) == BadgeOf(b)
    && ExtraOf(a) == ExtraOf(b)
  }

  // ---------------------------------------------------------------------------------------
  // Comparators
  // ---------------------------------------------------------------------------------------

  datatype Ordering = LT | EQ | GT
  {
    function Reversed(): Ordering {
      match this
      case LT => GT
      case EQ => EQ
      case GT => LT
    }
  }

  function Compare(a: int, b: int): Ordering {
    if a == b then EQ else if a > b then GT else LT
  }

  /** What a comparator can see of a slot. */
  datatype Key = Key(cap: Cap, depth: nat, addr: nat)

  /** The tie-breaking comparators that are passed around as function pointers. */
  datatype Tie = TieBreak | HasExtra | SlotEq | LargestChild | SlotLt

  /** Runs a tie breaker. `preSlot` says whether the caller passed cap_extra_comp or NULL. */
  function BreakTie(tie: Tie, a: Key, b: Key, preSlot: bool): Ordering
    requires tie.HasExtra? ==> preSlot
  {
    if tie == LargestChild then LT else
    var byDepth := Compare(a.depth, b.depth);
    var byExtra := if preSlot then Compare(ExtraOf(a.cap), ExtraOf(b.cap)) else EQ;
    if byDepth != EQ then byDepth
    else if tie == HasExtra then (if byExtra != EQ then EQ else LT)
    else if byExtra != EQ then byExtra
    else match tie
         case TieBreak => Compare(a.addr, b.addr)
         case SlotEq => EQ
         case SlotLt => LT
  }

  /** Which per-type comparator typed_comparator selects for a cap. */
  datatype Comparator = JustTie | ByBadge | ByAsyncBadge | ByExtra

  function ComparatorOf(c: Cap): Comparator {
    match c
    case EndpointCap(_, _, _) => ByBadge
    case AsyncEndpointCap(_, _, _) => ByAsyncBadge
    case FrameCap(_, _, _, _) | PageTableCap(_, _) | PageDirectoryCap(_) => ByExtra
    case _ => JustTie
  }

  /**
   What the comparators take for granted about two caps ("at this point we *know* the types
   must be equal"): typed objects at one address are compared in one way, at depths of one width.
   */
  predicate Comparable(a: Cap, b: Cap) {
    && InTree(a) && InTree(b)
    && (SpaceOf(a) == TypedMemory && SpaceOf(b) == TypedMemory && PtrOf(a) == PtrOf(b) ==>
          ComparatorOf(a) == ComparatorOf(b) && DepthBits(a) == DepthBits(b))
  }

  /** The has_extra tie breaker insists on being given an extra comparison. */
  predicate TieApplies(tie: Tie, c: Cap) {
    tie == HasExtra ==> ComparatorOf(c) == ByExtra
  }

  function UntypedComparator(a: Key, b: Key, tie: Tie): Ordering
    requires a.cap.UntypedCap? && b.cap.UntypedCap? && !tie.HasExtra?
  {
    var byPtr := Compare(a.cap.uPtr, b.cap.uPtr);
    if byPtr != EQ then byPtr else
    var bySize := Compare(a.cap.blockSize, b.cap.blockSize).Reversed();
    if bySize != EQ then bySize else BreakTie(tie, a, b, false)
  }

  function TypedComparator(a: Key, b: Key, tie: Tie): Ordering
    requires Comparable(a.cap, b.cap) && SpaceOf(a.cap) == SpaceOf(b.cap) == TypedMemory
    requires PtrOf(a.cap) == PtrOf(b.cap) ==> TieApplies(tie, a.cap)
  {
    var byPtr := Compare(PtrOf(a.cap), PtrOf(b.cap));
    if byPtr != EQ then byPtr
    else match ComparatorOf(a.cap)
         case ByBadge =>
           var byBadge := Compare(a.cap.epBadge, b.cap.epBadge);
           if byBadge != EQ then byBadge else BreakTie(tie, a, b, false)
         case ByAsyncBadge =>
           var byBadge := Compare(a.cap.aepBadge, b.cap.aepBadge);
           if byBadge != EQ then byBadge else BreakTie(tie, a, b, false)
         case ByExtra => BreakTie(tie, a, b, true)
         case JustTie => BreakTie(tie, a, b, false)
  }

  function IrqComparator(a: Key, b: Key, tie: Tie): Ordering
    requires InTree(a.cap) && InTree(b.cap) && SpaceOf(a.cap) == SpaceOf(b.cap) == Irq
    requires !tie.HasExtra?
  {
    if a.cap.IrqControlCap? && b.cap.IrqControlCap? then BreakTie(tie, a, b, false)
    else if a.cap.IrqHandlerCap? && b.cap.IrqHandlerCap? then
      var byIrq := Compare(a.cap.irq, b.cap.irq);
      if byIrq != EQ then byIrq else BreakTie(tie, a, b, false)
    else if a.cap.IrqControlCap? then LT
    else GT
  }

  function CompSlotWith(a: Key, b: Key, tie: Tie): Ordering
    requires Comparable(a.cap, b.cap)
    requires tie.HasExtra? ==> ComparatorOf(b.cap) == ByExtra
  {
    var bySpace := Compare(SpaceOf(a.cap).Index(), SpaceOf(b.cap).Index());
    if bySpace != EQ then bySpace
    else match SpaceOf(a.cap)
         case UntypedMemory => UntypedComparator(a, b, tie)
         case TypedMemory => TypedComparator(a, b, tie)
         case Irq => IrqComparator(a, b, tie)
         case Domain => BreakTie(tie, a, b, false)
  }

  function CompSlot(a: Key, b: Key): Ordering
    requires Comparable(a.cap, b.cap)
  {
    CompSlotWith(a, b, TieBreak)
  }

  // ---------------------------------------------------------------------------------------
  // The order the comparators decide: lexicographic on six numbers
  // ---------------------------------------------------------------------------------------

  /** The position of a slot in the tree order, most significant component first. */
  datatype Rank = Rank(space: int, major: int, minor: int, depth: int, extra: int, addr: int)

  /** Strictly before, looking only at which object (and which badge of it) a slot names. */
  predicate ObjectLess(r: Rank, s: Rank) {
    || r.space < s.space
    || (r.space == s.space && r.major < s.major)
    || (r.space == s.space && r.major == s.major && r.minor < s.minor)
  }

  predicate SameObjectRank(r: Rank, s: Rank) {
    r.space == s.space && r.major == s.major && r.minor == s.minor
  }

  /** Strictly before, ignoring the slot address. */
  predicate NodeLess(r: Rank, s: Rank) {
    || ObjectLess(r, s)
    || (SameObjectRank(r, s) && r.depth < s.depth)
    || (SameObjectRank(r, s) && r.depth == s.depth && r.extra < s.extra)
  }

  predicate SameNodeRank(r: Rank, s: Rank) {
    SameObjectRank(r, s) && r.depth == s.depth && r.extra == s.extra
  }

  /** The tree order. */
  predicate Less(r: Rank, s: Rank) {
    NodeLess(r, s) || (SameNodeRank(r, s) && r.addr < s.addr)
  }

  function RankOf(k: Key): Rank
    requires InTree(k.cap)
  {
    match k.cap
    case UntypedCap(p, b, _) => Rank(0, p, -(b as int), k.depth, 0, k.addr)
    case IrqControlCap => Rank(2, 0, 0, k.depth, 0, k.addr)
    case IrqHandlerCap(i) => Rank(2, 1, i, k.depth, 0, k.addr)
    case DomainCap => Rank(3, 0, 0, k.depth, 0, k.addr)
    case _ => Rank(1, PtrOf(k.cap), BadgeOf(k.cap), k.depth, ExtraOf(k.cap), k.addr)
  }

  /** compSlot decides the tree order, and answers EQ only for one and the same slot address. */
  lemma CompSlotIsLess(a: Key, b: Key)
    requires Comparable(a.cap, b.cap)
    ensures CompSlot(a, b) == LT <==> Less(RankOf(a), RankOf(b))
    ensures CompSlot(a, b) == GT <==> Less(RankOf(b), RankOf(a))
    ensures CompSlot(a, b) == EQ <==> RankOf(a) == RankOf(b)
    ensures CompSlot(a, b) == EQ ==> a.addr == b.addr
    ensures CompSlot(b, a) == CompSlot(a, b).Reversed()
  {
  }

  /** The coarser comparators decide the matching prefixes of the tree order. */
  lemma CoarseComparators(a: Key, b: Key)
    requires Comparable(a.cap, b.cap)
    ensures CompSlotWith(a, b, SlotEq) == LT <==> NodeLess(RankOf(a), RankOf(b))
    ensures CompSlotWith(a, b, SlotEq) == EQ <==> SameNodeRank(RankOf(a), RankOf(b))
    ensures CompSlotWith(a, b, SlotLt) == GT <==> NodeLess(RankOf(b), RankOf(a))
    ensures CompSlotWith(a, b, LargestChild) == LT <==> !ObjectLess(RankOf(b), RankOf(a))
    ensures CompSlotWith(a, b, LargestChild) != EQ
  {
  }

  /** Strictly before, looking only at the object, the badge and the depth. */
  predicate DepthLess(r: Rank, s: Rank) {
    ObjectLess(r, s) || (SameObjectRank(r, s) && r.depth < s.depth)
  }

  /**
   The has_extra comparator is not an order: it answers EQ on the slots of the target's object and
   depth that are mapped elsewhere, and LT on those that share the target's mapping. Against an
   unmapped target it still steers a search the right way, since the latter then come before all of
   the former.
   */
  lemma HasExtraComparator(a: Key, b: Key)
    requires Comparable(a.cap, b.cap) && ComparatorOf(b.cap) == ByExtra
    ensures CompSlotWith(a, b, HasExtra) == EQ <==>
              SameObjectRank(RankOf(a), RankOf(b)) && a.depth == b.depth && ExtraOf(a.cap) != ExtraOf(b.cap)
    ensures CompSlotWith(a, b, HasExtra) == LT <==>
              DepthLess(RankOf(a), RankOf(b)) || SameNodeRank(RankOf(a), RankOf(b))
    ensures CompSlotWith(a, b, HasExtra) == GT <==> DepthLess(RankOf(b), RankOf(a))
    ensures ExtraOf(b.cap) == 0 ==>
              (CompSlotWith(a, b, HasExtra) == LT <==>
                 NodeLess(RankOf(a), RankOf(b)) || SameNodeRank(RankOf(a), RankOf(b)))
  {
  }

  lemma LessIsTotalOrder(r: Rank, s: Rank, t: Rank)
    ensures !Less(r, r)
    ensures Less(r, s) && Less(s, t) ==> Less(r, t)
    ensures Less(r, s) || r == s || Less(s, r)
  {
  }

  /** Caps that cdtUpdate treats as equal occupy the same place in the order. */
  lemma CapsEqualKeepsRank(a: Cap, b: Cap, depth: nat, addr: nat)
    requires InTree(a) && InTree(b) && CapsEqual(a, b)
    ensures RankOf(Key(a, depth, addr)) == RankOf(Key(b, depth, addr))
  {
    if a.UntypedCap? {
      BitInjective(a.blockSize, b.blockSize);
    }
  }
}
