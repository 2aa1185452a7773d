/**
 The splitting of free memory into untyped capabilities at boot (create_untypeds_for_region in
 kernel/src/kernel/boot.c).
 */
module BootUntypeds {
  import opened Arithmetic

  /** WORD_BITS, BIT(PAGE_BITS), kernelBase (exynos4) and CONFIG_MAX_NUM_BOOTINFO_UNTYPED_CAPS */
  const WORD_BITS := 32
  const PAGE := 4096
  const KERNEL_BASE := 0xe000_0000
  const MAX_LISTED := 800

  /** An untyped block of 2^bits bytes. */
  datatype Block = Block(addr: nat, bits: nat)

  /** WORD_BITS - 1 - CLZ(n): the exponent of the greatest power of two up to `n`. */
  function FloorLog(n: nat): (k: nat)
    requires n > 0
    ensures Bit(k) <= n < Bit(k + 1)
  {
    if n == 1 then 0 else FloorLog(n / 2) + 1
  }

  /** CTZ(n) */
  function Ctz(n: nat): nat
    requires n > 0
  {
    if n % 2 == 1 then 0 else Ctz(n / 2) + 1
  }

  function OddPart(n: nat): (m: nat)
    requires n > 0
    ensures m > 0 && m % 2 == 1
  {
    if n % 2 == 1 then n else OddPart(n / 2)
  }

  lemma {:induction false} CtzSplits(n: nat)
    requires n > 0
    ensures n == Bit(Ctz(n)) * OddPart(n)
  {
    if n % 2 == 0 {
      CtzSplits(n / 2);
      var k, m := Ctz(n / 2), OddPart(n / 2);
      assert Ctz(n) == k + 1 && OddPart(n) == m && Bit(k + 1) == 2 * Bit(k);
      MulAssociates(2, Bit(k), m);
    }
  }

  lemma {:induction false} CtzOfMultiple(k: nat, m: nat)
    requires m > 0
    ensures Bit(k) * m > 0 && Ctz(Bit(k) * m) == k + Ctz(m)
  {
    if k > 0 {
      CtzOfMultiple(k - 1, m);
      assert Bit(k) * m == 2 * (Bit(k - 1) * m);
    }
  }

  /** The exponent of the next block. */
  function NextBits(start: nat, end: nat): nat
    requires 0 < start < end
  {
    var size, align := FloorLog(end - start), Ctz(start);
    if align < size then align else size
  }

  lemma NextFits(start: nat, end: nat)
    requires 0 < start < end
    ensures Bit(NextBits(start, end)) <= end - start
  {
    BitMonotone(NextBits(start, end), FloorLog(end - start));
  }

  /** The blocks in the order in which they are offered. */
  function Split(start: nat, end: nat): seq<Block>
    requires 0 < start <= end
    decreases end - start
  {
    if start == end then []
    else
      NextFits(start, end);
      var b := NextBits(start, end);
      [Block(start, b)] + Split(start + Bit(b), end)
  }

  /** The blocks cover the region from `start` to `end` without gap or overlap. */
  ghost predicate Tiles(bs: seq<Block>, start: nat, end: nat) {
    if bs == [] then start == end
    else bs[0].addr == start && Tiles(bs[1..], start + Bit(bs[0].bits), end)
  }

  lemma {:induction false} SplitTiles(start: nat, end: nat)
    requires 0 < start <= end
    ensures Tiles(Split(start, end), start, end)
    decreases end - start
  {
    if start < end {
      NextFits(start, end);
      var b := NextBits(start, end);
      SplitTiles(start + Bit(b), end);
      assert Split(start, end)[1..] == Split(start + Bit(b), end);
    }
  }

  /** A multiple of a power of two that is no smaller is a multiple of the smaller one. */
  lemma AlignedStart(start: nat, b: nat)
    requires start > 0 && b <= Ctz(start)
    ensures start == Bit(b) * (Bit(Ctz(start) - b) * OddPart(start)) && start % Bit(b) == 0
  {
    hide Bit, Ctz, OddPart;
    var c := Ctz(start);
    CtzSplits(start);
    BitSum(b, c - b);
    MulAssociates(Bit(b), Bit(c - b), OddPart(start));
    NoRemainder(start, Bit(b), Bit(c - b) * OddPart(start));
  }

  lemma StartAligned(start: nat, b: nat)
    requires start > 0 && b <= Ctz(start)
    ensures start % Bit(b) == 0
  {
    AlignedStart(start, b);
  }

  /** Every block is naturally aligned and lies in the region. */
  lemma {:induction false} SplitAligned(start: nat, end: nat, i: nat)
    requires 0 < start <= end && i < |Split(start, end)|
    ensures var b := Split(start, end)[i];
            b.addr % Bit(b.bits) == 0 && start <= b.addr && b.addr + Bit(b.bits) <= end
    decreases end - start
  {
    hide Bit, FloorLog, Ctz;
    NextFits(start, end);
    var b := NextBits(start, end);
    StartAligned(start, b);
    if i > 0 {
      SplitAligned(start + Bit(b), end, i - 1);
    }
  }

  /** The size of the rest of the region, and not the alignment of its start, limits the next block. */
  predicate SizeLimited(start: nat, end: nat)
    requires 0 < start < end
  {
    FloorLog(end - start) <= Ctz(start)
  }

  lemma SmallerLog(n: nat, k: nat)
    requires 0 < n < Bit(k)
    ensures FloorLog(n) < k
  {
    if k <= FloorLog(n) {
      BitMonotone(k, FloorLog(n));
    }
  }

  lemma BitOfCtz(start: nat, k: nat)
    requires 0 < start < Bit(k)
    ensures Ctz(start) < k
  {
    CtzSplits(start);
    AtLeast(Bit(Ctz(start)), OddPart(start));
    if k <= Ctz(start) {
      BitMonotone(k, Ctz(start));
    }
  }

  lemma BitDoubles(b: nat)
    ensures Bit(b + 1) == 2 * Bit(b) && Bit(4) == 16
  {
  }

  lemma CtzAfter(start: nat, b: nat, m: nat)
    requires start == Bit(b) * m
    ensures start + Bit(b) > 0 && Ctz(start + Bit(b)) == b + Ctz(m + 1)
  {
    hide Bit, Ctz;
    assert Bit(b) * (m + 1) == Bit(b) * m + Bit(b);
    CtzOfMultiple(b, m + 1);
  }

  lemma CtzOfEven(n: nat)
    requires n > 0 && n % 2 == 0
    ensures Ctz(n) > 0
  {
  }

  /** While the alignment limits the blocks, each one leaves a better aligned start. */
  lemma RiseStep(start: nat, end: nat)
    requires 0 < start < end && !SizeLimited(start, end)
    ensures Ctz(start + Bit(NextBits(start, end))) > NextBits(start, end) == Ctz(start)
  {
    hide Bit, Ctz, OddPart, FloorLog;
    CtzSplits(start);
    CtzAfter(start, Ctz(start), OddPart(start));
    CtzOfEven(OddPart(start) + 1);
  }

  /** Once the size limits them it goes on doing so, and they get smaller. */
  lemma FallStep(start: nat, end: nat)
    requires 0 < start < end && SizeLimited(start, end)
    ensures var b := NextBits(start, end);
            var next := start + Bit(b);
            next < end ==> FloorLog(end - next) < b <= Ctz(next) && SizeLimited(next, end) && NextBits(next, end) < b
  {
    hide Bit, Ctz, OddPart, FloorLog;
    var b := FloorLog(end - start);
    BitDoubles(b);
    AlignedStart(start, b);
    CtzAfter(start, b, Bit(Ctz(start) - b) * OddPart(start));
    if start + Bit(b) < end {
      SmallerLog(end - (start + Bit(b)), b);
    }
  }

  lemma SplitFirst(start: nat, end: nat)
    requires 0 < start < end
    ensures var b := NextBits(start, end);
            && start + Bit(b) <= end && Split(start, end) == [Block(start, b)] + Split(start + Bit(b), end)
            && |Split(start, end)| == 1 + |Split(start + Bit(b), end)| && Split(start, end)[0].bits == b
  {
    NextFits(start, end);
  }

  lemma {:induction false} Falls(start: nat, end: nat)
    requires 0 < start < end && SizeLimited(start, end)
    ensures forall j :: 0 <= j < |Split(start, end)| - 1 ==> Split(start, end)[j].bits > Split(start, end)[j + 1].bits
    ensures |Split(start, end)| <= FloorLog(end - start) + 1
    decreases end - start
  {
    hide Split, NextBits, FloorLog, Ctz, SizeLimited;
    var b := NextBits(start, end);
    var next := start + Bit(b);
    SplitFirst(start, end);
    NextWhenLimited(start, end);
    FallStep(start, end);
    if next < end {
      Falls(next, end);
      SplitFirst(next, end);
    } else {
      assert Split(next, end) == [] by {
        SplitNone(end);
      }
    }
  }

  lemma NextWhenLimited(start: nat, end: nat)
    requires 0 < start < end && SizeLimited(start, end)
    ensures NextBits(start, end) == FloorLog(end - start)
  {
  }

  lemma SplitNone(end: nat)
    requires end > 0
    ensures Split(end, end) == []
  {
  }

  /** After the first exponent that does not rise, they all fall. */
  ghost predicate RisesThenFalls(bs: seq<Block>) {
    forall i, j :: 0 <= i < j < |bs| - 1 && bs[i].bits >= bs[i + 1].bits ==> bs[j].bits > bs[j + 1].bits
  }

  lemma PeakIsLimited(start: nat, end: nat)
    requires 0 < start < end && start + Bit(NextBits(start, end)) < end
    requires NextBits(start, end) >= NextBits(start + Bit(NextBits(start, end)), end)
    ensures SizeLimited(start + Bit(NextBits(start, end)), end)
  {
    if SizeLimited(start, end) {
      FallStep(start, end);
    } else {
      RiseStep(start, end);
    }
  }

  lemma {:induction false} SplitShape(start: nat, end: nat)
    requires 0 < start <= end
    ensures RisesThenFalls(Split(start, end))
    decreases end - start
  {
    hide Split, NextBits, FloorLog, Ctz, SizeLimited;
    if start == end {
      SplitNone(end);
    } else {
      var next := start + Bit(NextBits(start, end));
      SplitFirst(start, end);
      SplitShape(next, end);
      if next < end {
        SplitFirst(next, end);
        if NextBits(start, end) >= NextBits(next, end) {
          PeakIsLimited(start, end);
          Falls(next, end);
        }
      } else {
        SplitNone(end);
      }
    }
  }

  /** ... so there are at most 2 * WORD_BITS blocks. */
  lemma {:induction false} SplitBounded(start: nat, end: nat)
    requires 0 < start <= end <= Bit(WORD_BITS)
    ensures |Split(start, end)| <= 2 * WORD_BITS
    ensures start < end ==> |Split(start, end)| <= 2 * WORD_BITS - Ctz(start)
    decreases end - start
  {
    hide Split, NextBits, FloorLog, Ctz, SizeLimited, Bit;
    if start == end {
      SplitNone(end);
    } else {
      var next := start + Bit(NextBits(start, end));
      SplitFirst(start, end);
      BitOfCtz(start, WORD_BITS);
      if SizeLimited(start, end) {
        Falls(start, end);
        SmallerLog(end - start, WORD_BITS);
      } else {
        RiseStep(start, end);
        SplitBounded(next, end);
        if next == end {
          SplitNone(end);
        }
      }
    }
  }

  /** The assertion in the loop holds for every block if and only if the region starts and ends at multiples of 16. */
  lemma SplitCoarse(start: nat, end: nat)
    requires 0 < start < end
    ensures (forall i :: 0 <= i < |Split(start, end)| ==> Split(start, end)[i].bits >= WORD_BITS / 8) <==>
              start % 16 == 0 && end % 16 == 0
  {
    hide Split;
    if start % 16 == 0 && end % 16 == 0 {
      forall i | 0 <= i < |Split(start, end)| ensures Split(start, end)[i].bits >= WORD_BITS / 8 {
        CoarseBlock(start, end, i);
      }
    } else if forall i :: 0 <= i < |Split(start, end)| ==> Split(start, end)[i].bits >= WORD_BITS / 8 {
      CoarseEnds(start, end);
    }
  }

  lemma {:induction false} CoarseEnds(start: nat, end: nat)
    requires 0 < start < end && forall i :: 0 <= i < |Split(start, end)| ==> Split(start, end)[i].bits >= 4
    ensures start % 16 == 0 && end % 16 == 0
    decreases end - start
  {
    hide Split, NextBits, FloorLog, Ctz;
    SplitFirst(start, end);
    var b, next := NextBits(start, end), start + Bit(NextBits(start, end));
    var bs := Split(start, end);
    assert bs[0].bits == b;
    CoarseStart(start, end);
    if next < end {
      var rest := Split(next, end);
      forall i | 0 <= i < |rest| ensures rest[i].bits >= 4 { assert rest[i] == bs[i + 1]; }
      CoarseEnds(next, end);
    }
  }

  lemma CoarseStart(start: nat, end: nat)
    requires 0 < start < end && NextBits(start, end) >= 4
    ensures start % 16 == 0 && (start + Bit(NextBits(start, end))) % 16 == 0
  {
    hide Bit, Ctz, FloorLog;
    var b := NextBits(start, end);
    StartAligned(start, b);
    Sixteens(start, b);
    AddMultiples(start, Bit(b), 16);
  }

  lemma Sixteens(x: nat, b: nat)
    requires b >= 4 && x % Bit(b) == 0
    ensures x % 16 == 0 && Bit(b) % 16 == 0
  {
    assert Bit(4) == 16;
    FinerAligned(x, b, 4);
    BitSum(4, b - 4);
    NoRemainder(Bit(b), 16, Bit(b - 4));
  }

  lemma {:induction false} CoarseBlock(start: nat, end: nat, i: nat)
    requires 0 < start <= end && start % 16 == 0 && end % 16 == 0 && i < |Split(start, end)|
    ensures Split(start, end)[i].bits >= WORD_BITS / 8
    decreases end - start
  {
    hide Split, NextBits, FloorLog, Ctz, SizeLimited;
    if start == end {
      SplitNone(end);
    } else {
      var b := NextBits(start, end);
      SplitFirst(start, end);
      CoarseStep(start, end);
      if i > 0 {
        CoarseBlock(start + Bit(b), end, i - 1);
      }
    }
  }

  lemma CoarseStep(start: nat, end: nat)
    requires 0 < start < end && start % 16 == 0 && end % 16 == 0
    ensures NextBits(start, end) >= 4 && (start + Bit(NextBits(start, end))) % 16 == 0
  {
    hide Bit, Ctz, FloorLog;
    var b := NextBits(start, end);
    BitDoubles(b);
    CtzOfMultiple(4, start / 16);
    if FloorLog(end - start) < 4 {
      BitMonotone(FloorLog(end - start) + 1, 4);
    }
    BitSum(4, b - 4);
  }

  /** The boot information: the slots of the initial thread's CNode and the list of untyped caps. */
  class BootInfo {
    const slotMax: nat
    var slotCur: nat
    var caps: seq<Block>
    var listed: map<nat, Block>

    constructor (first: nat, slotMax: nat)
      ensures slotCur == first && this.slotMax == slotMax && caps == [] && listed == map[]
    {
      this.slotMax := slotMax;
      slotCur, caps, listed := first, [], map[];
    }

    /** provide_untyped_cap: a block past the end of the list is dropped without failure. */
    method ProvideUntypedCap(b: Block, first: nat) returns (ok: bool)
      requires first <= slotCur
      modifies this
      ensures if old(slotCur) - first < MAX_LISTED && old(slotCur) < slotMax
              then slotCur == old(slotCur) + 1 && caps == old(caps) + [b]
              else slotCur == old(slotCur) && caps == old(caps)
      ensures ok <==> old(slotCur) - first >= MAX_LISTED || old(slotCur) < slotMax
      ensures listed ==
              if old(slotCur) - first < MAX_LISTED then old(listed)[old(slotCur) - first := b] else old(listed)
    {
      var i := slotCur - first;
      if i < MAX_LISTED {
        listed := listed[i := b];
        if slotCur >= slotMax {
          return false;
        }
        caps := caps + [b];
        slotCur := slotCur + 1;
      }
      return true;
    }

    /** The number of caps there is still room for: in the list, and in the CNode. */
    ghost function ListLeft(first: nat): nat
      reads this
      requires first <= slotCur
    {
      if slotCur - first < MAX_LISTED then MAX_LISTED - (slotCur - first) else 0
    }

    ghost function SlotsLeft(): nat
      reads this
    {
      if slotCur < slotMax then slotMax - slotCur else 0
    }

    /**
     create_untypeds_for_region. The first page of the kernel's window is skipped; memory that is not
     device memory lies in that window, and reaches beyond the page if it starts with it. The blocks
     of the region are provided in order as long as there is room; it is a failure to run out of slots,
     but not to run out of list.
     */
    method CreateUntypedsForRegion(device: bool, start: nat, end: nat, first: nat) returns (ok: bool)
      requires 0 < start <= end <= Bit(WORD_BITS) && start % 16 == 0 && end % 16 == 0
      requires device || KERNEL_BASE <= start
      requires !device && start == KERNEL_BASE && start < end ==> start + PAGE < end
      requires first <= slotCur
      modifies this
      ensures var blocks := Split(if !device && start == KERNEL_BASE && start < end then start + PAGE else start, end);
              && (ok <==> |blocks| <= old(SlotsLeft()) || old(ListLeft(first)) <= old(SlotsLeft()))
              && caps == old(caps) + blocks[..Min(|blocks|, Min(old(ListLeft(first)), old(SlotsLeft())))]
    {
      hide Split, NextBits, FloorLog, Ctz, Bit;
      var pos := start;
      ghost var from := if !device && start == KERNEL_BASE && start < end then start + PAGE else start;
      ghost var blocks, k, room := Split(from, end), 0, Min(ListLeft(first), SlotsLeft());
      while pos != end
        invariant 0 < pos <= end && pos % 16 == 0 && end % 16 == 0
        invariant k <= |blocks| && (k <= old(SlotsLeft()) || old(ListLeft(first)) <= old(SlotsLeft()))
        invariant (pos == start && k == 0) || device || KERNEL_BASE < pos
        invariant blocks[k..] == Split(if k == 0 then from else pos, end)
        invariant k > 0 || pos == start
        invariant slotCur == old(slotCur) + Min(k, room) && caps == old(caps) + blocks[..Min(k, room)]
        decreases end - pos
      {
        if !device && pos == KERNEL_BASE {
          pos := pos + PAGE;
        }
        SplitFirst(pos, end);
        CoarseStep(pos, end);
        ghost var bits := NextBits(pos, end);
        var sizeBits, alignBits := FloorLog(end - pos), Ctz(pos);
        if alignBits < sizeBits {
          sizeBits := alignBits;
        }
        assert sizeBits == bits by {
          NextIs(pos, end);
        }
        assert sizeBits >= WORD_BITS / 8;
        NextOf(blocks, k, Block(pos, sizeBits), Split(pos + Bit(bits), end));
        var provided := ProvideUntypedCap(Block(pos, sizeBits), first);
        if !provided {
          return false;
        }
        pos := pos + Bit(sizeBits);
        k := k + 1;
      }
      SplitNone(end);
      return true;
    }
  }

  lemma NextIs(start: nat, end: nat)
    requires 0 < start < end
    ensures NextBits(start, end) == Min(Ctz(start), FloorLog(end - start))
  {
  }

  lemma NextOf(s: seq<Block>, k: nat, b: Block, rest: seq<Block>)
    requires k <= |s| && s[k..] == [b] + rest
    ensures k < |s| && s[k] == b && s[k + 1..] == rest && s[..k + 1] == s[..k] + [b]
  {
    assert s[k..][0] == b;
    assert s[k + 1..] == s[k..][1..];
  }
}
