/**
 The size of the profiler's table is prime, as its correctness needs (kernel/include/machine/profiler.h).
 */
module TableSize {
  import opened Arithmetic

  /** MAX_UNIQUE_INSTRUCTIONS */
  const TABLE_SIZE := 94349

  /** None of the odd numbers d, d + 2, .., d + 32 divides n. */
  predicate Sieved(n: nat, d: nat)
    requires d > 0
  {
    && n % d != 0 && n % (d + 2) != 0 && n % (d + 4) != 0 && n % (d + 6) != 0 && n % (d + 8) != 0
    && n % (d + 10) != 0 && n % (d + 12) != 0 && n % (d + 14) != 0 && n % (d + 16) != 0 && n % (d + 18) != 0
    && n % (d + 20) != 0 && n % (d + 22) != 0 && n % (d + 24) != 0 && n % (d + 26) != 0 && n % (d + 28) != 0
    && n % (d + 30) != 0 && n % (d + 32) != 0
  }

  lemma NotSieved(n: nat, d: nat, i: nat)
    requires d > 0 && Sieved(n, d) && i < 17
    ensures n % (d + 2 * i) != 0
  {
  }

  lemma SievedTableSize(k: nat)
    requires k < 9
    ensures Sieved(TABLE_SIZE, 3 + 34 * k)
  {
    assert k == 0 || k == 1 || k == 2 || k == 3 || k == 4 || k == 5 || k == 6 || k == 7 || k == 8;
  }

  /** Trial division up to the square root. */
  lemma NoSmallDivisor(d: nat)
    requires 2 <= d < 309
    ensures TABLE_SIZE % d != 0
  {
    hide Sieved;
    if d % 2 == 1 {
      var k := (d - 3) / 34;
      SievedTableSize(k);
      NotSieved(TABLE_SIZE, 3 + 34 * k, (d - 3 - 34 * k) / 2);
      assert 3 + 34 * k + 2 * ((d - 3 - 34 * k) / 2) == d;
    } else {
      NoEvenDivisor(d / 2);
    }
  }

  lemma NoEvenDivisor(h: nat)
    requires h > 0
    ensures TABLE_SIZE % (2 * h) != 0
  {
    assert TABLE_SIZE == (2 * h) * (TABLE_SIZE / (2 * h)) + TABLE_SIZE % (2 * h);
    assert (2 * h) * (TABLE_SIZE / (2 * h)) == 2 * (h * (TABLE_SIZE / (2 * h)));
  }

  lemma IsPrime(d: nat)
    requires 2 <= d < TABLE_SIZE
    ensures TABLE_SIZE % d != 0
  {
    if d < 309 {
      NoSmallDivisor(d);
    } else if TABLE_SIZE % d == 0 {
      SmallCofactor(TABLE_SIZE, TABLE_SIZE / d, d);
      NoSmallDivisor(TABLE_SIZE / d);
    }
  }

  lemma SmallCofactor(n: nat, e: nat, d: nat)
    requires e * d == n && 309 <= d < n < 309 * 309
    ensures 2 <= e < 309 && n % e == 0
  {
    assert e != 0 && e != 1;
    assert e >= 309 ==> e * d >= 309 * d;
    NoRemainder(n, e, d);
  }
}

/**
 The in-kernel profiler's table of sampled program counters (kernel/src/machine/profiler.c): open
 addressing with double hashing, without deletion.
 */
module Profiler {
  import opened Collections
  import opened TableSize

  /** hashVal and the limit on entries. */
  const HASH_VAL := 1024
  const MAX_ENTRIES := (TABLE_SIZE / 4) * 3

  datatype Entry = Entry(pc: nat, count: nat)

  /** The two hashes of a sample. */
  function Hash(pc: nat): nat {
    (pc / 4) % TABLE_SIZE
  }

  function Step(pc: nat): nat {
    (pc / 4) % HASH_VAL + 1
  }

  /** The slot looked at after `k` steps. */
  function Probe(pc: nat, k: nat): (slot: nat)
    ensures slot < TABLE_SIZE
  {
    (Hash(pc) + k * Step(pc)) % TABLE_SIZE
  }

  // A probe sequence does not repeat before it has visited the whole table

  /** Euclid's lemma for the table size. */
  lemma {:induction false} NotAMultiple(h: nat, d: nat, m: nat)
    requires 1 <= h < TABLE_SIZE && 0 < d < TABLE_SIZE
    ensures h * d != TABLE_SIZE * m
    decreases h
  {
    if h == 1 {
      if m >= 1 {
        assert TABLE_SIZE * m >= TABLE_SIZE;
      }
    } else if h * d == TABLE_SIZE * m {
      var q, r := TABLE_SIZE / h, TABLE_SIZE % h;
      IsPrime(h);
      assert q * h + r == TABLE_SIZE;
      calc {
        r * d;
        (TABLE_SIZE - q * h) * d;
        TABLE_SIZE * d - q * (h * d);
        TABLE_SIZE * d - q * (TABLE_SIZE * m);
        TABLE_SIZE * (d - q * m);
      }
      assert d - q * m >= 0;
      NotAMultiple(r, d, d - q * m);
    }
  }

  lemma EqualRemainders(x: nat, y: nat)
    requires x <= y && x % TABLE_SIZE == y % TABLE_SIZE
    ensures y - x == TABLE_SIZE * (y / TABLE_SIZE - x / TABLE_SIZE) && y / TABLE_SIZE - x / TABLE_SIZE >= 0
  {
  }

  lemma StepRange(pc: nat)
    ensures 1 <= Step(pc) <= HASH_VAL
  {
  }

  lemma ProbesDiffer(pc: nat, a: nat, b: nat)
    requires a < b < TABLE_SIZE
    ensures Probe(pc, a) != Probe(pc, b)
  {
    hide Hash, Step;
    var h, s := Hash(pc), Step(pc);
    StepRange(pc);
    if Probe(pc, a) == Probe(pc, b) {
      var x, y := h + a * s, h + b * s;
      assert y - x == s * (b - a);
      assert s * (b - a) >= 0;
      EqualRemainders(x, y);
      NotAMultiple(s, b - a, y / TABLE_SIZE - x / TABLE_SIZE);
    }
  }

  /** The slots looked at in the first `k` probes. */
  ghost function Seen(pc: nat, k: nat): set<nat> {
    if k == 0 then {} else Seen(pc, k - 1) + {Probe(pc, k - 1)}
  }

  lemma {:induction false} SeenAre(pc: nat, k: nat, x: nat)
    requires x in Seen(pc, k)
    ensures exists j: nat :: j < k && Probe(pc, j) == x
  {
    if x in Seen(pc, k - 1) {
      SeenAre(pc, k - 1, x);
    }
  }

  lemma {:induction false} SeenCount(pc: nat, k: nat)
    requires k <= TABLE_SIZE
    ensures |Seen(pc, k)| == k
  {
    if k > 0 {
      SeenCount(pc, k - 1);
      if Probe(pc, k - 1) in Seen(pc, k - 1) {
        SeenAre(pc, k - 1, Probe(pc, k - 1));
        var j: nat :| j < k - 1 && Probe(pc, j) == Probe(pc, k - 1);
        ProbesDiffer(pc, j, k - 1);
      }
    }
  }

  // The table

  ghost function Used(s: seq<Entry>): set<nat> {
    set i | 0 <= i < |s| && s[i].pc != 0
  }

  /** A probe sequence for `pc` gets to slot `i` after `k` steps without meeting a free slot. */
  ghost predicate OnChain(s: seq<Entry>, pc: nat, k: nat, i: nat)
    requires |s| == TABLE_SIZE
  {
    Probe(pc, k) == i && forall j: nat :: j < k ==> s[Probe(pc, j)].pc != 0
  }

  ghost predicate Chained(s: seq<Entry>)
    requires |s| == TABLE_SIZE
  {
    forall i: nat :: i < |s| && s[i].pc != 0 ==> exists k: nat :: OnChain(s, s[i].pc, k, i)
  }

  /** No program counter has two slots. */
  ghost predicate OneSlotEach(s: seq<Entry>) {
    forall i, j :: 0 <= i < j < |s| && s[i].pc != 0 ==> s[i].pc != s[j].pc
  }

  /** The counts are those of the recorded samples. */
  ghost predicate Counted(s: seq<Entry>, recorded: multiset<nat>) {
    && (forall i :: 0 <= i < |s| && s[i].pc != 0 ==> s[i].count == recorded[s[i].pc] > 0)
    && (forall pc :: pc in recorded ==> pc != 0 && exists i :: 0 <= i < |s| && s[i].pc == pc)
  }

  /** The number of samples that profiler_list reports. */
  function Total(s: seq<Entry>): nat {
    if s == [] then 0
    else Total(s[..|s| - 1]) + if s[|s| - 1].pc != 0 then s[|s| - 1].count else 0
  }

  ghost predicate Table(s: seq<Entry>, recorded: multiset<nat>, num: nat) {
    && |s| == TABLE_SIZE && |Used(s)| == num <= MAX_ENTRIES
    && Chained(s) && OneSlotEach(s) && Counted(s, recorded) && Total(s) == |recorded|
  }

  /** Probes that met no free slot met different used ones: there are at most as many of them as entries. */
  lemma ProbesAreUsed(s: seq<Entry>, pc: nat, k: nat)
    requires |s| == TABLE_SIZE && k <= TABLE_SIZE
    requires forall j: nat :: j < k ==> s[Probe(pc, j)].pc != 0
    ensures k <= |Used(s)|
  {
    SeenCount(pc, k);
    forall x | x in Seen(pc, k)
      ensures x in Used(s)
    {
      SeenAre(pc, k, x);
    }
    SubsetSize(Seen(pc, k), Used(s));
  }

  /** A search that ends at a free slot shows that the program counter has no slot. */
  lemma NotInTable(s: seq<Entry>, pc: nat, k: nat, i: nat)
    requires |s| == TABLE_SIZE && Chained(s) && pc != 0 && i < |s|
    requires s[Probe(pc, k)].pc == 0
    requires forall j: nat :: j < k ==> s[Probe(pc, j)].pc != pc
    ensures s[i].pc != pc
  {
    forall m: nat
      ensures !(s[i].pc == pc && OnChain(s, pc, m, i))
    {
    }
  }

  lemma {:induction false} TotalAt(s: seq<Entry>, i: nat, e: Entry)
    requires i < |s|
    ensures Total(s[i := e]) == Total(s) - (if s[i].pc != 0 then s[i].count else 0) + (if e.pc != 0 then e.count else 0)
  {
    var n := |s| - 1;
    if i == n {
      assert s[i := e][..n] == s[..n];
    } else {
      TotalAt(s[..n], i, e);
      assert s[i := e][..n] == s[..n][i := e];
    }
  }

  /** A known program counter is counted once more. */
  lemma CountedAgain(s: seq<Entry>, recorded: multiset<nat>, num: nat, i: nat)
    requires Table(s, recorded, num) && i < |s| && s[i].pc != 0
    ensures Table(s[i := Entry(s[i].pc, s[i].count + 1)], recorded + multiset{s[i].pc}, num)
  {
    var e := Entry(s[i].pc, s[i].count + 1);
    var s' := s[i := e];
    TotalAt(s, i, e);
    assert Used(s') == Used(s);
    ChainsKept(s, s');
    SlotsKept(s, recorded, i);
  }

  lemma ChainsKept(s: seq<Entry>, s': seq<Entry>)
    requires |s| == TABLE_SIZE == |s'| && Chained(s)
    requires forall i :: 0 <= i < |s| ==> s'[i].pc == s[i].pc
    ensures Chained(s')
  {
    forall i: nat | i < |s'| && s'[i].pc != 0
      ensures exists k: nat :: OnChain(s', s'[i].pc, k, i)
    {
      var k: nat :| OnChain(s, s[i].pc, k, i);
      assert OnChain(s', s'[i].pc, k, i);
    }
  }

  lemma SlotsKept(s: seq<Entry>, recorded: multiset<nat>, i: nat)
    requires Counted(s, recorded) && OneSlotEach(s) && i < |s| && s[i].pc != 0
    ensures Counted(s[i := Entry(s[i].pc, s[i].count + 1)], recorded + multiset{s[i].pc})
  {
    var s' := s[i := Entry(s[i].pc, s[i].count + 1)];
    forall pc | pc in recorded + multiset{s[i].pc}
      ensures pc != 0 && exists j :: 0 <= j < |s'| && s'[j].pc == pc
    {
      assert s'[i].pc == s[i].pc;
      if pc in recorded {
        var j :| 0 <= j < |s| && s[j].pc == pc;
        assert s'[j].pc == pc;
      }
    }
  }

  /** A new program counter gets the free slot where its search ended. */
  lemma Claimed(s: seq<Entry>, recorded: multiset<nat>, num: nat, pc: nat, k: nat)
    requires Table(s, recorded, num) && num < MAX_ENTRIES && pc != 0
    requires s[Probe(pc, k)].pc == 0
    requires forall j: nat :: j < k ==> s[Probe(pc, j)].pc != pc && s[Probe(pc, j)].pc != 0
    ensures Table(s[Probe(pc, k) := Entry(pc, 1)], recorded + multiset{pc}, num + 1) && pc !in recorded
  {
    hide Chained, OnChain, Counted, Probe, Total;
    var i, e := Probe(pc, k), Entry(pc, 1);
    var s' := s[i := e];
    TotalAt(s, i, e);
    assert Used(s') == Used(s) + {i} && i !in Used(s);
    forall j | 0 <= j < |s|
      ensures s[j].pc != pc
    {
      NotInTable(s, pc, k, j);
    }
    ClaimedChains(s, pc, k);
    ClaimedCounts(s, recorded, pc, i);
  }

  lemma ClaimedChains(s: seq<Entry>, pc: nat, k: nat)
    requires |s| == TABLE_SIZE && Chained(s) && pc != 0
    requires forall j: nat :: j < k ==> s[Probe(pc, j)].pc != 0
    ensures Chained(s[Probe(pc, k) := Entry(pc, 1)])
  {
    var s' := s[Probe(pc, k) := Entry(pc, 1)];
    forall i: nat | i < |s'| && s'[i].pc != 0
      ensures exists m: nat :: OnChain(s', s'[i].pc, m, i)
    {
      if i == Probe(pc, k) {
        assert OnChain(s', pc, k, i);
      } else {
        var m: nat :| OnChain(s, s[i].pc, m, i);
        assert OnChain(s', s'[i].pc, m, i);
      }
    }
  }

  lemma ClaimedCounts(s: seq<Entry>, recorded: multiset<nat>, pc: nat, i: nat)
    requires Counted(s, recorded) && i < |s| && pc != 0 && s[i].pc == 0 && forall j :: 0 <= j < |s| ==> s[j].pc != pc
    ensures Counted(s[i := Entry(pc, 1)], recorded + multiset{pc}) && pc !in recorded
  {
    var s' := s[i := Entry(pc, 1)];
    forall p | p in recorded + multiset{pc}
      ensures p != 0 && exists j :: 0 <= j < |s'| && s'[j].pc == p
    {
      assert s'[i].pc == pc;
      if p in recorded {
        var j :| 0 <= j < |s| && s[j].pc == p;
        assert s'[j].pc == p;
      }
    }
  }

  /** The sampled zero program counter leaves a mark only in the count of a free slot. */
  lemma FreeSlotMarked(s: seq<Entry>, recorded: multiset<nat>, num: nat, i: nat, c: nat)
    requires Table(s, recorded, num) && i < |s| && s[i].pc == 0
    ensures Table(s[i := Entry(0, c)], recorded, num)
  {
    hide OnChain, Chained, Total;
    var s' := s[i := Entry(0, c)];
    TotalAt(s, i, Entry(0, c));
    assert Used(s') == Used(s);
    ChainsKept(s, s');
    forall pc | pc in recorded
      ensures pc != 0 && exists j :: 0 <= j < |s'| && s'[j].pc == pc
    {
      var j :| 0 <= j < |s| && s[j].pc == pc;
      assert s'[j].pc == pc;
    }
  }

  lemma TableFacts(s: seq<Entry>, recorded: multiset<nat>, num: nat)
    requires Table(s, recorded, num)
    ensures |s| == TABLE_SIZE && |Used(s)| == num < TABLE_SIZE
    ensures forall i :: 0 <= i < |s| && s[i].pc != 0 ==> s[i].pc in recorded
  {
  }

  lemma EmptyTable(s: seq<Entry>)
    requires |s| == TABLE_SIZE && forall i :: 0 <= i < |s| ==> s[i] == Entry(0, 0)
    ensures Table(s, multiset{}, 0)
  {
    assert Used(s) == {};
    NothingCounted(s);
  }

  lemma {:induction false} NothingCounted(s: seq<Entry>)
    requires forall i :: 0 <= i < |s| ==> s[i] == Entry(0, 0)
    ensures Total(s) == 0
  {
    if s != [] {
      NothingCounted(s[..|s| - 1]);
    }
  }

  lemma TableTotal(s: seq<Entry>, recorded: multiset<nat>, num: nat)
    requires Table(s, recorded, num)
    ensures Total(s) == |recorded|
  {
  }

  function NonZero(samples: seq<nat>): nat {
    if samples == [] then 0
    else NonZero(samples[..|samples| - 1]) + if samples[|samples| - 1] != 0 then 1 else 0
  }

  lemma NotRecorded(s: seq<Entry>, recorded: multiset<nat>, num: nat, pc: nat, k: nat)
    requires Table(s, recorded, num) && pc != 0 && s[Probe(pc, k)].pc == 0
    requires forall j: nat :: j < k ==> s[Probe(pc, j)].pc != pc
    ensures pc !in recorded
  {
    forall i | 0 <= i < |s|
      ensures s[i].pc != pc
    {
      NotInTable(s, pc, k, i);
    }
  }

  class Profiler {
    const entries: array<Entry>
    var enabled: bool
    var numEntries: nat
    var dropped: nat
    ghost var recorded: multiset<nat>

    ghost predicate Valid()
      reads this, entries
    {
      Table(entries[..], recorded, numEntries)
    }

    constructor ()
      ensures Valid() && fresh(entries) && recorded == multiset{} && dropped == 0 && !enabled
    {
      entries := new Entry[TABLE_SIZE](_ => Entry(0, 0));
      numEntries, dropped, recorded, enabled := 0, 0, multiset{}, false;
      new;
      EmptyTable(entries[..]);
    }

    /** profiler_reset */
    method Reset()
      requires Valid()
      modifies this, entries
      ensures Valid() && recorded == multiset{} && dropped == 0 && numEntries == 0 && enabled == old(enabled)
    {
      hide Table;
      TableFacts(entries[..], recorded, numEntries);
      for i := 0 to TABLE_SIZE
        invariant entries.Length == TABLE_SIZE && enabled == old(enabled)
        invariant forall j :: 0 <= j < i ==> entries[j] == Entry(0, 0)
      {
        entries[i] := Entry(0, 0);
      }
      numEntries, dropped, recorded := 0, 0, multiset{};
      EmptyTable(entries[..]);
    }

    /**
     profiler_record_sample. A sample is counted in the one slot of its program counter, or dropped
     when it is a new one and the table is full; a zero program counter is neither.
     */
    method RecordSample(pc: nat)
      requires Valid()
      modifies this, entries
      ensures Valid() && enabled == old(enabled)
      ensures !enabled || pc == 0 ==> recorded == old(recorded) && dropped == old(dropped)
      ensures enabled && pc != 0 && (pc in old(recorded) || old(numEntries) < MAX_ENTRIES) ==>
                recorded == old(recorded) + multiset{pc} && dropped == old(dropped)
      ensures enabled && pc != 0 && pc !in old(recorded) && old(numEntries) >= MAX_ENTRIES ==>
                recorded == old(recorded) && dropped == old(dropped) + 1
    {
      hide Table, Hash, Step, Probe;
      FirstProbe(pc);
      var hash, hash2 := Hash(pc), Step(pc);
      if !enabled {
        return;
      }
      ghost var s := entries[..];
      ghost var k: nat := 0;
      TableFacts(s, recorded, numEntries);
      while true
        invariant hash == Probe(pc, k) && k <= numEntries
        invariant forall j: nat :: j < k ==> s[Probe(pc, j)].pc != pc && s[Probe(pc, j)].pc != 0
        decreases numEntries - k
        modifies {}
      {
        if entries[hash].pc == pc {
          break;
        } else if entries[hash].pc == 0 {
          break;
        }
        ProbesAreUsed(s, pc, k + 1);
        NextProbe(pc, k);
        hash := (hash + hash2) % TABLE_SIZE;
        k := k + 1;
      }
      if entries[hash].pc == pc {
        Hit(pc, hash);
      } else {
        Miss(pc, hash, k);
      }
    }

    /**
     Any number of samples: what the list reports and what was dropped add up to the samples with a
     non-zero program counter.
     */
    method RecordAll(samples: seq<nat>)
      requires Valid() && enabled
      modifies this, entries
      ensures Valid() && enabled
      ensures Total(entries[..]) + dropped == old(Total(entries[..]) + dropped) + NonZero(samples)
    {
      hide Table, Total;
      TableTotal(entries[..], recorded, numEntries);
      for i := 0 to |samples|
        invariant Valid() && enabled
        invariant |recorded| + dropped == old(|recorded| + dropped) + NonZero(samples[..i])
      {
        assert samples[..i + 1][..i] == samples[..i];
        RecordSample(samples[i]);
      }
      assert samples[..|samples|] == samples;
      TableTotal(entries[..], recorded, numEntries);
    }

    /** The search found the sample's slot, or for a zero program counter the first free one. */
    method Hit(pc: nat, hash: nat)
      requires Valid() && hash < entries.Length && entries[hash].pc == pc
      modifies this, entries
      ensures Valid() && enabled == old(enabled) && numEntries == old(numEntries) && dropped == old(dropped)
      ensures recorded == (if pc == 0 then old(recorded) else old(recorded) + multiset{pc}) && (pc != 0 ==>
                pc in old(recorded))
    {
      hide Table;
      ghost var s := entries[..];
      TableFacts(s, recorded, numEntries);
      if pc == 0 {
        FreeSlotMarked(s, recorded, numEntries, hash, s[hash].count + 1);
      } else {
        CountedAgain(s, recorded, numEntries, hash);
        recorded := recorded + multiset{pc};
      }
      entries[hash] := Entry(pc, entries[hash].count + 1);
      assert entries[..] == s[hash := entries[hash]];
    }

    /** The search ended at a free slot. */
    method Miss(pc: nat, hash: nat, ghost k: nat)
      requires Valid() && pc != 0 && hash == Probe(pc, k) && hash < entries.Length && entries[hash].pc == 0
      requires entries.Length == TABLE_SIZE
      requires forall j: nat :: j < k ==> entries[..][Probe(pc, j)].pc != pc && entries[..][Probe(pc, j)].pc != 0
      modifies this, entries
      ensures Valid() && enabled == old(enabled) && pc !in old(recorded)
      ensures old(numEntries) < MAX_ENTRIES ==> recorded == old(recorded) + multiset{pc} && dropped == old(dropped)
      ensures old(numEntries) >= MAX_ENTRIES ==> recorded == old(recorded) && dropped == old(dropped) + 1
    {
      hide Table, Probe;
      ghost var s := entries[..];
      TableFacts(s, recorded, numEntries);
      NotRecorded(s, recorded, numEntries, pc, k);
      if numEntries < MAX_ENTRIES {
        Claimed(s, recorded, numEntries, pc, k);
        entries[hash] := Entry(pc, 1);
        numEntries := numEntries + 1;
        recorded := recorded + multiset{pc};
        assert entries[..] == s[hash := Entry(pc, 1)];
      } else {
        dropped := dropped + 1;
      }
    }
  }

  lemma FirstProbe(pc: nat)
    ensures Probe(pc, 0) == Hash(pc)
  {
  }

  lemma NextProbe(pc: nat, k: nat)
    ensures (Probe(pc, k) + Step(pc)) % TABLE_SIZE == Probe(pc, k + 1)
  {
    hide Hash, Step;
    var x, h := Hash(pc) + k * Step(pc), Step(pc);
    assert Hash(pc) + (k + 1) * h == x + h;
    AddRemainder(x, h);
  }

  lemma AddRemainder(x: nat, h: nat)
    ensures (x % TABLE_SIZE + h) % TABLE_SIZE == (x + h) % TABLE_SIZE
  {
  }
}
