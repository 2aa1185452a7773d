/**
 The message layout of the generated system call stubs (kernel/libsel4/tools/syscall_stub_gen.py).
 A parameter is its size in bits; a value is its bits, the least significant first, and may have more
 of them than the parameter's size (a C bool is a byte). The generated C expressions are modelled by
 the words they compute.
 */
module StubMarshal {
  import opened Arithmetic

  const WORD_SIZE_BITS := 32
  const MAX_MESSAGE_LENGTH := 32

  type Bits = seq<bool>

  /** The assertion in get_parameter_positions; a size of zero would then be divided by. */
  ghost predicate Accepted(size: nat) {
    size > 0 && ((exists k: nat :: size == Bit(k)) || size % WORD_SIZE_BITS == 0)
  }

  /** Accepted sizes divide a word or are whole words. */
  lemma AcceptedSizes(size: nat)
    requires Accepted(size)
    ensures size < WORD_SIZE_BITS ==> size in {1, 2, 4, 8, 16}
    ensures size >= WORD_SIZE_BITS ==> size % WORD_SIZE_BITS == 0
  {
    if size % WORD_SIZE_BITS != 0 {
      var k: nat :| size == Bit(k);
      assert Bit(1) == 2 && Bit(2) == 4 && Bit(3) == 8 && Bit(4) == 16 && Bit(5) == 32;
      if k >= 5 {
        BitSum(5, k - 5);
        NoRemainder(size, 32, Bit(k - 5));
      }
    }
  }

  /** align_up */
  function AlignUp(x: nat, a: nat): (r: nat)
    requires a > 0
    ensures x <= r < x + a && r % a == 0
  {
    if x % a == 0 then x
    else
      AlignedUp(x, a);
      x + a - x % a
  }

  lemma AlignedUp(x: nat, a: nat)
    requires a > 0
    ensures (x + a - x % a) % a == 0
  {
    assert x + a - x % a == a * (x / a + 1);
    NoRemainder(x + a - x % a, a, x / a + 1);
  }

  /** Where a parameter goes when `used` bits are taken. */
  function Place(used: nat, size: nat): nat
    requires size > 0
  {
    AlignUp(used, Min(size, WORD_SIZE_BITS))
  }

  ghost predicate AllAccepted(sizes: seq<nat>) {
    forall i :: 0 <= i < |sizes| ==> Accepted(sizes[i])
  }

  /** A layout: parameters in order, side by side, none across a word boundary, and no word left out. */
  ghost predicate Layout(sizes: seq<nat>, pos: seq<nat>) {
    && |pos| == |sizes|
    && (forall i, j :: 0 <= i < j < |sizes| ==> pos[i] + sizes[i] <= pos[j])
    && (forall i :: 0 <= i < |sizes| ==> InWords(pos[i], sizes[i]))
    && (forall w :: 0 <= w < WordsUsed(sizes, pos) ==> WordIsUsed(sizes, pos, w))
  }

  /** A value smaller than a word is inside one; a larger one starts on a boundary and fills its words. */
  predicate InWords(p: nat, size: nat) {
    if size < WORD_SIZE_BITS then size > 0 && p % WORD_SIZE_BITS + size <= WORD_SIZE_BITS
    else p % WORD_SIZE_BITS == 0 && size % WORD_SIZE_BITS == 0
  }

  function EndOf(sizes: seq<nat>, pos: seq<nat>): nat
    requires |pos| == |sizes|
  {
    if sizes == [] then 0 else pos[|pos| - 1] + sizes[|sizes| - 1]
  }

  function WordsUsed(sizes: seq<nat>, pos: seq<nat>): nat
    requires |pos| == |sizes|
  {
    (EndOf(sizes, pos) + WORD_SIZE_BITS - 1) / WORD_SIZE_BITS
  }

  ghost predicate Touches(p: nat, size: nat, w: nat) {
    p / WORD_SIZE_BITS <= w < (p + size + WORD_SIZE_BITS - 1) / WORD_SIZE_BITS
  }

  ghost predicate WordIsUsed(sizes: seq<nat>, pos: seq<nat>, w: nat)
    requires |pos| == |sizes|
  {
    exists i :: 0 <= i < |sizes| && Touches(pos[i], sizes[i], w)
  }

  /**
   The next parameter is placed after the others, in its own words, and starts no later than the next
   unused word.
   */
  lemma PlaceFits(used: nat, size: nat)
    requires Accepted(size)
    ensures used <= Place(used, size) && InWords(Place(used, size), size)
    ensures Place(used, size) / WORD_SIZE_BITS <= (used + WORD_SIZE_BITS - 1) / WORD_SIZE_BITS
  {
    AcceptedSizes(size);
    var p := Place(used, size);
    if size < WORD_SIZE_BITS {
      SmallInWord(p, size);
      SmallPlace(used, size, p);
    }
  }

  lemma SmallInWord(p: nat, size: nat)
    requires size in {1, 2, 4, 8, 16} && p % size == 0
    ensures p % WORD_SIZE_BITS + size <= WORD_SIZE_BITS
  {
  }

  lemma SmallPlace(used: nat, size: nat, p: nat)
    requires size in {1, 2, 4, 8, 16} && p % size == 0 && used <= p < used + size
    ensures p / WORD_SIZE_BITS <= (used + WORD_SIZE_BITS - 1) / WORD_SIZE_BITS
  {
  }

  lemma LayoutGrows(sizes: seq<nat>, pos: seq<nat>, size: nat)
    requires Layout(sizes, pos) && Accepted(size)
    ensures Layout(sizes + [size], pos + [Place(EndOf(sizes, pos), size)])
  {
    var used := EndOf(sizes, pos);
    var p := Place(used, size);
    var sizes', pos' := sizes + [size], pos + [p];
    PlaceFits(used, size);
    forall i | 0 <= i < |sizes|
      ensures pos'[i] + sizes'[i] <= p
    {
      assert i < |sizes| - 1 ==> pos[i] + sizes[i] <= pos[|pos| - 1];
    }
    forall w | 0 <= w < WordsUsed(sizes', pos')
      ensures WordIsUsed(sizes', pos', w)
    {
      if w < WordsUsed(sizes, pos) {
        assert WordIsUsed(sizes, pos, w);
        var i :| 0 <= i < |sizes| && Touches(pos[i], sizes[i], w);
        assert Touches(pos'[i], sizes'[i], w);
      } else {
        assert Touches(pos'[|pos|], sizes'[|pos|], w);
      }
    }
  }

  /**
   The tightest packing of aligned parameters: each is at the least multiple of its alignment, which is its
   size up to a word, that is not below the end of the one before.
   */
  ghost predicate Tight(sizes: seq<nat>, pos: seq<nat>) {
    && |pos| == |sizes| && (pos != [] ==> pos[0] == 0)
    && (forall i :: 0 <= i < |pos| ==> sizes[i] > 0 && pos[i] % Min(sizes[i], 32) == 0)
    && (forall i :: 0 <= i < |pos| - 1 ==>
                      pos[i] + sizes[i] <= pos[i + 1] < pos[i] + sizes[i] + Min(sizes[i + 1], 32))
  }

  lemma TightGrows(sizes: seq<nat>, pos: seq<nat>, size: nat)
    requires Tight(sizes, pos) && size > 0
    ensures Tight(sizes + [size], pos + [Place(EndOf(sizes, pos), size)])
  {
  }

  lemma TightPrefix(sizes: seq<nat>, pos: seq<nat>, n: nat)
    requires Tight(sizes, pos) && n <= |sizes|
    ensures Tight(sizes[..n], pos[..n])
  {
  }

  lemma TightNext(sizes: seq<nat>, pos: seq<nat>, pos': seq<nat>, n: nat)
    requires Tight(sizes, pos) && Tight(sizes, pos') && n < |sizes| && pos[..n] == pos'[..n]
    ensures pos[n] == pos'[n]
  {
    if n > 0 {
      assert pos[n - 1] == pos[..n][n - 1] == pos'[n - 1];
      assert pos[n - 1 + 1] == pos[n] && pos'[n - 1 + 1] == pos'[n];
      OneMultiple(pos[n], pos'[n], Min(sizes[n], 32));
    }
  }

  /** There is only one. */
  lemma {:induction false} TightIsUnique(sizes: seq<nat>, pos: seq<nat>, pos': seq<nat>)
    requires Tight(sizes, pos) && Tight(sizes, pos')
    ensures pos == pos'
  {
    if sizes != [] {
      var n := |sizes| - 1;
      TightPrefix(sizes, pos, n);
      TightPrefix(sizes, pos', n);
      TightIsUnique(sizes[..n], pos[..n], pos'[..n]);
      TightNext(sizes, pos, pos', n);
      hide Tight;
      assert pos == pos[..n] + [pos[n]] && pos' == pos'[..n] + [pos'[n]];
    }
  }

  lemma OneMultiple(x: nat, y: nat, a: nat)
    requires a > 0 && x % a == 0 && y % a == 0 && x < y + a && y < x + a
    ensures x == y
  {
    if x < y { AlignedApart(x, y, a); }
    if y < x { AlignedApart(y, x, a); }
  }

  function Positions(sizes: seq<nat>): (pos: seq<nat>)
    requires forall i :: 0 <= i < |sizes| ==> sizes[i] > 0
    ensures |pos| == |sizes|
  {
    if sizes == [] then []
    else
      var init, n := sizes[..|sizes| - 1], |sizes| - 1;
      Positions(init) + [Place(EndOf(init, Positions(init)), sizes[n])]
  }

  lemma {:induction false} PositionsLayout(sizes: seq<nat>)
    requires AllAccepted(sizes)
    ensures Layout(sizes, Positions(sizes)) && Tight(sizes, Positions(sizes))
  {
    if sizes != [] {
      hide Layout, Tight;
      var init, n := sizes[..|sizes| - 1], |sizes| - 1;
      PositionsLayout(init);
      LayoutGrows(init, Positions(init), sizes[n]);
      TightGrows(init, Positions(init), sizes[n]);
      assert sizes == init + [sizes[n]];
    }
  }

  /** get_parameter_positions */
  method GetParameterPositions(sizes: seq<nat>) returns (pos: seq<nat>)
    requires AllAccepted(sizes)
    ensures pos == Positions(sizes) && Layout(sizes, pos) && Tight(sizes, pos)
  {
    hide Layout, Tight;
    PositionsLayout(sizes);
    var used := 0;
    pos := [];
    for i := 0 to |sizes|
      invariant pos == Positions(sizes[..i]) && used == EndOf(sizes[..i], pos)
    {
      assert sizes[..i + 1][..i] == sizes[..i];
      used := Place(used, sizes[i]);
      pos := pos + [used];
      used := used + sizes[i];
    }
    assert sizes[..|sizes|] == sizes;
  }

  // Words

  type Word = w: Bits | |w| == WORD_SIZE_BITS witness seq(WORD_SIZE_BITS, _ => false)

  /** ((v & ((1 << size) - 1)) << offset) */
  function Packed(v: Bits, size: nat, offset: nat): Word
    requires size <= |v| && offset + size <= WORD_SIZE_BITS
  {
    seq(WORD_SIZE_BITS, j => offset <= j < offset + size && v[j - offset])
  }

  /** Word `x` of a value. */
  function WordOf(v: Bits, x: nat): Word
    requires WORD_SIZE_BITS * (x + 1) <= |v|
  {
    v[WORD_SIZE_BITS * x..WORD_SIZE_BITS * (x + 1)]
  }

  /** Bit `j` of the bitwise or of a list of words. */
  predicate OrBit(list: seq<Word>, j: nat)
    requires j < WORD_SIZE_BITS
  {
    exists k :: 0 <= k < |list| && list[k][j]
  }

  lemma OrBitAppend(list: seq<Word>, w: Word, j: nat)
    requires j < WORD_SIZE_BITS
    ensures OrBit(list + [w], j) <==> OrBit(list, j) || w[j]
  {
    if w[j] {
      assert (list + [w])[|list|][j];
    }
    if OrBit(list, j) {
      var k :| 0 <= k < |list| && list[k][j];
      assert (list + [w])[k][j];
    }
  }

  /** The bit of a value at bit `b` of the message, when the value is placed at `p`. */
  predicate Covers(p: nat, size: nat, v: Bits, b: nat)
    requires size <= |v|
  {
    p <= b < p + size && v[b - p]
  }

  /**
   The list of a word after a parameter has been added: the bits of the parameter are set in it, and
   no others.
   */
  ghost predicate Added(list: seq<Word>, list': seq<Word>, w: nat, p: nat, size: nat, v: Bits)
    requires size <= |v|
  {
    && (list' != [] <==> list != [] || Touches(p, size, w))
    && forall j: nat :: j < WORD_SIZE_BITS ==>
          (OrBit(list', j) <==> OrBit(list, j) || Covers(p, size, v, WORD_SIZE_BITS * w + j))
  }

  lemma AddedElsewhere(list: seq<Word>, w: nat, p: nat, size: nat, v: Bits)
    requires size <= |v| && InWords(p, size) && !Touches(p, size, w)
    ensures Added(list, list, w, p, size, v)
  {
  }

  lemma AddedPart(list: seq<Word>, p: nat, size: nat, v: Bits)
    requires 0 < size < WORD_SIZE_BITS && size <= |v| && InWords(p, size)
    ensures Added(list, list + [Packed(v, size, p % WORD_SIZE_BITS)], p / WORD_SIZE_BITS, p, size, v)
  {
    var e, w := Packed(v, size, p % WORD_SIZE_BITS), p / WORD_SIZE_BITS;
    forall j: nat | j < WORD_SIZE_BITS
      ensures OrBit(list + [e], j) <==> OrBit(list, j) || Covers(p, size, v, WORD_SIZE_BITS * w + j)
    {
      OrBitAppend(list, e, j);
    }
  }

  lemma AddedWord(list: seq<Word>, p: nat, size: nat, v: Bits, x: nat)
    requires size <= |v| && size >= WORD_SIZE_BITS && InWords(p, size) && x < size / WORD_SIZE_BITS
    ensures WORD_SIZE_BITS * (x + 1) <= |v|
    ensures Added(list, list + [WordOf(v, x)], p / WORD_SIZE_BITS + x, p, size, v)
  {
    var e, w := WordOf(v, x), p / WORD_SIZE_BITS + x;
    forall j: nat | j < WORD_SIZE_BITS
      ensures OrBit(list + [e], j) <==> OrBit(list, j) || Covers(p, size, v, WORD_SIZE_BITS * w + j)
    {
      OrBitAppend(list, e, j);
    }
  }

  /** generate_param_code: the parameter's words are added to the lists of the message's words. */
  method GenerateParamCode(p: nat, size: nat, v: Bits, words: seq<seq<Word>>) returns (words': seq<seq<Word>>)
    requires size > 0 && size <= |v| && InWords(p, size) && (p + size + WORD_SIZE_BITS - 1) / WORD_SIZE_BITS <= |words|
    ensures |words'| == |words|
    ensures forall w :: 0 <= w < |words| ==> Added(words[w], words'[w], w, p, size, v)
  {
    hide Added;
    var target, offset := p / WORD_SIZE_BITS, p % WORD_SIZE_BITS;
    forall w | 0 <= w < |words| && !Touches(p, size, w)
      ensures Added(words[w], words[w], w, p, size, v)
    {
      AddedElsewhere(words[w], w, p, size, v);
    }
    if size == WORD_SIZE_BITS {
      AddedWord(words[target], p, size, v, 0);
      words' := words[target := words[target] + [WordOf(v, 0)]];
    } else if size < WORD_SIZE_BITS {
      AddedPart(words[target], p, size, v);
      words' := words[target := words[target] + [Packed(v, size, offset)]];
    } else {
      words' := words;
      for x := 0 to size / WORD_SIZE_BITS
        invariant |words'| == |words|
        invariant forall w :: 0 <= w < |words| && !(target <= w < target + x) ==> words'[w] == words[w]
        invariant forall w :: target <= w < target + x && w < |words| ==> Added(words[w], words'[w], w, p, size, v)
      {
        AddedWord(words[target + x], p, size, v, x);
        words' := words'[target + x := words'[target + x] + [WordOf(v, x)]];
      }
    }
  }

  // The message

  ghost predicate Values(sizes: seq<nat>, values: seq<Bits>) {
    |values| == |sizes| && forall i :: 0 <= i < |sizes| ==> sizes[i] <= |values[i]|
  }

  /** One of the first `n` parameters sets bit `b` of the message. */
  ghost predicate SetBit(sizes: seq<nat>, pos: seq<nat>, values: seq<Bits>, n: nat, b: nat)
    requires |pos| == |sizes| && Values(sizes, values) && n <= |sizes|
  {
    exists i :: 0 <= i < n && Covers(pos[i], sizes[i], values[i], b)
  }

  ghost predicate TouchedBy(sizes: seq<nat>, pos: seq<nat>, n: nat, w: nat)
    requires |pos| == |sizes| && n <= |sizes|
  {
    exists i :: 0 <= i < n && Touches(pos[i], sizes[i], w)
  }

  /** The list of word `w` after `n` parameters. */
  ghost predicate Filled(list: seq<Word>, w: nat, sizes: seq<nat>, pos: seq<nat>, values: seq<Bits>, n: nat)
    requires |pos| == |sizes| && Values(sizes, values) && n <= |sizes|
  {
    && (list != [] <==> TouchedBy(sizes, pos, n, w))
    && forall j: nat :: j < WORD_SIZE_BITS ==>
          (OrBit(list, j) <==> SetBit(sizes, pos, values, n, WORD_SIZE_BITS * w + j))
  }

  lemma FilledNext(list: seq<Word>, list': seq<Word>, w: nat, sizes: seq<nat>, pos: seq<nat>, values: seq<Bits>, n: nat)
    requires |pos| == |sizes| && Values(sizes, values) && n < |sizes|
    requires Filled(list, w, sizes, pos, values, n) && Added(list, list', w, pos[n], sizes[n], values[n])
    ensures Filled(list', w, sizes, pos, values, n + 1)
  {
    hide OrBit, Covers, Touches;
    assert TouchedBy(sizes, pos, n + 1, w) <==> TouchedBy(sizes, pos, n, w) || Touches(pos[n], sizes[n], w) by {
      if TouchedBy(sizes, pos, n, w) {
        var i :| 0 <= i < n && Touches(pos[i], sizes[i], w);
      }
    }
    forall j: nat | j < WORD_SIZE_BITS
      ensures OrBit(list', j) <==> SetBit(sizes, pos, values, n + 1, WORD_SIZE_BITS * w + j)
    {
      SetBitNext(sizes, pos, values, n, WORD_SIZE_BITS * w + j);
    }
  }

  lemma SetBitNext(sizes: seq<nat>, pos: seq<nat>, values: seq<Bits>, n: nat, b: nat)
    requires |pos| == |sizes| && Values(sizes, values) && n < |sizes|
    ensures SetBit(sizes, pos, values, n + 1, b) <==>
              SetBit(sizes, pos, values, n, b) || Covers(pos[n], sizes[n], values[n], b)
  {
    if SetBit(sizes, pos, values, n, b) {
      var i :| 0 <= i < n && Covers(pos[i], sizes[i], values[i], b);
    }
  }

  function Or(list: seq<Word>): Word {
    seq(WORD_SIZE_BITS, j requires 0 <= j < WORD_SIZE_BITS => OrBit(list, j))
  }

  datatype Marshalled = Words(words: seq<Word>) | IndexError

  /** The last word of a parameter, against the words the whole list needs. */
  lemma EndsWithin(sizes: seq<nat>, pos: seq<nat>, i: nat)
    requires Layout(sizes, pos) && i < |sizes|
    ensures (pos[i] + sizes[i] + WORD_SIZE_BITS - 1) / WORD_SIZE_BITS <= WordsUsed(sizes, pos)
  {
    assert i < |sizes| - 1 ==> pos[i] + sizes[i] <= pos[|pos| - 1];
  }

  /** Exactly the words up to the last one used get something. */
  lemma WordsInUse(sizes: seq<nat>, pos: seq<nat>, w: nat)
    requires Layout(sizes, pos)
    ensures TouchedBy(sizes, pos, |sizes|, w) <==> w < WordsUsed(sizes, pos)
  {
    if TouchedBy(sizes, pos, |sizes|, w) {
      var i :| 0 <= i < |sizes| && Touches(pos[i], sizes[i], w);
      EndsWithin(sizes, pos, i);
    }
    assert w < WordsUsed(sizes, pos) ==> WordIsUsed(sizes, pos, w);
  }

  lemma FilledNone(w: nat, sizes: seq<nat>, pos: seq<nat>, values: seq<Bits>)
    requires |pos| == |sizes| && Values(sizes, values)
    ensures Filled([], w, sizes, pos, values, 0)
  {
  }

  /** A list that does not fit has a last parameter that does not fit. */
  lemma LastWord(sizes: seq<nat>, pos: seq<nat>)
    requires Layout(sizes, pos)
    ensures sizes == [] ==> WordsUsed(sizes, pos) == 0
    ensures sizes != [] ==>
              WordsUsed(sizes, pos) == (pos[|pos| - 1] + sizes[|pos| - 1] + WORD_SIZE_BITS - 1) / WORD_SIZE_BITS
  {
  }

  /** The loop that fills the lists; an index outside them is an error. */
  method FillWords(sizes: seq<nat>, pos: seq<nat>, values: seq<Bits>, n: nat) returns (ok: bool, words: seq<seq<Word>>)
    requires Layout(sizes, pos) && Values(sizes, values)
    ensures ok <==> WordsUsed(sizes, pos) <= n
    ensures ok ==> |words| == n && forall w :: 0 <= w < n ==> Filled(words[w], w, sizes, pos, values, |sizes|)
  {
    hide Added, Filled, WordsUsed;
    LastWord(sizes, pos);
    words := seq(n, _ => []);
    forall w | 0 <= w < n
      ensures Filled(words[w], w, sizes, pos, values, 0)
    {
      FilledNone(w, sizes, pos, values);
    }
    for i := 0 to |sizes|
      invariant |words| == n
      invariant forall w :: 0 <= w < n ==> Filled(words[w], w, sizes, pos, values, i)
      invariant i == |sizes| ==> WordsUsed(sizes, pos) <= n
    {
      EndsWithin(sizes, pos, i);
      if (pos[i] + sizes[i] + WORD_SIZE_BITS - 1) / WORD_SIZE_BITS > n {
        return false, words;
      }
      ghost var before := words;
      words := GenerateParamCode(pos[i], sizes[i], values[i], words);
      forall w | 0 <= w < n
        ensures Filled(words[w], w, sizes, pos, values, i + 1)
      {
        FilledNext(before[w], words[w], w, sizes, pos, values, i);
      }
    }
    return true, words;
  }

  /** The bitwise ors of the lists that are not empty. */
  method Collect(lists: seq<seq<Word>>, ghost used: nat) returns (words: seq<Word>)
    requires used <= |lists| && forall w :: 0 <= w < |lists| ==> (lists[w] != [] <==> w < used)
    ensures |words| == used && forall w :: 0 <= w < used ==> words[w] == Or(lists[w])
  {
    words := [];
    for i := 0 to |lists|
      invariant |words| == (if i < used then i else used)
      invariant forall w :: 0 <= w < |words| ==> words[w] == Or(lists[w])
    {
      if |lists[i]| > 0 {
        words := words + [Or(lists[i])];
      }
    }
  }

  lemma FilledBit(list: seq<Word>, w: nat, sizes: seq<nat>, pos: seq<nat>, values: seq<Bits>, b: nat)
    requires |pos| == |sizes| && Values(sizes, values)
    requires Filled(list, w, sizes, pos, values, |sizes|) && w == b / WORD_SIZE_BITS
    ensures Or(list)[b % WORD_SIZE_BITS] <==> SetBit(sizes, pos, values, |sizes|, b)
  {
    hide OrBit, SetBit;
    assert b == WORD_SIZE_BITS * w + b % WORD_SIZE_BITS;
  }

  lemma FilledUse(list: seq<Word>, w: nat, sizes: seq<nat>, pos: seq<nat>, values: seq<Bits>)
    requires Layout(sizes, pos) && Values(sizes, values) && Filled(list, w, sizes, pos, values, |sizes|)
    ensures list != [] <==> w < WordsUsed(sizes, pos)
  {
    hide Layout;
    WordsInUse(sizes, pos, w);
  }

  /**
   generate_marshal_expressions, for the values of the parameters: bit b of the message is set by the
   parameter that covers it. Dropping the empty words moves no word.
   */
  method Marshal(sizes: seq<nat>, values: seq<Bits>, numMrs: nat) returns (r: Marshalled)
    requires AllAccepted(sizes) && Values(sizes, values) && numMrs <= MAX_MESSAGE_LENGTH
    ensures r == IndexError <==> WordsUsed(sizes, Positions(sizes)) > MAX_MESSAGE_LENGTH - numMrs
    ensures r.Words? ==> |r.words| == WordsUsed(sizes, Positions(sizes))
    ensures r.Words? ==> forall b :: 0 <= b < WORD_SIZE_BITS * |r.words| ==>
                           (r.words[b / WORD_SIZE_BITS][b % WORD_SIZE_BITS] <==>
                               SetBit(sizes, Positions(sizes), values, |sizes|, b))
  {
    hide Filled, WordsUsed, Layout, Tight, Positions, Or, SetBit;
    var pos := GetParameterPositions(sizes);
    var ok, lists := FillWords(sizes, pos, values, MAX_MESSAGE_LENGTH - numMrs);
    if !ok {
      return IndexError;
    }
    forall w | 0 <= w < |lists|
      ensures lists[w] != [] <==> w < WordsUsed(sizes, pos)
    {
      FilledUse(lists[w], w, sizes, pos, values);
    }
    var words := Collect(lists, WordsUsed(sizes, pos));
    forall b | 0 <= b < WORD_SIZE_BITS * |words|
      ensures words[b / WORD_SIZE_BITS][b % WORD_SIZE_BITS] <==> SetBit(sizes, pos, values, |sizes|, b)
    {
      FilledBit(lists[b / WORD_SIZE_BITS], b / WORD_SIZE_BITS, sizes, pos, values, b);
    }
    return Words(words);
  }

  /** unmarshal_single_param, for the words of a message. */
  method UnmarshalSingleParam(p: nat, size: nat, msg: seq<Word>) returns (v: Bits)
    requires size > 0 && InWords(p, size) && (p + size + WORD_SIZE_BITS - 1) / WORD_SIZE_BITS <= |msg|
    ensures |v| == size
    ensures forall b :: 0 <= b < size ==> v[b] == msg[(p + b) / WORD_SIZE_BITS][(p + b) % WORD_SIZE_BITS]
  {
    var first, offset := p / WORD_SIZE_BITS, p % WORD_SIZE_BITS;
    if size > WORD_SIZE_BITS {
      v := [];
      for x := 0 to size / WORD_SIZE_BITS
        invariant |v| == WORD_SIZE_BITS * x
        invariant forall b :: 0 <= b < |v| ==> v[b] == msg[(p + b) / WORD_SIZE_BITS][(p + b) % WORD_SIZE_BITS]
      {
        v := v + msg[x + first];
      }
    } else if size == WORD_SIZE_BITS {
      v := msg[first];
    } else {
      v := msg[first][offset..offset + size];
    }
  }

  /** generate_unmarshal_expressions */
  method Unmarshal(sizes: seq<nat>, msg: seq<Word>) returns (values: seq<Bits>)
    requires AllAccepted(sizes) && WordsUsed(sizes, Positions(sizes)) <= |msg|
    ensures |values| == |sizes|
    ensures forall i :: 0 <= i < |sizes| ==> |values[i]| == sizes[i]
    ensures forall i, b :: 0 <= i < |sizes| && 0 <= b < sizes[i] ==>
              var at := Positions(sizes)[i] + b;
              at / WORD_SIZE_BITS < |msg| && values[i][b] == msg[at / WORD_SIZE_BITS][at % WORD_SIZE_BITS]
  {
    hide WordsUsed, Tight, Positions;
    var pos := GetParameterPositions(sizes);
    values := [];
    for i := 0 to |sizes|
      invariant |values| == i
      invariant forall k :: 0 <= k < i ==> |values[k]| == sizes[k]
      invariant forall k, b :: 0 <= k < i && 0 <= b < sizes[k] ==>
                  var at := pos[k] + b;
                  at / WORD_SIZE_BITS < |msg| && values[k][b] == msg[at / WORD_SIZE_BITS][at % WORD_SIZE_BITS]
    {
      EndsWithin(sizes, pos, i);
      var v := UnmarshalSingleParam(pos[i], sizes[i], msg);
      values := values + [v];
    }
  }

  lemma OnlyOne(sizes: seq<nat>, pos: seq<nat>, i: nat, k: nat, b: nat)
    requires Layout(sizes, pos) && i < |sizes| && k < |sizes|
    requires pos[i] <= b < pos[i] + sizes[i] && pos[k] <= b < pos[k] + sizes[k]
    ensures i == k
  {
  }

  /** The bits of a parameter are its own: no other parameter reaches them. */
  lemma OwnBit(sizes: seq<nat>, pos: seq<nat>, values: seq<Bits>, i: nat, b: nat)
    requires Layout(sizes, pos) && Values(sizes, values) && i < |sizes| && b < sizes[i]
    ensures SetBit(sizes, pos, values, |sizes|, pos[i] + b) <==> values[i][b]
  {
    if values[i][b] {
      assert Covers(pos[i], sizes[i], values[i], pos[i] + b);
    }
    if SetBit(sizes, pos, values, |sizes|, pos[i] + b) {
      var k :| 0 <= k < |sizes| && Covers(pos[k], sizes[k], values[k], pos[i] + b);
      OnlyOne(sizes, pos, i, k, pos[i] + b);
    }
  }

  /** What one side marshals the other side unmarshals: every parameter comes back, cut to its size. */
  method RoundTrip(sizes: seq<nat>, values: seq<Bits>, numMrs: nat) returns (back: seq<Bits>)
    requires AllAccepted(sizes) && Values(sizes, values) && numMrs <= MAX_MESSAGE_LENGTH
    requires WordsUsed(sizes, Positions(sizes)) <= MAX_MESSAGE_LENGTH - numMrs
    ensures |back| == |sizes| && forall i :: 0 <= i < |sizes| ==> back[i] == values[i][..sizes[i]]
  {
    hide WordsUsed, Positions, Layout, SetBit;
    var r := Marshal(sizes, values, numMrs);
    back := Unmarshal(sizes, r.words);
    PositionsLayout(sizes);
    forall i, b | 0 <= i < |sizes| && 0 <= b < sizes[i]
      ensures back[i][b] == values[i][b]
    {
      OwnBit(sizes, Positions(sizes), values, i, b);
    }
  }
}
