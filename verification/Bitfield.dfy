/**
 The bitfield compiler (kernel/tools/bitfield_gen.py): the layout of blocks, the generated field
 accessors, and the decoding of tags of different widths in tagged unions. An integer is the set of
 the positions of its one bits, and a generated C expression is modelled by the value it computes.
 */
module Bitfield {
  import opened Arithmetic

  type Bits = set<nat>

  /** The word in which a bit of a block lies, and its place there. */
  function WordIndex(offset: nat, base: nat): nat
    requires base > 0
  {
    offset / base
  }

  function BitIndex(offset: nat, base: nat): (b: nat)
    requires base > 0
    ensures b < base
  {
    offset % base
  }

  // Blocks

  /** A field or, without a name, padding as declared; and a field as laid out. */
  datatype Decl = Decl(named: bool, size: nat, high: bool)

  datatype Field = Field(offset: nat, size: nat, high: bool)

  function TotalSize(decls: seq<Decl>): nat {
    if decls == [] then 0 else decls[0].size + TotalSize(decls[1..])
  }

  /** The fields of a block: the first declaration is at its top, the last at bit 0, and padding has no field. */
  function Layout(decls: seq<Decl>): seq<Field> {
    if decls == [] then []
    else (if decls[0].named then [Field(TotalSize(decls[1..]), decls[0].size, decls[0].high)] else [])
         + Layout(decls[1..])
  }

  lemma SuffixStep(decls: seq<Decl>, i: nat)
    requires i < |decls|
    ensures decls[i..][1..] == decls[i + 1..]
    ensures TotalSize(decls[i..]) == decls[i].size + TotalSize(decls[i + 1..])
  {
  }

  /** Block.__init__ */
  method LayOut(decls: seq<Decl>) returns (fields: seq<Field>, size: nat)
    ensures fields == Layout(decls) && size == TotalSize(decls)
  {
    size := 0;
    for i := |decls| downto 0
      invariant size == TotalSize(decls[i..])
    {
      SuffixStep(decls, i);
      size := size + decls[i].size;
    }
    assert decls[0..] == decls;
    var offset := size;
    fields := [];
    for i := 0 to |decls|
      invariant offset == TotalSize(decls[i..]) && fields + Layout(decls[i..]) == Layout(decls)
    {
      SuffixStep(decls, i);
      offset := offset - decls[i].size;
      if decls[i].named {
        fields := fields + [Field(offset, decls[i].size, decls[i].high)];
      }
    }
  }

  /** Fields end inside their block. */
  lemma {:induction false} EndsInBlock(decls: seq<Decl>, k: nat)
    requires k < |Layout(decls)|
    ensures Layout(decls)[k].offset + Layout(decls)[k].size <= TotalSize(decls)
  {
    if decls[0].named && k > 0 {
      EndsInBlock(decls[1..], k - 1);
    } else if !decls[0].named {
      EndsInBlock(decls[1..], k);
    }
  }

  /** Different fields have no bit in common. */
  lemma {:induction false} FieldsApart(decls: seq<Decl>, i: nat, j: nat)
    requires i < j < |Layout(decls)|
    ensures Layout(decls)[j].offset + Layout(decls)[j].size <= Layout(decls)[i].offset
  {
    if !decls[0].named {
      FieldsApart(decls[1..], i, j);
    } else if i > 0 {
      FieldsApart(decls[1..], i - 1, j - 1);
    } else {
      EndsInBlock(decls[1..], j - 1);
    }
  }

  predicate HasBit(f: Field, b: nat) {
    f.offset <= b < f.offset + f.size
  }

  predicate InSome(fields: seq<Field>, b: nat) {
    exists k :: 0 <= k < |fields| && HasBit(fields[k], b)
  }

  /** The declaration in whose part of the block a bit lies. */
  function Owner(decls: seq<Decl>, b: nat): (i: nat)
    requires b < TotalSize(decls)
    ensures i < |decls| && TotalSize(decls[i + 1..]) <= b < TotalSize(decls[i + 1..]) + decls[i].size
  {
    if b >= TotalSize(decls[1..]) then 0 else 1 + Owner(decls[1..], b)
  }

  /** Every bit of a block belongs to one declaration, and is in a field if and only if that is not padding. */
  lemma {:induction false} FieldsCover(decls: seq<Decl>, b: nat)
    requires b < TotalSize(decls)
    ensures decls[Owner(decls, b)].named <==> InSome(Layout(decls), b)
  {
    var rest := decls[1..];
    var head := if decls[0].named then [Field(TotalSize(rest), decls[0].size, decls[0].high)] else [];
    InSomePart(head, Layout(rest), b);
    if b >= TotalSize(rest) {
      forall k | 0 <= k < |Layout(rest)| ensures !HasBit(Layout(rest)[k], b) { EndsInBlock(rest, k); }
      assert decls[0].named ==> HasBit(head[0], b);
    } else {
      FieldsCover(rest, b);
      assert decls[Owner(decls, b)] == rest[Owner(rest, b)];
    }
  }

  lemma InSomePart(head: seq<Field>, tail: seq<Field>, b: nat)
    ensures InSome(head + tail, b) <==> InSome(head, b) || InSome(tail, b)
  {
    var fields := head + tail;
    if InSome(fields, b) {
      var k :| 0 <= k < |fields| && HasBit(fields[k], b);
      if k >= |head| { assert fields[k] == tail[k - |head|]; }
    }
    if InSome(tail, b) {
      var k :| 0 <= k < |tail| && HasBit(tail[k], b);
      assert fields[|head| + k] == tail[k];
    }
    if InSome(head, b) {
      var k :| 0 <= k < |head| && HasBit(head[k], b);
      assert fields[k] == head[k];
    }
  }

  /** Block.set_base: the block is whole words and no field crosses from one to the next. */
  predicate BaseFits(fields: seq<Field>, size: nat, base: nat)
    requires base > 0
  {
    && size % base == 0
    && forall i :: 0 <= i < |fields| ==> InOneWord(fields[i], base)
  }

  /** The division rounds down, for a field without bits at the start of the block as well. */
  predicate InOneWord(f: Field, base: nat)
    requires base > 0
  {
    WordIndex(f.offset, base) == (f.offset + f.size - 1) / base
  }

  /** The block of an endpoint (kernel/include/object/structures.bf), whose padding crosses words, is accepted. */
  lemma EndpointBlock()
    ensures var decls := [Decl(false, 64, false), Decl(true, 28, true), Decl(false, 4, false),
                          Decl(true, 28, true), Decl(false, 2, false), Decl(true, 2, false)];
            && TotalSize(decls) == 128 && Layout(decls) == [Field(36, 28, true), Field(4, 28, true), Field(0, 2, false)]
            && BaseFits(Layout(decls), TotalSize(decls), 32)
  {
    hide TotalSize, Layout;
    var d5 := LayoutOfOne(Decl(true, 2, false), []);
    var d4 := LayoutOfOne(Decl(false, 2, false), d5);
    var d3 := LayoutOfOne(Decl(true, 28, true), d4);
    var d2 := LayoutOfOne(Decl(false, 4, false), d3);
    var d1 := LayoutOfOne(Decl(true, 28, true), d2);
    var d0 := LayoutOfOne(Decl(false, 64, false), d1);
    assert d0 == [Decl(false, 64, false), Decl(true, 28, true), Decl(false, 4, false),
                  Decl(true, 28, true), Decl(false, 2, false), Decl(true, 2, false)];
    assert Layout(d0) == [Field(36, 28, true), Field(4, 28, true), Field(0, 2, false)];
  }

  lemma LayoutOfOne(d: Decl, rest: seq<Decl>) returns (decls: seq<Decl>)
    ensures decls == [d] + rest && TotalSize(decls) == d.size + TotalSize(rest)
    ensures rest == [] ==> TotalSize(rest) == 0 && Layout(rest) == []
    ensures Layout(decls) == (if d.named then [Field(TotalSize(rest), d.size, d.high)] else []) + Layout(rest)
  {
    decls := [d] + rest;
    assert decls[1..] == rest;
  }

  // Accessors

  /** The numbers from `lo` up to lo + n. */
  function Range(lo: nat, n: nat): (r: set<nat>)
    ensures forall b :: b in r <==> lo <= b < lo + n
  {
    if n == 0 then {} else Range(lo, n - 1) + {lo + n - 1}
  }

  /** The shift operators of C on words of `base` bits. */
  function ShiftLeft(x: Bits, n: nat, base: nat): Bits {
    set b | b in x && b + n < base :: b + n
  }

  function ShiftRight(x: Bits, n: nat): Bits {
    set b | b in x && b >= n :: b - n
  }

  /** The mask of a field in its word. */
  function Mask(f: Field, base: nat): Bits
    requires base > 0
  {
    Range(BitIndex(f.offset, base), f.size)
  }

  /**
   How far the generated code shifts: a high field has its top at bit `bits` of the value, other
   fields are at the bottom.
   */
  function Shift(f: Field, base: nat, bits: nat): int
    requires base > 0
  {
    if f.high then bits - f.size - BitIndex(f.offset, base) else -(BitIndex(f.offset, base) as int)
  }

  /** The generated reader. */
  function Get(f: Field, words: seq<Bits>, base: nat, bits: nat): Bits
    requires base > 0 && WordIndex(f.offset, base) < |words|
  {
    var masked, shift := words[WordIndex(f.offset, base)] * Mask(f, base), Shift(f, base, bits);
    if shift >= 0 then ShiftLeft(masked, shift, base) else ShiftRight(masked, -shift)
  }

  /** The generated writer. */
  function Set(f: Field, words: seq<Bits>, v: Bits, base: nat, bits: nat): (words': seq<Bits>)
    requires base > 0 && WordIndex(f.offset, base) < |words|
    ensures |words'| == |words|
  {
    var i, mask, shift := WordIndex(f.offset, base), Mask(f, base), Shift(f, base, bits);
    var shifted := if shift >= 0 then ShiftRight(v, shift) else ShiftLeft(v, -shift, base);
    words[i := (words[i] - mask) + shifted * mask]
  }

  /** The first bit of a value that the field can hold. */
  function Lowest(f: Field, bits: nat): int {
    if f.high then bits - f.size else 0
  }

  lemma EndsInWord(f: Field, base: nat)
    requires base > 0 && InOneWord(f, base)
    ensures BitIndex(f.offset, base) + f.size <= base
  {
    if f.size > 0 {
      var q := WordIndex(f.offset, base);
      assert f.offset == base * q + BitIndex(f.offset, base);
      assert f.offset + f.size - 1 == base * q + (f.offset + f.size - 1) % base;
    }
  }

  lemma LeftBit(x: Bits, n: nat, base: nat, b: nat)
    ensures b in ShiftLeft(x, n, base) <==> n <= b < base && b - n in x
  {
    if n <= b < base && b - n in x {
      assert b - n + n in ShiftLeft(x, n, base);
    }
  }

  lemma RightBit(x: Bits, n: nat, b: nat)
    ensures b in ShiftRight(x, n) <==> b + n in x
  {
    if b + n in x {
      assert b + n - n in ShiftRight(x, n);
    }
  }

  lemma GetBit(f: Field, words: seq<Bits>, base: nat, bits: nat, b: nat)
    requires base > 0 && WordIndex(f.offset, base) < |words| && BitIndex(f.offset, base) + f.size <= base
             && bits <= base
    ensures b in Get(f, words, base, bits) <==>
              && Lowest(f, bits) <= b < Lowest(f, bits) + f.size
              && b - Shift(f, base, bits) >= 0 && b - Shift(f, base, bits) in words[WordIndex(f.offset, base)]
  {
    hide ShiftLeft, ShiftRight, BitIndex, WordIndex;
    var shift := Shift(f, base, bits);
    var masked := words[WordIndex(f.offset, base)] * Mask(f, base);
    if shift >= 0 {
      LeftBit(masked, shift, base, b);
    } else {
      RightBit(masked, -shift, b);
    }
  }

  lemma SetBit(f: Field, words: seq<Bits>, v: Bits, base: nat, bits: nat, b: nat)
    requires base > 0 && WordIndex(f.offset, base) < |words| && BitIndex(f.offset, base) + f.size <= base
             && bits <= base && b in Mask(f, base)
    ensures b in Set(f, words, v, base, bits)[WordIndex(f.offset, base)] <==>
              b + Shift(f, base, bits) >= 0 && b + Shift(f, base, bits) in v
  {
    hide ShiftLeft, ShiftRight, BitIndex, WordIndex;
    var shift := Shift(f, base, bits);
    if shift >= 0 {
      RightBit(v, shift, b);
    } else {
      LeftBit(v, -shift, base, b);
    }
  }

  /** A written field reads back as the part of the value it can hold. */
  lemma GetSet(f: Field, words: seq<Bits>, v: Bits, base: nat, bits: nat, b: nat)
    requires base > 0 && WordIndex(f.offset, base) < |words| && BitIndex(f.offset, base) + f.size <= base
             && bits <= base
    ensures b in Get(f, Set(f, words, v, base, bits), base, bits) <==>
              b in v && Lowest(f, bits) <= b < Lowest(f, bits) + f.size
  {
    hide Get, Set;
    GetBit(f, Set(f, words, v, base, bits), base, bits, b);
    var c := b - Shift(f, base, bits);
    if Lowest(f, bits) <= b < Lowest(f, bits) + f.size && c >= 0 {
      SetBit(f, words, v, base, bits, c);
    }
  }

  /** Writing a field leaves the fields that have no bit in common with it. */
  lemma GetOther(f: Field, g: Field, words: seq<Bits>, v: Bits, base: nat, bits: nat)
    requires base > 0 && WordIndex(f.offset, base) < |words| && WordIndex(g.offset, base) < |words|
    requires WordIndex(f.offset, base) != WordIndex(g.offset, base) || Mask(f, base) !! Mask(g, base)
    ensures Get(g, Set(f, words, v, base, bits), base, bits) == Get(g, words, base, bits)
  {
    var words' := Set(f, words, v, base, bits);
    assert words'[WordIndex(g.offset, base)] * Mask(g, base) == words[WordIndex(g.offset, base)] * Mask(g, base);
  }

  /**
   The accessors of an accepted block: what is written is read back, all of it if and only if it fits,
   and every other field keeps its value.
   */
  lemma Accessors(decls: seq<Decl>, words: seq<Bits>, i: nat, v: Bits, base: nat, bits: nat)
    requires base > 0 && bits <= base && i < |Layout(decls)|
    requires BaseFits(Layout(decls), TotalSize(decls), base) && |words| == TotalSize(decls) / base
    ensures var fields := Layout(decls);
            && (forall k :: 0 <= k < |fields| ==> WordIndex(fields[k].offset, base) < |words|)
            && var words' := Set(fields[i], words, v, base, bits);
               && (Get(fields[i], words', base, bits) == v <==>
                     forall b :: b in v ==> Lowest(fields[i], bits) <= b < Lowest(fields[i], bits) + fields[i].size)
               && (forall b :: b in Get(fields[i], words', base, bits) <==>
                     b in v && Lowest(fields[i], bits) <= b < Lowest(fields[i], bits) + fields[i].size)
               && (forall k :: 0 <= k < |fields| && k != i ==>
                     Get(fields[k], words', base, bits) == Get(fields[k], words, base, bits))
  {
    hide Get, Set, Mask, Layout, BaseFits, TotalSize;
    var fields := Layout(decls);
    forall k | 0 <= k < |fields|
      ensures WordIndex(fields[k].offset, base) < |words| && BitIndex(fields[k].offset, base) + fields[k].size <= base
    {
      FieldInBlock(decls, k, base);
    }
    var f := fields[i];
    forall b: nat
      ensures b in Get(f, Set(f, words, v, base, bits), base, bits) <==>
                b in v && Lowest(f, bits) <= b < Lowest(f, bits) + f.size
    {
      GetSet(f, words, v, base, bits, b);
    }
    forall k | 0 <= k < |fields| && k != i
      ensures Get(fields[k], Set(f, words, v, base, bits), base, bits) == Get(fields[k], words, base, bits)
    {
      MasksApart(decls, i, k, base);
      GetOther(f, fields[k], words, v, base, bits);
    }
  }

  lemma FieldInBlock(decls: seq<Decl>, k: nat, base: nat)
    requires base > 0 && k < |Layout(decls)| && BaseFits(Layout(decls), TotalSize(decls), base)
    ensures var f := Layout(decls)[k];
            WordIndex(f.offset, base) < TotalSize(decls) / base && BitIndex(f.offset, base) + f.size <= base
  {
    hide Layout, TotalSize;
    var f := Layout(decls)[k];
    EndsInWord(f, base);
    EndsInBlock(decls, k);
    if f.offset == TotalSize(decls) {
      NotAtEnd(f, base);
    } else {
      QuotientBelow(f.offset, TotalSize(decls), base);
    }
  }

  /** A field without bits is not accepted at the start of a word. */
  lemma NotAtEnd(f: Field, base: nat)
    requires base > 0 && f.size == 0 && InOneWord(f, base)
    ensures f.offset % base != 0
  {
  }

  lemma QuotientBelow(x: nat, y: nat, n: nat)
    requires n > 0 && x < y && y % n == 0
    ensures x / n < y / n
  {
    var a, b := x / n, y / n;
    assert x == n * a + x % n && y == n * b;
    if b <= a {
      MulMonotone(n, b, a);
    }
  }

  lemma MasksApart(decls: seq<Decl>, i: nat, k: nat, base: nat)
    requires base > 0 && i < |Layout(decls)| && k < |Layout(decls)| && i != k
    ensures var f, g := Layout(decls)[i], Layout(decls)[k];
            WordIndex(f.offset, base) != WordIndex(g.offset, base) || Mask(f, base) !! Mask(g, base)
  {
    var f, g := Layout(decls)[i], Layout(decls)[k];
    if i < k {
      FieldsApart(decls, i, k);
    } else {
      FieldsApart(decls, k, i);
    }
    if WordIndex(f.offset, base) == WordIndex(g.offset, base) {
      SameWord(f.offset, g.offset, base);
    }
  }

  lemma SameWord(x: nat, y: nat, base: nat)
    requires base > 0 && WordIndex(x, base) == WordIndex(y, base)
    ensures BitIndex(x, base) - BitIndex(y, base) == x - y
  {
    assert x == base * (x / base) + x % base;
    assert y == base * (y / base) + y % base;
  }

  // Tagged unions

  /**
   The tag field of some members of a union: its place, and the mask, relative to the lowest tag
   field, that tells a wider tag.
   */
  datatype Class = Class(width: nat, offset: nat, mask: Bits)

  /** class_offset */
  function ClassOffset(classes: seq<Class>): (m: nat)
    requires classes != []
    ensures forall i :: 0 <= i < |classes| ==> m <= classes[i].offset
    ensures exists i :: 0 <= i < |classes| && m == classes[i].offset
  {
    if |classes| == 1 then classes[0].offset
    else
      var m := ClassOffset(classes[..|classes| - 1]);
      var last := classes[|classes| - 1].offset;
      assert forall i :: 0 <= i < |classes| - 1 ==> classes[..|classes| - 1][i] == classes[i];
      if last < m then last else m
  }

  /** `x << n` of an integer that has no width. */
  function Raised(x: Bits, n: nat): Bits {
    set b | b in x :: b + n
  }

  /** A mask lies in its field. */
  ghost predicate MaskInField(c: Class, classOffset: nat) {
    forall b :: b in c.mask ==> c.offset <= b + classOffset < c.offset + c.width
  }

  /**
   What make_classes accepts: masks in their fields that grow with the width, the first one not zero,
   none repeated before the last.
   */
  ghost predicate SoundMasks(classes: seq<Class>)
    requires classes != []
  {
    && (forall i :: 0 <= i < |classes| ==> MaskInField(classes[i], ClassOffset(classes)))
    && (|classes| > 1 ==> classes[0].mask != {})
    && (forall i :: 1 <= i < |classes| - 1 ==> classes[i - 1].mask != classes[i].mask)
    && (forall i :: 1 <= i < |classes| ==> classes[i - 1].mask <= classes[i].mask)
  }

  /** What the two set_base accept: tag fields inside one and the same word. */
  ghost predicate OneWord(classes: seq<Class>, base: nat)
    requires base > 0 && classes != []
  {
    forall i :: 0 <= i < |classes| ==>
      WordIndex(classes[i].offset, base) == WordIndex(classes[0].offset, base)
        && BitIndex(classes[i].offset, base) + classes[i].width <= base
  }

  ghost predicate AcceptedClasses(classes: seq<Class>, base: nat)
    requires base > 0
  {
    classes != [] && SoundMasks(classes) && OneWord(classes, base)
  }

  /** ... which make_classes finds out by or-ing the two. */
  lemma MaskAddsNothing(c: Class, classOffset: nat)
    ensures MaskInField(c, classOffset) <==>
              Raised(c.mask, classOffset) + Range(c.offset, c.width) == Range(c.offset, c.width)
  {
    var field := Range(c.offset, c.width);
    if Raised(c.mask, classOffset) + field == field {
      forall b | b in c.mask ensures c.offset <= b + classOffset < c.offset + c.width {
        assert b + classOffset in Raised(c.mask, classOffset) + field;
      }
    }
  }

  /** The checks of make_classes on the classes in order of width. */
  method CheckClasses(classes: seq<Class>) returns (ok: bool)
    requires classes != []
    ensures ok <==> SoundMasks(classes)
  {
    hide MaskInField, ClassOffset, Raised, Range;
    var classOffset := ClassOffset(classes);
    for i := 0 to |classes|
      invariant forall k :: 0 <= k < i ==> MaskInField(classes[k], classOffset)
    {
      MaskAddsNothing(classes[i], classOffset);
      var field := Range(classes[i].offset, classes[i].width);
      if Raised(classes[i].mask, classOffset) + field != field {
        return false;
      }
    }
    if |classes| > 1 && classes[0].mask == {} {
      return false;
    }
    var n := 1;
    while n < |classes| - 1
      invariant 1 <= n
      invariant forall k :: 1 <= k < n && k < |classes| - 1 ==> classes[k - 1].mask != classes[k].mask
    {
      if classes[n - 1].mask == classes[n].mask {
        return false;
      }
      n := n + 1;
    }
    for i := 1 to |classes|
      invariant forall k :: 1 <= k < i ==> classes[k - 1].mask <= classes[k].mask
    {
      if !(classes[i - 1].mask <= classes[i].mask) {
        return false;
      }
    }
    return true;
  }

  /** The value of a tag, moved to where the masks are. */
  function ClassValue(value: Bits, c: Class, classOffset: nat): Bits
    requires classOffset <= c.offset
  {
    Raised(value, c.offset - classOffset)
  }

  /**
   assert_value_in_class: the value fits its field, matches the masks of all narrower classes, and
   not its own unless that is the last.
   */
  ghost predicate AcceptedValue(classes: seq<Class>, i: nat, value: Bits)
    requires i < |classes|
  {
    && (forall b :: b in value ==> b < classes[i].width)
    && (forall j :: 0 <= j < i ==> classes[j].mask <= ClassValue(value, classes[i], ClassOffset(classes)))
    && (i + 1 < |classes| ==> !(classes[i].mask <= ClassValue(value, classes[i], ClassOffset(classes))))
  }

  method CheckValue(classes: seq<Class>, i: nat, value: Bits) returns (ok: bool)
    requires i < |classes|
    ensures ok <==> AcceptedValue(classes, i, value)
  {
    hide ClassOffset, ClassValue;
    var cvalue := ClassValue(value, classes[i], ClassOffset(classes));
    if !(value <= Range(0, classes[i].width)) {
      return false;
    }
    for j := 0 to i
      invariant forall k :: 0 <= k < j ==> classes[k].mask <= cvalue
    {
      if !(classes[j].mask <= cvalue) {
        return false;
      }
    }
    return !(i + 1 < |classes| && classes[i].mask <= cvalue);
  }

  /** word_classmask */
  function WordClassMask(c: Class, classOffset: nat, base: nat): Bits
    requires base > 0
  {
    set b | b in c.mask :: b + BitIndex(classOffset, base)
  }

  /** The tag field of class `c`, read from the word with the tags. */
  function ReadField(word: Bits, c: Class, base: nat): Bits
    requires base > 0
  {
    ShiftRight(word, BitIndex(c.offset, base)) * Range(0, c.width)
  }

  /**
   The generated tag reader, from class `i` on: the first class whose mask the word does not match,
   or the last.
   */
  function ReadTag(word: Bits, classes: seq<Class>, i: nat, base: nat): Bits
    requires i < |classes| && base > 0
    decreases |classes| - i
  {
    var m := WordClassMask(classes[i], ClassOffset(classes), base);
    if i + 1 < |classes| && word * m == m then ReadTag(word, classes, i + 1, base)
    else ReadField(word, classes[i], base)
  }

  /** The word carries a tag of class `c`; its other bits may be anything. */
  ghost predicate Carries(word: Bits, c: Class, value: Bits, base: nat)
    requires base > 0
  {
    forall b: nat :: b < c.width ==> (b in value <==> BitIndex(c.offset, base) + b in word)
  }

  lemma TagInWord(classes: seq<Class>, i: nat, base: nat)
    requires base > 0 && AcceptedClasses(classes, base) && i < |classes|
    ensures BitIndex(classes[i].offset, base) ==
            BitIndex(ClassOffset(classes), base) + (classes[i].offset - ClassOffset(classes))
  {
    hide BitIndex, WordIndex, MaskInField;
    var k :| 0 <= k < |classes| && ClassOffset(classes) == classes[k].offset;
    SameWord(classes[i].offset, classes[k].offset, base);
  }

  /** A bit of a class mask is the same bit in the word as in the value moved to the masks. */
  lemma MaskBit(word: Bits, classes: seq<Class>, i: nat, value: Bits, base: nat, b: nat)
    requires base > 0 && AcceptedClasses(classes, base) && i < |classes|
    requires forall x :: x in value ==> x < classes[i].width
    requires Carries(word, classes[i], value, base)
    requires classes[i].offset <= b + ClassOffset(classes) < classes[i].offset + classes[i].width
    ensures b + BitIndex(ClassOffset(classes), base) in word <==>
              b in ClassValue(value, classes[i], ClassOffset(classes))
  {
    hide BitIndex, WordIndex, AcceptedClasses, ClassOffset;
    var o, c := ClassOffset(classes), classes[i];
    TagInWord(classes, i, base);
    var x := b + o - c.offset;
    if x in value {
      assert x + (c.offset - o) in ClassValue(value, c, o);
    }
  }

  /** A value moved to the masks has its bits inside its field. */
  lemma ValueFits(classes: seq<Class>, i: nat, value: Bits)
    requires i < |classes| && AcceptedValue(classes, i, value)
    ensures forall x :: x in value ==> x < classes[i].width
  {
  }

  lemma ValueInField(classes: seq<Class>, i: nat, value: Bits, b: nat)
    requires i < |classes| && (forall x :: x in value ==> x < classes[i].width)
    requires b in ClassValue(value, classes[i], ClassOffset(classes))
    ensures classes[i].offset <= b + ClassOffset(classes) < classes[i].offset + classes[i].width
  {
  }

  /** The test for class `j` succeeds for a wider tag. */
  lemma PassesNarrower(word: Bits, classes: seq<Class>, i: nat, j: nat, value: Bits, base: nat)
    requires base > 0 && AcceptedClasses(classes, base) && j < i < |classes|
    requires AcceptedValue(classes, i, value) && Carries(word, classes[i], value, base)
    ensures WordClassMask(classes[j], ClassOffset(classes), base) <= word
  {
    hide BitIndex, WordIndex, AcceptedClasses, Carries, ClassValue;
    forall b | b in classes[j].mask
      ensures b + BitIndex(ClassOffset(classes), base) in word
    {
      ValueInField(classes, i, value, b);
      MaskBit(word, classes, i, value, base, b);
    }
  }

  /** A bit of its class's mask that the value does not have. */
  lemma BitNotInValue(classes: seq<Class>, i: nat, value: Bits) returns (b: nat)
    requires i + 1 < |classes| && SoundMasks(classes) && AcceptedValue(classes, i, value)
    ensures b in classes[i].mask && b !in ClassValue(value, classes[i], ClassOffset(classes))
    ensures classes[i].offset <= b + ClassOffset(classes) < classes[i].offset + classes[i].width
  {
    hide ClassValue, ClassOffset;
    b :| b in classes[i].mask && b !in ClassValue(value, classes[i], ClassOffset(classes));
    assert MaskInField(classes[i], ClassOffset(classes));
  }

  /** The test for its own class fails. */
  lemma FailsOwn(word: Bits, classes: seq<Class>, i: nat, value: Bits, base: nat)
    requires base > 0 && AcceptedClasses(classes, base) && i + 1 < |classes|
    requires AcceptedValue(classes, i, value) && Carries(word, classes[i], value, base)
    ensures !(WordClassMask(classes[i], ClassOffset(classes), base) <= word)
  {
    hide BitIndex, WordIndex, Carries, ClassValue, SoundMasks, AcceptedValue, ClassOffset, OneWord;
    var o := ClassOffset(classes);
    var b := BitNotInValue(classes, i, value);
    ValueFits(classes, i, value);
    MaskBit(word, classes, i, value, base, b);
    assert b + BitIndex(o, base) in WordClassMask(classes[i], o, base);
  }

  lemma ReadsOwnField(word: Bits, c: Class, value: Bits, base: nat)
    requires base > 0 && Carries(word, c, value, base) && (forall b :: b in value ==> b < c.width)
    ensures ReadField(word, c, base) == value
  {
    forall b: nat
      ensures b in ReadField(word, c, base) <==> b in value
    {
      RightBit(word, BitIndex(c.offset, base), b);
    }
  }

  /** The generated reader decodes every accepted tag, whatever the other bits of the word. */
  lemma {:induction false} DecodesTag(word: Bits, classes: seq<Class>, i: nat, value: Bits, base: nat, from: nat)
    requires base > 0 && AcceptedClasses(classes, base) && from <= i < |classes|
    requires AcceptedValue(classes, i, value) && Carries(word, classes[i], value, base)
    ensures ReadTag(word, classes, from, base) == value
    decreases i - from
  {
    hide AcceptedClasses, Carries, WordClassMask, ReadField;
    if from < i {
      PassesNarrower(word, classes, i, from, value, base);
      DecodesTag(word, classes, i, value, base, from + 1);
    } else {
      if i + 1 < |classes| {
        FailsOwn(word, classes, i, value, base);
      }
      ReadsOwnField(word, classes[i], value, base);
    }
  }
}
