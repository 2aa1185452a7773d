/**
 The AA tree of kernel/src/kernel/cdt.c as a value: what each rebalancing step does to the shape,
 and why insertion and removal keep the tree search-ordered and balanced. The in-place code in
 `CdtSlots` is proved to compute exactly these functions.
 */
module AATree {
  import opened Arithmetic
  import opened Collections
  import opened Caps

  /** A tree node: the slot it is stored in, and the slot's place in the order. */
  datatype Item<S> = Item(slot: S, rank: Rank)

  datatype Tree<S> = Nil | Node(level: nat, left: Tree<S>, item: Item<S>, right: Tree<S>)

  function Level<S>(t: Tree<S>): nat {
    if t.Nil? then 0 else t.level
  }

  function Size<S>(t: Tree<S>): nat {
    if t.Nil? then 0 else Size(t.left) + 1 + Size(t.right)
  }

  /** The nodes from left to right. */
  function InOrder<S>(t: Tree<S>): seq<Item<S>> {
    if t.Nil? then [] else InOrder(t.left) + [t.item] + InOrder(t.right)
  }

  predicate Sorted<S>(s: seq<Item<S>>) {
    forall i, j :: 0 <= i < j < |s| ==> Less(s[i].rank, s[j].rank)
  }

  predicate Ordered<S>(t: Tree<S>) {
    Sorted(InOrder(t))
  }

  /**
   The AA invariants: a left child is exactly one level down, a right child at most one level
   down, and two right links in a row never stay on one level.
   */
  predicate Balanced<S>(t: Tree<S>) {
    t.Node? ==>
      && Balanced(t.left) && Balanced(t.right)
      && Level(t.left) == t.level - 1
      && t.level - 1 <= Level(t.right) <= t.level
      && (t.right.Node? ==> Level(t.right.right) < t.level)
  }

  /** The right child is on the same level as its parent. */
  predicate Horizontal<S>(t: Tree<S>) {
    t.Node? && Level(t.right) == t.level
  }

  // ---------------------------------------------------------------------------------------
  // Rebalancing steps
  // ---------------------------------------------------------------------------------------

  function Skew<S>(t: Tree<S>): Tree<S> {
    if t.Node? && t.left.Node? && t.left.level == t.level
    then t.left.(right := t.(left := t.left.right))
    else t
  }

  predicate SplitApplies<S>(t: Tree<S>) {
    t.Node? && t.right.Node? && t.right.right.Node? && t.level == t.right.right.level
  }

  function Split<S>(t: Tree<S>): Tree<S> {
    if SplitApplies(t)
    then Node(t.right.level + 1, t.(right := t.right.left), t.right.item, t.right.right)
    else t
  }

  function DecLevel<S>(t: Tree<S>): Tree<S> {
    if t.Nil? then t else
    var shouldBe := Min(Level(t.left), Level(t.right)) + 1;
    if shouldBe < t.level then
      t.(level := shouldBe,
         right := if t.right.Node? && shouldBe < t.right.level then t.right.(level := shouldBe) else t.right)
    else t
  }

  function SkewRightSpine<S>(t: Tree<S>): Tree<S>
    requires t.Node?
  {
    var r := Skew(t.right);
    t.(right := if r.Node? then r.(right := Skew(r.right)) else r)
  }

  /** aaRebalance up to its first split: the level decrease and the three skews. */
  function Straighten<S>(t: Tree<S>): Tree<S>
    requires t.Node?
    ensures Straighten(t).Node?
  {
    SkewRightSpine(Skew(DecLevel(t)))
  }

  function Rebalance<S>(t: Tree<S>): Tree<S> {
    if t.Nil? then t else
    var t2 := Split(Straighten(t));
    t2.(right := Split(t2.right))
  }

  // ---------------------------------------------------------------------------------------
  // Insertion and removal
  // ---------------------------------------------------------------------------------------

  function Insert<S>(t: Tree<S>, x: Item<S>): Tree<S> {
    if t.Nil? then Node(1, Nil, x, Nil)
    else if Less(t.item.rank, x.rank) then Split(Skew(t.(right := Insert(t.right, x))))
    else if Less(x.rank, t.item.rank) then Split(Skew(t.(left := Insert(t.left, x))))
    else t
  }

  function Leftmost<S>(t: Tree<S>): Item<S>
    requires t.Node?
  {
    if t.left.Nil? then t.item else Leftmost(t.left)
  }

  function Rightmost<S>(t: Tree<S>): Item<S>
    requires t.Node?
  {
    if t.right.Nil? then t.item else Rightmost(t.right)
  }

  function Remove<S>(t: Tree<S>, r: Rank): Tree<S>
    decreases t, 1
  {
    if t.Nil? then t
    else if Less(t.item.rank, r) then Rebalance(t.(right := Remove(t.right, r)))
    else if Less(r, t.item.rank) then Rebalance(t.(left := Remove(t.left, r)))
    else Rebalance(RemoveNode(t))
  }

  function RemoveNode<S>(t: Tree<S>): Tree<S>
    requires t.Node?
    decreases t, 0
  {
    if t.left.Node? then
      var pred := Rightmost(t.left);
      Node(t.level, Remove(t.left, pred.rank), pred, t.right)
    else if t.right.Node? then
      var succ := Leftmost(t.right);
      Node(t.level, Nil, succ, Remove(t.right, succ.rank))
    else Nil
  }

  // ---------------------------------------------------------------------------------------
  // Contents: no rebalancing step changes the in-order sequence
  // ---------------------------------------------------------------------------------------

  lemma SkewInOrder<S>(t: Tree<S>)
    ensures InOrder(Skew(t)) == InOrder(t)
  {
  }

  lemma SplitInOrder<S>(t: Tree<S>)
    ensures InOrder(Split(t)) == InOrder(t)
  {
  }

  lemma RebalanceInOrder<S>(t: Tree<S>)
    ensures InOrder(Rebalance(t)) == InOrder(t)
  {
    if t.Node? {
      var t0 := DecLevel(t);
      assert InOrder(t0) == InOrder(t);
      var t1 := Skew(t0);
      SkewInOrder(t0);
      SkewInOrder(t1.right);
      var r := Skew(t1.right);
      if r.Node? {
        SkewInOrder(r.right);
        assert InOrder(r.(right := Skew(r.right))) == InOrder(r);
      }
      assert InOrder(Straighten(t)) == InOrder(t1);
      var t2 := Split(Straighten(t));
      SplitInOrder(Straighten(t));
      SplitInOrder(t2.right);
    }
  }

  /** Every node of the left part of a sorted sequence comes before every node of the right part. */
  lemma SortedParts<S>(a: seq<Item<S>>, x: Item<S>, b: seq<Item<S>>)
    ensures Sorted(a + [x] + b) <==>
              && Sorted(a) && Sorted(b)
              && (forall i :: 0 <= i < |a| ==> Less(a[i].rank, x.rank))
              && (forall j :: 0 <= j < |b| ==> Less(x.rank, b[j].rank))
  {
    var s := a + [x] + b;
    if Sorted(s) {
      forall i, j | 0 <= i < j < |a| ensures Less(a[i].rank, a[j].rank) { assert s[i] == a[i] && s[j] == a[j]; }
      forall i, j | 0 <= i < j < |b| ensures Less(b[i].rank, b[j].rank) {
        assert s[|a| + 1 + i] == b[i] && s[|a| + 1 + j] == b[j];
      }
      forall i | 0 <= i < |a| ensures Less(a[i].rank, x.rank) { assert s[i] == a[i] && s[|a|] == x; }
      forall j | 0 <= j < |b| ensures Less(x.rank, b[j].rank) { assert s[|a| + 1 + j] == b[j] && s[|a|] == x; }
    }
  }

  /** Node `x` belongs right before position `k` of `s`. */
  predicate BelongsAt<S>(s: seq<Item<S>>, x: Item<S>, k: nat) {
    && k <= |s|
    && (forall i :: 0 <= i < k ==> Less(s[i].rank, x.rank))
    && (forall i :: k <= i < |s| ==> Less(x.rank, s[i].rank))
  }

  lemma BelongsRight<S>(a: seq<Item<S>>, y: Item<S>, b: seq<Item<S>>, x: Item<S>, j: nat)
    requires Sorted(a + [y] + b) && Less(y.rank, x.rank) && BelongsAt(b, x, j)
    ensures BelongsAt(a + [y] + b, x, |a| + 1 + j)
  {
    SortedParts(a, y, b);
    forall i | 0 <= i < |a| ensures Less(a[i].rank, x.rank) {
      LessIsTotalOrder(a[i].rank, y.rank, x.rank);
    }
  }

  lemma BelongsLeft<S>(a: seq<Item<S>>, y: Item<S>, b: seq<Item<S>>, x: Item<S>, k: nat)
    requires Sorted(a + [y] + b) && Less(x.rank, y.rank) && BelongsAt(a, x, k)
    ensures BelongsAt(a + [y] + b, x, k)
  {
    SortedParts(a, y, b);
    forall j | 0 <= j < |b| ensures Less(x.rank, b[j].rank) {
      LessIsTotalOrder(x.rank, y.rank, b[j].rank);
    }
  }

  predicate HasRank<S>(t: Tree<S>, r: Rank) {
    exists i :: 0 <= i < |InOrder(t)| && InOrder(t)[i].rank == r
  }

  lemma HasRankParts<S>(t: Tree<S>, r: Rank)
    requires t.Node?
    ensures HasRank(t, r) <==> HasRank(t.left, r) || t.item.rank == r || HasRank(t.right, r)
  {
    var s, a, b := InOrder(t), InOrder(t.left), InOrder(t.right);
    assert s[|a|] == t.item;
    assert forall i :: 0 <= i < |a| ==> s[i] == a[i];
    assert forall j :: 0 <= j < |b| ==> s[|a| + 1 + j] == b[j];
  }

  /** `s` with `x` put right before position `k`. */
  function With<T>(s: seq<T>, x: T, k: nat): seq<T>
    requires k <= |s|
  {
    s[..k] + [x] + s[k..]
  }

  lemma WithRight<T>(a: seq<T>, y: T, b: seq<T>, x: T, j: nat)
    requires j <= |b|
    ensures With(a + [y] + b, x, |a| + 1 + j) == a + [y] + With(b, x, j)
  {
  }

  lemma WithLeft<T>(a: seq<T>, y: T, b: seq<T>, x: T, k: nat)
    requires k <= |a|
    ensures With(a + [y] + b, x, k) == With(a, x, k) + [y] + b
  {
  }

  lemma SplitSkewInOrder<S>(t: Tree<S>)
    ensures InOrder(Split(Skew(t))) == InOrder(t)
  {
    SkewInOrder(t);
    SplitInOrder(Skew(t));
  }

  /** Insertion puts the new node in its place in the in-order sequence and moves nothing else. */
  lemma {:induction false} InsertInOrder<S>(t: Tree<S>, x: Item<S>) returns (k: nat)
    requires Ordered(t) && !HasRank(t, x.rank)
    ensures BelongsAt(InOrder(t), x, k)
    ensures InOrder(Insert(t, x)) == With(InOrder(t), x, k)
  {
    if t.Nil? {
      k := 0;
    } else {
      var a, b := InOrder(t.left), InOrder(t.right);
      SortedParts(a, t.item, b);
      HasRankParts(t, x.rank);
      LessIsTotalOrder(x.rank, t.item.rank, x.rank);
      if Less(t.item.rank, x.rank) {
        var j := InsertInOrder(t.right, x);
        k := |a| + 1 + j;
        BelongsRight(a, t.item, b, x, j);
        WithRight(a, t.item, b, x, j);
        SplitSkewInOrder(t.(right := Insert(t.right, x)));
      } else {
        k := InsertInOrder(t.left, x);
        BelongsLeft(a, t.item, b, x, k);
        WithLeft(a, t.item, b, x, k);
        SplitSkewInOrder(t.(left := Insert(t.left, x)));
      }
    }
  }

  lemma InsertOrdered<S>(t: Tree<S>, x: Item<S>)
    requires Ordered(t) && !HasRank(t, x.rank)
    ensures Ordered(Insert(t, x))
  {
    var k := InsertInOrder(t, x);
    SortedParts(InOrder(t)[..k], x, InOrder(t)[k..]);
  }

  lemma {:induction false} RightmostIsLast<S>(t: Tree<S>)
    requires t.Node?
    ensures |InOrder(t)| > 0 && Rightmost(t) == InOrder(t)[|InOrder(t)| - 1]
  {
    if t.right.Node? {
      RightmostIsLast(t.right);
    }
  }

  lemma {:induction false} LeftmostIsFirst<S>(t: Tree<S>)
    requires t.Node?
    ensures |InOrder(t)| > 0 && Leftmost(t) == InOrder(t)[0]
  {
    if t.left.Node? {
      LeftmostIsFirst(t.left);
    }
  }

  lemma SortedWithout<S>(s: seq<Item<S>>, i: nat)
    requires Sorted(s) && i < |s|
    ensures Sorted(Without(s, i))
  {
  }

  /** Removal deletes the target from the in-order sequence and moves nothing else. */
  lemma {:induction false} RemoveInOrder<S>(t: Tree<S>, i: nat)
    requires Ordered(t) && i < |InOrder(t)|
    ensures InOrder(Remove(t, InOrder(t)[i].rank)) == Without(InOrder(t), i)
    ensures Ordered(Remove(t, InOrder(t)[i].rank))
    decreases t, 1
  {
    var s, a, b := InOrder(t), InOrder(t.left), InOrder(t.right);
    var r := s[i].rank;
    SortedParts(a, t.item, b);
    SortedWithout(s, i);
    if i < |a| {
      RemoveInOrder(t.left, i);
      WithoutLeft(a, t.item, b, i);
      assert Less(r, t.item.rank);
      LessIsTotalOrder(r, t.item.rank, r);
      RebalanceInOrder(t.(left := Remove(t.left, r)));
    } else if i > |a| {
      var j := i - |a| - 1;
      RemoveInOrder(t.right, j);
      WithoutRight(a, t.item, b, j);
      assert Less(t.item.rank, r);
      RebalanceInOrder(t.(right := Remove(t.right, r)));
    } else {
      assert s[i] == t.item;
      LessIsTotalOrder(r, r, r);
      RemoveNodeInOrder(t);
      RebalanceInOrder(RemoveNode(t));
    }
  }

  lemma WithoutLeft<T>(a: seq<T>, y: T, b: seq<T>, i: nat)
    requires i < |a|
    ensures (a + [y] + b)[i] == a[i]
    ensures Without(a + [y] + b, i) == Without(a, i) + [y] + b
  {
  }

  lemma WithoutRight<T>(a: seq<T>, y: T, b: seq<T>, j: nat)
    requires j < |b|
    ensures (a + [y] + b)[|a| + 1 + j] == b[j]
    ensures Without(a + [y] + b, |a| + 1 + j) == a + [y] + Without(b, j)
  {
  }

  lemma {:induction false} RemoveNodeInOrder<S>(t: Tree<S>)
    requires t.Node? && Ordered(t)
    ensures InOrder(RemoveNode(t)) == Without(InOrder(t), |InOrder(t.left)|)
    decreases t, 0
  {
    hide Sorted, Less, Rebalance;
    var a, b := InOrder(t.left), InOrder(t.right);
    SortedParts(a, t.item, b);
    assert Without(InOrder(t), |a|) == a + b;
    if t.left.Node? {
      var n := |a| - 1;
      RightmostIsLast(t.left);
      RemoveInOrder(t.left, n);
      assert InOrder(RemoveNode(t)) == Without(a, n) + [a[n]] + b;
      assert Without(a, n) + [a[n]] == a;
    } else if t.right.Node? {
      LeftmostIsFirst(t.right);
      RemoveInOrder(t.right, 0);
      assert InOrder(RemoveNode(t)) == [b[0]] + Without(b, 0);
      assert [b[0]] + Without(b, 0) == b;
    }
  }

  // ---------------------------------------------------------------------------------------
  // Balance
  // ---------------------------------------------------------------------------------------

  /** How the root may change when one node is added: it rises only from under a horizontal link. */
  predicate Grown<S>(t: Tree<S>, t': Tree<S>) {
    && Balanced(t') && t'.Node?
    && (t.Nil? ==> t'.level == 1 && !Horizontal(t'))
    && (t.Node? ==> t'.level == t.level || (t'.level == t.level + 1 && Horizontal(t) && !Horizontal(t')))
  }

  lemma GrowRight<S>(t: Tree<S>, r: Tree<S>)
    requires t.Node? && Balanced(t) && Grown(t.right, r)
    ensures Grown(t, Split(Skew(t.(right := r))))
  {
    var k, t1 := t.level, t.(right := r);
    assert Skew(t1) == t1;
    if r.level == k && Horizontal(r) {
      assert Balanced(r.left) && Balanced(Node(k, t.left, t.item, r.left));
      assert Split(t1) == Node(k + 1, Node(k, t.left, t.item, r.left), r.item, r.right);
    } else {
      assert Split(t1) == t1;
    }
  }

  lemma GrowLeft<S>(t: Tree<S>, l: Tree<S>)
    requires t.Node? && Balanced(t) && Grown(t.left, l)
    ensures Grown(t, Split(Skew(t.(left := l))))
  {
  }

  /** Insertion keeps the AA invariants. */
  lemma {:induction false} InsertBalanced<S>(t: Tree<S>, x: Item<S>)
    requires Balanced(t)
    ensures Grown(t, Insert(t, x))
  {
    if t.Node? {
      if Less(t.item.rank, x.rank) {
        InsertBalanced(t.right, x);
        GrowRight(t, Insert(t.right, x));
      } else if Less(x.rank, t.item.rank) {
        InsertBalanced(t.left, x);
        GrowLeft(t, Insert(t.left, x));
      }
    }
  }

  /** How the root may change when one node is removed; a horizontal link is never created. */
  predicate Shrunk<S>(t: Tree<S>, t': Tree<S>) {
    && Balanced(t')
    && Level(t) - 1 <= Level(t') <= Level(t)
    && (Level(t') == Level(t) && Horizontal(t') ==> Horizontal(t))
  }

  /** Neither split of a rebalance raises a node above the level the root had before. */
  predicate SplitsStayBelow<S>(t: Tree<S>, k: nat)
    requires t.Node?
  {
    Level(Split(Straighten(t))) <= k && Level(Split(Split(Straighten(t)).right)) <= k
  }

  /** Rebalancing mends a node whose left subtree lost a level, when its right child is below it. */
  lemma RebalanceShortLeft<S>(t: Tree<S>, k: nat)
    requires t.Node? && t.level == k >= 2
    requires Balanced(t.left) && Balanced(t.right)
    requires Level(t.left) == k - 2 && Level(t.right) == k - 1
    ensures Shrunk(t, Rebalance(t)) && SplitsStayBelow(t, k)
  {
    var r := t.right;
    if Horizontal(r) {
      assert Rebalance(t) == Node(k, Node(k - 1, t.left, t.item, r.left), r.item, r.right);
    } else {
      assert Rebalance(t) == t.(level := k - 1);
    }
  }

  /** What the level decrease and the skews make of such a node when its right child is beside it. */
  lemma StraightenShortLeft<S>(t: Tree<S>, k: nat)
    requires t.Node? && t.level == k >= 2
    requires Balanced(t.right) && Level(t.left) == k - 2 && Level(t.right) == k && Level(t.right.right) == k - 1
    ensures var r := t.right; var q := r.left;
            Straighten(t) ==
              Node(k - 1, t.left, t.item,
                   Node(k - 1, q.left, q.item,
                        if Horizontal(q) then q.right.(right := Node(k - 1, q.right.right, r.item, r.right))
                        else Node(k - 1, q.right, r.item, r.right)))
  {
    var r := t.right;
    var q := r.left;
    assert Balanced(r.left) && Balanced(q.right);
    assert DecLevel(t) == Node(k - 1, t.left, t.item, r.(level := k - 1));
    assert Skew(r.(level := k - 1)) == Node(k - 1, q.left, q.item, Node(k - 1, q.right, r.item, r.right));
  }

  /** The same repair when the right child is beside it, with up to six nodes on one level midway. */
  lemma RebalanceShortLeftBeside<S>(t: Tree<S>, k: nat)
    requires t.Node? && t.level == k >= 2
    requires Balanced(t.left) && Balanced(t.right)
    requires Level(t.left) == k - 2 && Level(t.right) == k && Level(t.right.right) == k - 1
    ensures Shrunk(t, Rebalance(t)) && SplitsStayBelow(t, k)
  {
    StraightenShortLeft(t, k);
    var r := t.right;
    var q, w := r.left, r.right;
    var t' := Node(k - 1, t.left, t.item, q.left);
    assert Balanced(q) && Balanced(w) && Balanced(q.left) && Balanced(t');
    if Horizontal(q) {
      assert Split(Straighten(t)) ==
             Node(k, t', q.item, q.right.(right := Node(k - 1, q.right.right, r.item, w)));
      assert Balanced(Node(k, q.right, r.item, w));
      assert Rebalance(t) == Node(k, t', q.item, Node(k, q.right, r.item, w));
    } else {
      assert Split(Straighten(t)) == Node(k, t', q.item, Node(k - 1, q.right, r.item, w));
      if Horizontal(w) {
        var u := Node(k - 1, q.right, r.item, w.left);
        assert Balanced(w.left) && Balanced(u) && Balanced(Node(k, u, w.item, w.right));
        assert Rebalance(t) == Node(k, t', q.item, Node(k, u, w.item, w.right));
      } else {
        assert Balanced(Node(k - 1, q.right, r.item, w));
        assert Rebalance(t) == Node(k, t', q.item, Node(k - 1, q.right, r.item, w));
      }
    }
  }

  /** Rebalancing mends a node whose right subtree lost a level. */
  lemma RebalanceShortRight<S>(t: Tree<S>, k: nat)
    requires t.Node? && t.level == k >= 2
    requires Balanced(t.left) && Balanced(t.right)
    requires Level(t.left) == k - 1 && Level(t.right) == k - 2
    ensures Shrunk(t, Rebalance(t)) && SplitsStayBelow(t, k)
  {
    var l := t.left;
    if Horizontal(l) {
      var m := l.right;
      assert Straighten(t).right.right == Node(k - 1, m.right, t.item, t.right);
      var u, v := Node(k - 1, l.left, l.item, m.left), Node(k - 1, m.right, t.item, t.right);
      assert Balanced(m) && Balanced(m.left) && Balanced(u) && Balanced(v);
      assert Rebalance(t) == Node(k, u, m.item, v);
    } else {
      assert Rebalance(t) == Node(k - 1, l.left, l.item, Node(k - 1, l.right, t.item, t.right));
    }
  }

  /** Rebalancing leaves a balanced tree alone. */
  lemma RebalanceBalanced<S>(t: Tree<S>)
    requires Balanced(t)
    ensures Rebalance(t) == t
    ensures t.Node? ==> SplitsStayBelow(t, t.level)
  {
    if t.Node? {
      StepsKeepBalanced(t);
      StepsKeepBalanced(t.right);
      if t.right.Node? { StepsKeepBalanced(t.right.right); }
      hide Balanced;
      assert Straighten(t) == t;
    }
  }

  lemma StepsKeepBalanced<S>(t: Tree<S>)
    requires Balanced(t)
    ensures DecLevel(t) == t && Skew(t) == t && Split(t) == t
  {
  }

  lemma ShrinkLeft<S>(t: Tree<S>, l: Tree<S>, x: Item<S>)
    requires t.Node? && Balanced(t) && Shrunk(t.left, l)
    ensures Shrunk(t, Rebalance(t.(left := l, item := x)))
    ensures SplitsStayBelow(t.(left := l, item := x), t.level)
  {
    if Level(l) == Level(t.left) {
      RebalanceBalanced(t.(left := l, item := x));
    } else if Horizontal(t) {
      RebalanceShortLeftBeside(t.(left := l, item := x), t.level);
    } else {
      RebalanceShortLeft(t.(left := l, item := x), t.level);
    }
  }

  lemma ShrinkRight<S>(t: Tree<S>, r: Tree<S>, x: Item<S>)
    requires t.Node? && Balanced(t) && Shrunk(t.right, r)
    ensures Shrunk(t, Rebalance(t.(right := r, item := x)))
    ensures SplitsStayBelow(t.(right := r, item := x), t.level)
  {
    if t.level - 1 <= Level(r) {
      RebalanceBalanced(t.(right := r, item := x));
    } else {
      RebalanceShortRight(t.(right := r, item := x), t.level);
    }
  }

  /** Removal keeps the AA invariants. */
  lemma {:induction false} RemoveBalanced<S>(t: Tree<S>, r: Rank)
    requires Balanced(t)
    ensures Shrunk(t, Remove(t, r))
    decreases t, 1
  {
    if t.Nil? {
    } else if Less(t.item.rank, r) {
      RemoveBalanced(t.right, r);
      ShrinkRight(t, Remove(t.right, r), t.item);
    } else if Less(r, t.item.rank) {
      RemoveBalanced(t.left, r);
      ShrinkLeft(t, Remove(t.left, r), t.item);
    } else {
      RemoveNodeBalanced(t);
    }
  }

  lemma {:induction false} RemoveNodeBalanced<S>(t: Tree<S>)
    requires t.Node? && Balanced(t)
    ensures Shrunk(t, Rebalance(RemoveNode(t)))
    ensures RemoveNode(t).Node? ==> SplitsStayBelow(RemoveNode(t), t.level)
    decreases t, 0
  {
    if t.left.Node? {
      var pred := Rightmost(t.left);
      RemoveBalanced(t.left, pred.rank);
      ShrinkLeft(t, Remove(t.left, pred.rank), pred);
    } else if t.right.Node? {
      var succ := Leftmost(t.right);
      RemoveBalanced(t.right, succ.rank);
      ShrinkRight(t, Remove(t.right, succ.rank), succ);
    }
  }

  lemma InsertSize<S>(t: Tree<S>, x: Item<S>)
    ensures Size(Insert(t, x)) <= Size(t) + 1
  {
  }

  /** A balanced tree whose root is on level k holds at least 2^k - 1 nodes. */
  lemma {:induction false} LevelBound<S>(t: Tree<S>)
    requires Balanced(t)
    ensures Bit(Level(t)) <= Size(t) + 1
  {
    if t.Node? {
      LevelBound(t.left);
      LevelBound(t.right);
      BitMonotone(t.level - 1, Level(t.right));
    }
  }
}
