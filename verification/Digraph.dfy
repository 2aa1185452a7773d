/**
 The set propagation of the LALR generator (digraph and traverse in kernel/tools/yacc.py):
 F(x) = FP(x) united with F(y) for every y related to x, with each strongly connected component
 collapsed in one pass over a stack.

 FP returns Python lists, and traverse appends to the very list FP returned and shares it between
 the members of a component. Lists are therefore modelled by identity: FP(x) is a list identifier,
 and `lists` holds the present contents of each list.
 */
module Digraph {
  import opened Arithmetic

  const MAXINT: nat := 0x7fff_ffff_ffff_ffff

  /** The arguments of digraph: the nodes, R, FP, and the contents of FP's lists at the start. */
  datatype Graph<!T(==), A> = Graph(succ: map<T, seq<T>>, list: map<T, nat>, base: map<nat, seq<A>>)
  {
    ghost predicate WellFormed() {
      && succ.Keys == list.Keys && |succ| < MAXINT
      && (forall x, y :: x in succ && y in succ[x] ==> y in succ)
      && (forall x :: x in list ==> list[x] in base)
    }
  }

  ghost predicate Edge<T(!new), A(!new)>(g: Graph<T, A>, x: T, y: T) {
    x in g.succ && y in g.succ[x]
  }

  /** A step of the relation; with `wide`, also a step between two nodes whose FP lists are one list. */
  ghost predicate Step<T(!new), A(!new)>(g: Graph<T, A>, wide: bool, x: T, y: T) {
    || Edge(g, x, y)
    || (wide && x in g.list && y in g.list && g.list[x] == g.list[y])
  }

  ghost predicate IsPath<T(!new), A(!new)>(g: Graph<T, A>, wide: bool, p: seq<T>) {
    |p| > 0 && forall i :: 0 <= i < |p| - 1 ==> Step(g, wide, p[i], p[i + 1])
  }

  ghost predicate Reaches<T(!new), A(!new)>(g: Graph<T, A>, wide: bool, x: T, y: T) {
    exists p :: IsPath(g, wide, p) && p[0] == x && p[|p| - 1] == y
  }

  /** `a` is in FP(y) at the start, for some `y` that `x` reaches. */
  ghost predicate InUnion<T(!new), A(!new)>(g: Graph<T, A>, wide: bool, x: T, a: A)
    requires g.WellFormed()
  {
    exists y :: y in g.list && Reaches(g, wide, x, y) && a in g.base[g.list[y]]
  }

  // ---------------------------------------------------------------------------------------
  // Reachability
  // ---------------------------------------------------------------------------------------

  lemma ReachesSelf<T(!new), A(!new)>(g: Graph<T, A>, wide: bool, x: T)
    ensures Reaches(g, wide, x, x)
  {
    assert IsPath(g, wide, [x]);
  }

  lemma ReachesByStep<T(!new), A(!new)>(g: Graph<T, A>, wide: bool, x: T, y: T)
    requires Step(g, wide, x, y)
    ensures Reaches(g, wide, x, y)
  {
    var p := [x, y];
    assert IsPath(g, wide, p) && p[0] == x && p[1] == y;
  }

  lemma ReachesTrans<T(!new), A(!new)>(g: Graph<T, A>, wide: bool, x: T, y: T, z: T)
    requires Reaches(g, wide, x, y) && Reaches(g, wide, y, z)
    ensures Reaches(g, wide, x, z)
  {
    var p :| IsPath(g, wide, p) && p[0] == x && p[|p| - 1] == y;
    var q :| IsPath(g, wide, q) && q[0] == y && q[|q| - 1] == z;
    var r := p + q[1..];
    forall i | 0 <= i < |r| - 1 ensures Step(g, wide, r[i], r[i + 1]) {
      if i < |p| - 1 {
        assert r[i] == p[i] && r[i + 1] == p[i + 1];
      } else {
        assert r[i] == q[i - |p| + 1] && r[i + 1] == q[i - |p| + 2];
      }
    }
    assert r[0] == x && r[|r| - 1] == z;
  }

  lemma NarrowIsWide<T(!new), A(!new)>(g: Graph<T, A>, x: T, y: T)
    requires Reaches(g, false, x, y)
    ensures Reaches(g, true, x, y)
  {
    var p :| IsPath(g, false, p) && p[0] == x && p[|p| - 1] == y;
    assert IsPath(g, true, p);
  }

  lemma UnionBackwards<T(!new), A(!new)>(g: Graph<T, A>, wide: bool, x: T, y: T, a: A)
    requires g.WellFormed() && Reaches(g, wide, x, y) && InUnion(g, wide, y, a)
    ensures InUnion(g, wide, x, a)
  {
    var z :| z in g.list && Reaches(g, wide, y, z) && a in g.base[g.list[z]];
    ReachesTrans(g, wide, x, y, z);
  }

  /** Nodes whose FP lists are one list have the same union. */
  ghost predicate SharersAgree<T(!new), A(!new)>(g: Graph<T, A>)
    requires g.WellFormed()
  {
    forall y, z, a :: y in g.list && z in g.list && g.list[y] == g.list[z] && InUnion(g, false, y, a) ==>
                        InUnion(g, false, z, a)
  }

  /** That is so, in particular, if nodes share a list only with nodes of their own component. */
  lemma SharersInComponents<T(!new), A(!new)>(g: Graph<T, A>)
    requires g.WellFormed()
    requires forall y, z :: y in g.list && z in g.list && g.list[y] == g.list[z] ==> Reaches(g, false, z, y)
    ensures SharersAgree(g)
  {
    hide Reaches, InUnion;
    forall y, z, a | y in g.list && z in g.list && g.list[y] == g.list[z] && InUnion(g, false, y, a)
      ensures InUnion(g, false, z, a)
    {
      UnionBackwards(g, false, z, y, a);
    }
  }

  /** When nodes that share a list agree, the wide steps add nothing. */
  lemma WideAddsNothing<T(!new), A(!new)>(g: Graph<T, A>, x: T, a: A)
    requires g.WellFormed() && SharersAgree(g) && InUnion(g, true, x, a)
    ensures InUnion(g, false, x, a)
  {
    var y :| y in g.list && Reaches(g, true, x, y) && a in g.base[g.list[y]];
    var p :| IsPath(g, true, p) && p[0] == x && p[|p| - 1] == y;
    NarrowPath(g, p, a);
  }

  lemma {:induction false} NarrowPath<T(!new), A(!new)>(g: Graph<T, A>, p: seq<T>, a: A)
    requires g.WellFormed() && SharersAgree(g) && IsPath(g, true, p)
    requires p[|p| - 1] in g.list && a in g.base[g.list[p[|p| - 1]]]
    ensures InUnion(g, false, p[0], a)
    decreases |p|
  {
    if |p| == 1 {
      ReachesSelf(g, false, p[0]);
    } else {
      NarrowPath(g, p[1..], a);
      assert Step(g, true, p[0], p[1]);
      if Edge(g, p[0], p[1]) {
        ReachesByStep(g, false, p[0], p[1]);
        UnionBackwards(g, false, p[0], p[1], a);
      }
    }
  }

  // ---------------------------------------------------------------------------------------
  // The state of a traversal
  // ---------------------------------------------------------------------------------------

  /** N, F, the contents of the lists, and the stack. */
  datatype State<!T(==), A> = State(n: map<T, nat>, f: map<T, nat>, lists: map<nat, seq<A>>, stack: seq<T>)

  ghost function Whites<T(!new), A(!new)>(s: State<T, A>): set<T> {
    set y | y in s.n && s.n[y] == 0
  }

  /** Stacked nodes are numbered no higher than their position, and reach the node at that number. */
  ghost predicate StackOk<T(!new), A(!new)>(g: Graph<T, A>, s: State<T, A>) {
    && (forall i, j :: 0 <= i < j < |s.stack| ==> s.stack[i] != s.stack[j])
    && (forall i :: 0 <= i < |s.stack| ==>
          && s.stack[i] in s.n && 1 <= s.n[s.stack[i]] <= i + 1
          && Reaches(g, false, s.stack[i], s.stack[s.n[s.stack[i]] - 1]))
    && (forall y :: y in s.n ==> s.n[y] == 0 || s.n[y] == MAXINT || y in s.stack)
  }

  /** The list F gives a finished node holds all it should. */
  ghost predicate Complete<T(!new), A(!new)>(g: Graph<T, A>, y: T, items: seq<A>)
    requires g.WellFormed()
  {
    forall a :: InUnion(g, false, y, a) ==> a in items
  }

  ghost predicate DoneOk<T(!new), A(!new)>(g: Graph<T, A>, s: State<T, A>)
    requires g.WellFormed()
  {
    forall y :: y in s.n && s.n[y] == MAXINT ==>
      && (forall z :: Edge(g, y, z) ==> z in s.n && s.n[z] == MAXINT)
      && y in s.f && s.f[y] in s.lists && Complete(g, y, s.lists[s.f[y]])
  }

  /** The list `id` is FP's for some node of the component of `y`. */
  ghost predicate Owner<T(!new), A(!new)>(g: Graph<T, A>, y: T, id: nat) {
    exists w :: w in g.list && id == g.list[w] && Reaches(g, false, y, w) && Reaches(g, false, w, y)
  }

  /** No list holds more than the wide relation accounts for. */
  ghost predicate ListsOk<T(!new), A(!new)>(g: Graph<T, A>, s: State<T, A>)
    requires g.WellFormed()
  {
    && s.lists.Keys == g.base.Keys
    && (forall id, a :: id in g.base && a in g.base[id] ==> a in s.lists[id])
    && (forall y, a :: y in g.list && a in s.lists[g.list[y]] ==> InUnion(g, true, y, a))
    && (forall y :: y in s.f ==> Owner(g, y, s.f[y]))
  }

  /** The finished nodes of one component have one list. */
  ghost predicate SameLists<T(!new), A(!new)>(g: Graph<T, A>, s: State<T, A>) {
    forall y, z :: Finished(s, y) && Finished(s, z) && Mutual(g, y, z) ==> s.f[y] == s.f[z]
  }

  ghost predicate Finished<T(!new), A(!new)>(s: State<T, A>, y: T) {
    y in s.n && s.n[y] == MAXINT && y in s.f
  }

  ghost predicate Mutual<T(!new), A(!new)>(g: Graph<T, A>, y: T, z: T) {
    Reaches(g, false, y, z) && Reaches(g, false, z, y)
  }

  ghost predicate Inv<T(!new), A(!new)>(g: Graph<T, A>, s: State<T, A>) {
    && g.WellFormed()
    && s.n.Keys == g.succ.Keys
    && (forall y :: y in s.f <==> y in s.n && s.n[y] != 0)
    && StackOk(g, s) && DoneOk(g, s) && ListsOk(g, s) && SameLists(g, s)
  }

  /** The relation, as far as the loop over the first `j` successors of `x` has seen it. */
  ghost predicate SeenEdge<T(!new), A(!new)>(g: Graph<T, A>, x: T, j: nat, u: T, z: T)
    requires x in g.succ && j <= |g.succ[x]|
  {
    if u == x then z in g.succ[x][..j] else Edge(g, u, z)
  }

  /** From position `d` up the stack holds `x` and nodes that reach each other with `x`. */
  ghost predicate OneComponent<T(!new), A(!new)>(g: Graph<T, A>, s: State<T, A>, d: nat, x: T) {
    && d < |s.stack| && s.stack[d] == x
    && forall k :: d <= k < |s.stack| ==> Reaches(g, false, x, s.stack[k]) && Reaches(g, false, s.stack[k], x)
  }

  /** Where `z` occurs in the first `d` places of the stack, it does so at height `low` or above. */
  ghost predicate NotBelow<T(!new)>(stack: seq<T>, d: nat, z: T, low: nat) {
    forall i :: 0 <= i < d && i < |stack| && stack[i] == z ==> low <= i + 1
  }

  /** Their seen successors are visited, and those stacked below `d` are at `low` or above. */
  ghost predicate Closed<T(!new), A(!new)>(g: Graph<T, A>, s: State<T, A>, d: nat, x: T, j: nat, low: nat)
    requires x in g.succ && j <= |g.succ[x]|
  {
    forall k, z :: d <= k < |s.stack| && SeenEdge(g, x, j, s.stack[k], z) ==>
      z in s.n && s.n[z] != 0 && NotBelow(s.stack, d, z, low)
  }

  /** `items` holds their FP sets and the sets of their finished seen successors. */
  ghost predicate Collected<T(!new), A(!new)>(g: Graph<T, A>, s: State<T, A>, d: nat, x: T, j: nat, items: seq<A>)
    requires g.WellFormed() && x in g.succ && j <= |g.succ[x]|
  {
    && (forall k :: d <= k < |s.stack| ==> s.stack[k] in g.list)
    && (forall k, a :: d <= k < |s.stack| && a in g.base[g.list[s.stack[k]]] ==> a in items)
    && (forall k, z :: d <= k < |s.stack| && SeenEdge(g, x, j, s.stack[k], z) && z in s.n && s.n[z] == MAXINT ==>
          Complete(g, z, items))
  }

  /** Traversal of `x`, pushed at position `d`, has dealt with the first `j` successors. */
  ghost predicate Progress<T(!new), A(!new)>(g: Graph<T, A>, s: State<T, A>, d: nat, x: T, j: nat) {
    && g.WellFormed() && x in g.succ && j <= |g.succ[x]| && x in s.n && x in s.f && s.f[x] in s.lists
    && OneComponent(g, s, d, x)
    && Closed(g, s, d, x, j, s.n[x])
    && Collected(g, s, d, x, j, s.lists[s.f[x]])
  }

  /** What no traversal undoes: the stack below, the entries of visited nodes, the contents of lists. */
  ghost predicate Extends<T(!new), A(!new)>(s: State<T, A>, s': State<T, A>) {
    && |s.stack| <= |s'.stack| && s'.stack[..|s.stack|] == s.stack
    && s'.n.Keys == s.n.Keys && s'.lists.Keys == s.lists.Keys
    && (forall y :: y in s.n && s.n[y] != 0 ==> s'.n[y] == s.n[y])
    && (forall y :: y in s.f ==> y in s'.f && s'.f[y] == s.f[y])
    && (forall id, a :: id in s.lists && a in s.lists[id] ==> a in s'.lists[id])
  }

  /** Everything on the stack reaches `x`. */
  ghost predicate StackReaches<T(!new), A(!new)>(g: Graph<T, A>, stack: seq<T>, x: T) {
    forall i :: 0 <= i < |stack| ==> Reaches(g, false, stack[i], x)
  }

  /** What a traversal of the white node `x` that starts in `s` achieves. */
  ghost predicate Traversed<T(!new), A(!new)>(g: Graph<T, A>, s: State<T, A>, s': State<T, A>, x: T) {
    && Inv(g, s') && Extends(s, s') && x in s'.n && x in g.succ
    && (|| (s'.n[x] == MAXINT && s'.stack == s.stack)
        || (1 <= s'.n[x] <= |s.stack| && Progress(g, s', |s.stack|, x, |g.succ[x]|)))
  }

  // ---------------------------------------------------------------------------------------
  // The steps of traverse
  // ---------------------------------------------------------------------------------------

  function Pushed<T(!new), A(!new)>(g: Graph<T, A>, s: State<T, A>, x: T): State<T, A>
    requires x in g.list
  {
    State(s.n[x := |s.stack| + 1], s.f[x := g.list[x]], s.lists, s.stack + [x])
  }

  lemma {:induction false} DistinctFits<T>(q: seq<T>, all: set<T>)
    requires forall i, j :: 0 <= i < j < |q| ==> q[i] != q[j]
    requires forall i :: 0 <= i < |q| ==> q[i] in all
    ensures |q| <= |all|
  {
    if |q| > 0 {
      var x := q[|q| - 1];
      DistinctFits(q[..|q| - 1], all - {x});
    }
  }

  lemma StackFits<T(!new), A(!new)>(g: Graph<T, A>, s: State<T, A>)
    requires Inv(g, s)
    ensures |s.stack| < MAXINT
    ensures forall x :: x in s.n && s.n[x] == 0 ==> |s.stack| + 1 < MAXINT
  {
    DistinctFits(s.stack, s.n.Keys);
    assert |s.n.Keys| == |g.succ.Keys| == |g.succ|;
    forall x | x in s.n && s.n[x] == 0 ensures |s.stack| + 1 < MAXINT {
      DistinctFits(s.stack + [x], s.n.Keys);
    }
  }

  lemma PushStack<T(!new), A(!new)>(g: Graph<T, A>, s: State<T, A>, x: T)
    requires StackOk(g, s) && x in s.n && s.n[x] == 0 && x in g.list
    ensures StackOk(g, Pushed(g, s, x))
  {
    var s' := Pushed(g, s, x);
    ReachesSelf(g, false, x);
    hide Reaches;
    forall i | 0 <= i < |s'.stack|
      ensures s'.stack[i] in s'.n && 1 <= s'.n[s'.stack[i]] <= i + 1
      ensures Reaches(g, false, s'.stack[i], s'.stack[s'.n[s'.stack[i]] - 1])
    {
      if i < |s.stack| { assert s'.stack[i] == s.stack[i]; }
    }
    forall y | y in s'.n ensures s'.n[y] == 0 || s'.n[y] == MAXINT || y in s'.stack {
      if y != x && y in s.stack { assert y in s'.stack; }
    }
  }

  lemma PushLists<T(!new), A(!new)>(g: Graph<T, A>, s: State<T, A>, x: T)
    requires g.WellFormed() && ListsOk(g, s) && x in g.list
    ensures ListsOk(g, Pushed(g, s, x))
  {
    hide Reaches, InUnion;
    ReachesSelf(g, true, x);
    ReachesSelf(g, false, x);
    assert Owner(g, x, g.list[x]);
    hide Owner;
  }

  lemma PushDone<T(!new), A(!new)>(g: Graph<T, A>, s: State<T, A>, x: T)
    requires g.WellFormed() && DoneOk(g, s) && x in s.n && s.n[x] == 0 && x in g.list && |s.stack| + 1 < MAXINT
    ensures DoneOk(g, Pushed(g, s, x))
  {
    hide Complete, Edge;
  }

  lemma PushSame<T(!new), A(!new)>(g: Graph<T, A>, s: State<T, A>, x: T)
    requires SameLists(g, s) && x in s.n && s.n[x] == 0 && x in g.list && |s.stack| + 1 < MAXINT
    ensures SameLists(g, Pushed(g, s, x))
  {
    hide Mutual;
    var s' := Pushed(g, s, x);
    forall y | Finished(s', y) ensures Finished(s, y) && s'.f[y] == s.f[y] {
    }
  }

  lemma PushExtends<T(!new), A(!new)>(g: Graph<T, A>, s: State<T, A>, x: T)
    requires x in s.n && s.n[x] == 0 && x in g.list && x !in s.f
    ensures Extends(s, Pushed(g, s, x))
  {
  }

  lemma PushInv<T(!new), A(!new)>(g: Graph<T, A>, s: State<T, A>, x: T)
    requires Inv(g, s) && x in s.n && s.n[x] == 0
    ensures Inv(g, Pushed(g, s, x)) && Extends(s, Pushed(g, s, x))
  {
    hide StackOk, DoneOk, ListsOk, SameLists, Extends;
    StackFits(g, s);
    PushStack(g, s, x);
    PushLists(g, s, x);
    PushDone(g, s, x);
    PushSame(g, s, x);
    PushExtends(g, s, x);
  }

  lemma PushProgress<T(!new), A(!new)>(g: Graph<T, A>, s: State<T, A>, x: T)
    requires Inv(g, s) && x in s.n && s.n[x] == 0
    ensures Progress(g, Pushed(g, s, x), |s.stack|, x, 0)
  {
    hide Reaches, StackOk, DoneOk, Complete, InUnion, Owner;
    ReachesSelf(g, false, x);
    assert |s.stack + [x]| == |s.stack| + 1;
  }

  /**
   The successor `y` has been visited: what holds of the stack from `d` up once N[x] is lowered to
   N[y] and F[y] is merged into F[x].
   */
  ghost predicate Pending<T(!new), A(!new)>(g: Graph<T, A>, s: State<T, A>, d: nat, x: T, j: nat, y: T) {
    && g.WellFormed() && x in g.succ && j < |g.succ[x]| && y == g.succ[x][j]
    && x in s.n && x in s.f && s.f[x] in s.lists && y in s.n && s.n[y] != 0 && y in s.f && s.f[y] in s.lists
    && OneComponent(g, s, d, x)
    && Closed(g, s, d, x, j + 1, Min(s.n[x], s.n[y]))
    && Collected(g, s, d, x, j + 1, s.lists[s.f[x]] + s.lists[s.f[y]])
  }

  lemma SeenNext<T(!new), A(!new)>(g: Graph<T, A>, x: T, j: nat, u: T, z: T)
    requires x in g.succ && j < |g.succ[x]|
    ensures SeenEdge(g, x, j + 1, u, z) <==> SeenEdge(g, x, j, u, z) || (u == x && z == g.succ[x][j])
  {
    assert g.succ[x][..j + 1] == g.succ[x][..j] + [g.succ[x][j]];
  }

  lemma CompleteMore<T(!new), A(!new)>(g: Graph<T, A>, z: T, items: seq<A>, more: seq<A>)
    requires g.WellFormed() && Complete(g, z, items) && forall a :: a in items ==> a in more
    ensures Complete(g, z, more)
  {
  }

  lemma FIsListed<T(!new), A(!new)>(g: Graph<T, A>, s: State<T, A>, y: T)
    requires Inv(g, s) && y in s.f
    ensures s.f[y] in s.lists
  {
    assert Owner(g, y, s.f[y]);
  }

  lemma ClosedNext<T(!new), A(!new)>(g: Graph<T, A>, s: State<T, A>, d: nat, x: T, j: nat, y: T)
    requires x in g.succ && j < |g.succ[x]| && y == g.succ[x][j] && x in s.n && y in s.n && s.n[y] != 0
    requires forall i :: 0 <= i < |s.stack| ==> s.stack[i] in s.n && s.n[s.stack[i]] <= i + 1
    requires Closed(g, s, d, x, j, s.n[x])
    ensures Closed(g, s, d, x, j + 1, Min(s.n[x], s.n[y]))
  {
    hide SeenEdge;
    forall k, z | d <= k < |s.stack| && SeenEdge(g, x, j + 1, s.stack[k], z)
      ensures z in s.n && s.n[z] != 0
      ensures NotBelow(s.stack, d, z, Min(s.n[x], s.n[y]))
    {
      SeenNext(g, x, j, s.stack[k], z);
    }
  }

  lemma CollectedNext<T(!new), A(!new)>(g: Graph<T, A>, s: State<T, A>, d: nat, x: T, j: nat, y: T, items: seq<A>,
                                        more: seq<A>)
    requires g.WellFormed() && x in g.succ && j < |g.succ[x]| && y == g.succ[x][j] && y in s.n
    requires Collected(g, s, d, x, j, items) && (s.n[y] == MAXINT ==> Complete(g, y, more))
    ensures Collected(g, s, d, x, j + 1, items + more)
  {
    hide SeenEdge, Complete;
    forall k, z | d <= k < |s.stack| && SeenEdge(g, x, j + 1, s.stack[k], z) && z in s.n && s.n[z] == MAXINT
      ensures Complete(g, z, items + more)
    {
      SeenNext(g, x, j, s.stack[k], z);
      if SeenEdge(g, x, j, s.stack[k], z) {
        CompleteMore(g, z, items, items + more);
      } else {
        CompleteMore(g, z, more, items + more);
      }
    }
  }

  /** The case that the successor was visited before. */
  lemma PendingVisited<T(!new), A(!new)>(g: Graph<T, A>, s: State<T, A>, d: nat, x: T, j: nat, y: T)
    requires Inv(g, s) && Progress(g, s, d, x, j) && j < |g.succ[x]| && y == g.succ[x][j] && s.n[y] != 0
    ensures Pending(g, s, d, x, j, y)
  {
    hide Reaches, Owner, Complete, SeenEdge, Closed, Collected, OneComponent, ListsOk, SameLists;
    FIsListed(g, s, y);
    ClosedNext(g, s, d, x, j, y);
    CollectedNext(g, s, d, x, j, y, s.lists[s.f[x]], s.lists[s.f[y]]);
  }

  // The case that the successor was white and has just been traversed, from `s` to `s'`.

  lemma StackReachesNext<T(!new), A(!new)>(g: Graph<T, A>, s: State<T, A>, d: nat, x: T, y: T)
    requires OneComponent(g, s, d, x) && StackReaches(g, s.stack[..d], x) && Edge(g, x, y)
    ensures StackReaches(g, s.stack, x) && StackReaches(g, s.stack, y)
  {
    hide Reaches;
    ReachesByStep(g, false, x, y);
    forall i | 0 <= i < |s.stack| ensures Reaches(g, false, s.stack[i], x) && Reaches(g, false, s.stack[i], y) {
      if i < d { assert s.stack[..d][i] == s.stack[i]; }
      ReachesTrans(g, false, s.stack[i], x, y);
    }
  }

  /** The nodes left on the stack by the child belong to the parent's component. */
  lemma ChildComponent<T(!new), A(!new)>(g: Graph<T, A>, s: State<T, A>, s': State<T, A>, d: nat, x: T, y: T)
    requires OneComponent(g, s, d, x) && StackReaches(g, s.stack, x) && Edge(g, x, y)
    requires Extends(s, s') && StackOk(g, s')
    requires y in s'.n && 1 <= s'.n[y] <= |s.stack| && OneComponent(g, s', |s.stack|, y)
    ensures OneComponent(g, s', d, x)
  {
    hide Reaches;
    ReachesByStep(g, false, x, y);
    assert s'.stack[|s.stack|] == y;
    var w := s'.stack[s'.n[y] - 1];
    assert w == s'.stack[..|s.stack|][s'.n[y] - 1] == s.stack[s'.n[y] - 1];
    ReachesTrans(g, false, y, w, x);
    forall k | d <= k < |s'.stack| ensures Reaches(g, false, x, s'.stack[k]) && Reaches(g, false, s'.stack[k], x) {
      if k < |s.stack| {
        assert s'.stack[k] == s'.stack[..|s.stack|][k] == s.stack[k];
      } else {
        ReachesTrans(g, false, x, y, s'.stack[k]);
        ReachesTrans(g, false, s'.stack[k], y, x);
      }
    }
  }

  /** The child `y`, traversed from `s` to `s'`, is finished, or on the stack with all its successors seen. */
  ghost predicate ChildDone<T(!new), A(!new)>(g: Graph<T, A>, s: State<T, A>, s': State<T, A>, y: T) {
    && y in g.succ && y in s'.n
    && ((s'.n[y] == MAXINT && s'.stack == s.stack) || Closed(g, s', |s.stack|, y, |g.succ[y]|, s'.n[y]))
  }

  lemma NotBelowCarries<T(!new)>(stack: seq<T>, e: nat, low: nat, stack': seq<T>, d: nat, low': nat, z: T)
    requires NotBelow(stack, e, z, low) && d <= e && low' <= low && d <= |stack| && d <= |stack'|
    requires stack'[..d] == stack[..d]
    ensures NotBelow(stack', d, z, low')
  {
    forall i | 0 <= i < d && stack'[i] == z ensures low' <= i + 1 {
      assert stack'[..d][i] == stack[..d][i];
      assert stack[i] == z;
    }
  }

  lemma WhiteNotBelow<T(!new), A(!new)>(g: Graph<T, A>, s: State<T, A>, s': State<T, A>, d: nat, y: T, low: nat)
    requires StackOk(g, s) && Extends(s, s') && y in s.n && s.n[y] == 0 && d <= |s.stack|
    ensures NotBelow(s'.stack, d, y, low)
  {
    hide Reaches;
    forall i | 0 <= i < d ensures s'.stack[i] != y {
      assert s'.stack[i] == s'.stack[..|s.stack|][i] == s.stack[i];
    }
  }

  /** A seen edge of the parent's part of the stack, after the child has been traversed. */
  lemma ChildClosedOld<T(!new), A(!new)>(g: Graph<T, A>, s: State<T, A>, s': State<T, A>, d: nat, x: T, j: nat, y: T,
                                         k: nat, z: T)
    requires x in g.succ && j < |g.succ[x]| && y == g.succ[x][j] && d <= k < |s.stack|
    requires x in s.n && y in s.n && s.n[y] == 0 && Extends(s, s') && StackOk(g, s) && s'.n[y] != 0
    requires Closed(g, s, d, x, j, s.n[x]) && SeenEdge(g, x, j + 1, s.stack[k], z)
    ensures z in s'.n && s'.n[z] != 0 && NotBelow(s'.stack, d, z, Min(s.n[x], s'.n[y]))
  {
    hide StackOk, SeenEdge, NotBelow;
    SeenNext(g, x, j, s.stack[k], z);
    if SeenEdge(g, x, j, s.stack[k], z) {
      assert s'.stack[..d] == s'.stack[..|s.stack|][..d] == s.stack[..d];
      NotBelowCarries(s.stack, d, s.n[x], s'.stack, d, Min(s.n[x], s'.n[y]), z);
    } else {
      WhiteNotBelow(g, s, s', d, y, Min(s.n[x], s'.n[y]));
    }
  }

  /** An edge of a node that the child has left on the stack. */
  lemma ChildClosedNew<T(!new), A(!new)>(g: Graph<T, A>, s: State<T, A>, s': State<T, A>, d: nat, y: T, k: nat, z: T,
                                         low: nat)
    requires y in g.succ && y in s'.n && |s.stack| <= k < |s'.stack| && d <= |s.stack|
    requires Closed(g, s', |s.stack|, y, |g.succ[y]|, s'.n[y]) && Edge(g, s'.stack[k], z) && low <= s'.n[y]
    ensures z in s'.n && s'.n[z] != 0 && NotBelow(s'.stack, d, z, low)
  {
    assert SeenEdge(g, y, |g.succ[y]|, s'.stack[k], z);
    hide NotBelow;
    NotBelowCarries(s'.stack, |s.stack|, s'.n[y], s'.stack, d, low, z);
  }

  lemma SeenIsEdge<T(!new), A(!new)>(g: Graph<T, A>, x: T, j: nat, u: T, z: T)
    requires x in g.succ && j <= |g.succ[x]| && SeenEdge(g, x, j, u, z)
    ensures Edge(g, u, z)
  {
  }

  lemma ChildClosed<T(!new), A(!new)>(g: Graph<T, A>, s: State<T, A>, s': State<T, A>, d: nat, x: T, j: nat, y: T)
    requires x in g.succ && j < |g.succ[x]| && y == g.succ[x][j] && d < |s.stack| && s.stack[d] == x
    requires x in s.n && s.n[x] != 0 && y in s.n && s.n[y] == 0 && Extends(s, s') && StackOk(g, s) && StackOk(g, s')
    requires Closed(g, s, d, x, j, s.n[x]) && ChildDone(g, s, s', y) && s'.n[y] != 0
    ensures Closed(g, s', d, x, j + 1, Min(s'.n[x], s'.n[y]))
  {
    hide Reaches, NotBelow, StackOk, SeenEdge;
    var low := Min(s'.n[x], s'.n[y]);
    forall k, z | d <= k < |s'.stack| && SeenEdge(g, x, j + 1, s'.stack[k], z)
      ensures z in s'.n && s'.n[z] != 0 && NotBelow(s'.stack, d, z, low)
    {
      if k < |s.stack| {
        assert s'.stack[k] == s'.stack[..|s.stack|][k] == s.stack[k];
        ChildClosedOld(g, s, s', d, x, j, y, k, z);
      } else {
        SeenIsEdge(g, x, j + 1, s'.stack[k], z);
        ChildClosedNew(g, s, s', d, y, k, z, low);
      }
    }
  }

  lemma ChildCollected<T(!new), A(!new)>(g: Graph<T, A>, s: State<T, A>, s': State<T, A>, d: nat, x: T, j: nat, y: T,
                                         items: seq<A>, items': seq<A>, more: seq<A>)
    requires g.WellFormed() && x in g.succ && j < |g.succ[x]| && y == g.succ[x][j] && d < |s.stack| && s.stack[d] == x
    requires Extends(s, s') && StackOk(g, s')
    requires Closed(g, s, d, x, j, s.n[x]) && x in s.n
    requires Collected(g, s, d, x, j, items) && forall a :: a in items ==> a in items'
    requires y in s'.n && (s'.n[y] == MAXINT ==> Complete(g, y, more))
    requires s'.stack == s.stack || Collected(g, s', |s.stack|, y, |g.succ[y]|, more)
    ensures Collected(g, s', d, x, j + 1, items' + more)
  {
    hide Reaches, Complete, NotBelow;
    forall k | d <= k < |s'.stack|
      ensures s'.stack[k] in g.list && forall a :: a in g.base[g.list[s'.stack[k]]] ==> a in items' + more
    {
      if k < |s.stack| { assert s'.stack[k] == s'.stack[..|s.stack|][k] == s.stack[k]; }
    }
    forall k, z | d <= k < |s'.stack| && SeenEdge(g, x, j + 1, s'.stack[k], z) && z in s'.n && s'.n[z] == MAXINT
      ensures Complete(g, z, items' + more)
    {
      if k >= |s.stack| {
        assert s'.stack[d] == s'.stack[..|s.stack|][d] && s'.stack[k] != s'.stack[d];
        CollectedNew(g, s, s', y, k, z, items', more);
      } else {
        assert s'.stack[k] == s'.stack[..|s.stack|][k] == s.stack[k];
        CollectedOld(g, s, s', d, x, j, y, k, z, items, items', more);
      }
    }
  }

  lemma CollectedNew<T(!new), A(!new)>(g: Graph<T, A>, s: State<T, A>, s': State<T, A>, y: T, k: nat, z: T,
                                       items': seq<A>, more: seq<A>)
    requires g.WellFormed() && y in g.succ && Collected(g, s', |s.stack|, y, |g.succ[y]|, more)
    requires |s.stack| <= k < |s'.stack| && Edge(g, s'.stack[k], z) && z in s'.n && s'.n[z] == MAXINT
    ensures Complete(g, z, items' + more)
  {
    hide Complete;
    assert SeenEdge(g, y, |g.succ[y]|, s'.stack[k], z);
    CompleteMore(g, z, more, items' + more);
  }

  lemma CollectedOld<T(!new), A(!new)>(g: Graph<T, A>, s: State<T, A>, s': State<T, A>, d: nat, x: T, j: nat, y: T,
                                       k: nat, z: T, items: seq<A>, items': seq<A>, more: seq<A>)
    requires g.WellFormed() && x in g.succ && j < |g.succ[x]| && y == g.succ[x][j] && d <= k < |s.stack|
    requires Extends(s, s') && x in s.n && Closed(g, s, d, x, j, s.n[x])
    requires Collected(g, s, d, x, j, items) && forall a :: a in items ==> a in items'
    requires SeenEdge(g, x, j + 1, s.stack[k], z) && z in s'.n && s'.n[z] == MAXINT
    requires y in s'.n && (s'.n[y] == MAXINT ==> Complete(g, y, more))
    ensures Complete(g, z, items' + more)
  {
    hide Complete, SeenEdge, NotBelow;
    SeenNext(g, x, j, s.stack[k], z);
    if SeenEdge(g, x, j, s.stack[k], z) {
      assert s.n[z] == MAXINT;
      CompleteMore(g, z, items, items' + more);
    } else {
      CompleteMore(g, z, more, items' + more);
    }
  }

  lemma PendingChild<T(!new), A(!new)>(g: Graph<T, A>, s: State<T, A>, s': State<T, A>, d: nat, x: T, j: nat, y: T)
    requires Inv(g, s) && Progress(g, s, d, x, j) && j < |g.succ[x]| && y == g.succ[x][j] && s.n[y] == 0
    requires StackReaches(g, s.stack, x) && Traversed(g, s, s', y)
    ensures Pending(g, s', d, x, j, y)
  {
    hide Reaches, Closed, Collected, ListsOk, SameLists, StackReaches, Extends, StackOk, OneComponent, DoneOk;
    assert Edge(g, x, y);
    StackFits(g, s);
    ChildEntries(g, s, s', d, x, y);
    FIsListed(g, s', y);
    if s'.n[y] != MAXINT {
      ChildComponent(g, s, s', d, x, y);
    }
    ChildClosed(g, s, s', d, x, j, y);
    ChildCollected(g, s, s', d, x, j, y, s.lists[s.f[x]], s'.lists[s'.f[x]], s'.lists[s'.f[y]]);
  }

  lemma ChildEntries<T(!new), A(!new)>(g: Graph<T, A>, s: State<T, A>, s': State<T, A>, d: nat, x: T, y: T)
    requires Inv(g, s) && OneComponent(g, s, d, x) && x in s.f && s.f[x] in s.lists && Traversed(g, s, s', y)
    ensures d < |s.stack| && s.stack[d] == x && x in s.n && s.n[x] != 0
    ensures x in s'.n && s'.n[x] == s.n[x] && x in s'.f && s'.f[x] == s.f[x] && s'.f[x] in s'.lists
    ensures forall a :: a in s.lists[s.f[x]] ==> a in s'.lists[s'.f[x]]
    ensures y in s'.n && y in s'.f && s'.n[y] != 0
    ensures s'.n[y] == MAXINT ==> s'.f[y] in s'.lists && Complete(g, y, s'.lists[s'.f[y]])
    ensures s'.stack == s.stack ==> OneComponent(g, s', d, x)
  {
    hide Reaches, Closed, Collected, ListsOk, SameLists, StackOk, Complete;
  }

  // N[x] = min(N[x], N[y])

  function Lowered<T(!new), A(!new)>(s: State<T, A>, x: T, y: T): State<T, A>
    requires x in s.n && y in s.n
  {
    s.(n := s.n[x := Min(s.n[x], s.n[y])])
  }

  lemma LowerReaches<T(!new), A(!new)>(g: Graph<T, A>, s: State<T, A>, d: nat, x: T, y: T)
    requires StackOk(g, s) && d < |s.stack| < MAXINT && s.stack[d] == x && Edge(g, x, y)
    requires x in s.n && y in s.n && 0 != s.n[y] < s.n[x]
    ensures 1 <= s.n[y] <= |s.stack| && Reaches(g, false, x, s.stack[s.n[y] - 1])
  {
    hide Reaches;
    assert y in s.stack;
    var i :| 0 <= i < |s.stack| && s.stack[i] == y;
    ReachesByStep(g, false, x, y);
    ReachesTrans(g, false, x, y, s.stack[s.n[y] - 1]);
  }

  lemma LowerStack<T(!new), A(!new)>(g: Graph<T, A>, s: State<T, A>, d: nat, x: T, y: T)
    requires StackOk(g, s) && d < |s.stack| < MAXINT && s.stack[d] == x && Edge(g, x, y)
    requires x in s.n && y in s.n && s.n[y] != 0
    ensures StackOk(g, Lowered(s, x, y)) && 1 <= Lowered(s, x, y).n[x] <= d + 1
  {
    hide Reaches, Edge;
    var s' := Lowered(s, x, y);
    if s.n[y] < s.n[x] {
      LowerReaches(g, s, d, x, y);
    }
    forall i | 0 <= i < |s'.stack|
      ensures s'.stack[i] in s'.n && 1 <= s'.n[s'.stack[i]] <= i + 1
      ensures Reaches(g, false, s'.stack[i], s'.stack[s'.n[s'.stack[i]] - 1])
    {
      if i != d { assert s'.stack[i] != x; }
    }
  }

  lemma LowerInv<T(!new), A(!new)>(g: Graph<T, A>, s: State<T, A>, d: nat, x: T, j: nat, y: T)
    requires Inv(g, s) && Pending(g, s, d, x, j, y)
    ensures Inv(g, Lowered(s, x, y)) && 1 <= Lowered(s, x, y).n[x] <= d + 1
  {
    hide Reaches, Complete, Closed, Collected, Owner, InUnion, StackOk, SameLists;
    StackFits(g, s);
    assert Edge(g, x, y);
    LowerStack(g, s, d, x, y);
    NotDone(g, s, d);
    LowerSame(g, s, x, y);
  }

  lemma LowerSame<T(!new), A(!new)>(g: Graph<T, A>, s: State<T, A>, x: T, y: T)
    requires SameLists(g, s) && x in s.n && y in s.n && s.n[x] < MAXINT
    ensures SameLists(g, Lowered(s, x, y))
  {
    hide Mutual;
    var s' := Lowered(s, x, y);
    forall z | Finished(s', z) ensures Finished(s, z) && s'.f[z] == s.f[z] {
    }
  }

  lemma NotDone<T(!new), A(!new)>(g: Graph<T, A>, s: State<T, A>, d: nat)
    requires StackOk(g, s) && d < |s.stack| < MAXINT
    ensures s.stack[d] in s.n && 0 < s.n[s.stack[d]] < MAXINT
  {
  }

  // Merging the list F[y] into the list F[x]

  /** `merged` is the list `to` after every element of the list `from` has been added to it. */
  ghost predicate IsMerge<A(!new)>(to: seq<A>, from: seq<A>, merged: seq<A>) {
    forall a :: a in merged <==> a in to || a in from
  }

  lemma MergeLists<T(!new), A(!new)>(g: Graph<T, A>, s: State<T, A>, x: T, y: T, merged: seq<A>)
    requires g.WellFormed() && ListsOk(g, s) && Edge(g, x, y) && x in g.list && x in s.f && y in s.f
    requires s.f[x] in s.lists && s.f[y] in s.lists && s.f[x] == g.list[x]
    requires IsMerge(s.lists[s.f[x]], s.lists[s.f[y]], merged)
    ensures ListsOk(g, s.(lists := s.lists[s.f[x] := merged]))
  {
    hide Reaches, InUnion;
    var lists' := s.lists[s.f[x] := merged];
    forall z, a | z in g.list && a in lists'[g.list[z]] ensures InUnion(g, true, z, a) {
      if g.list[z] == g.list[x] && a in s.lists[s.f[y]] {
        assert Owner(g, y, s.f[y]);
        var w :| w in g.list && s.f[y] == g.list[w] && Reaches(g, false, y, w) && Reaches(g, false, w, y);
        NarrowIsWide(g, y, w);
        ReachesByStep(g, true, z, x);
        ReachesByStep(g, true, x, y);
        UnionBackwards(g, true, y, w, a);
        UnionBackwards(g, true, x, y, a);
        UnionBackwards(g, true, z, x, a);
      }
    }
  }

  lemma MergeDone<T(!new), A(!new)>(g: Graph<T, A>, s: State<T, A>, id: nat, merged: seq<A>)
    requires g.WellFormed() && DoneOk(g, s) && id in s.lists && forall a :: a in s.lists[id] ==> a in merged
    ensures DoneOk(g, s.(lists := s.lists[id := merged]))
  {
    hide InUnion, Edge;
  }

  lemma MergeInv<T(!new), A(!new)>(g: Graph<T, A>, s: State<T, A>, x: T, y: T, merged: seq<A>)
    requires Inv(g, s) && Edge(g, x, y) && x in s.f && y in s.f && s.f[x] == g.list[x]
    requires s.f[x] in s.lists && s.f[y] in s.lists && IsMerge(s.lists[s.f[x]], s.lists[s.f[y]], merged)
    ensures Inv(g, s.(lists := s.lists[s.f[x] := merged]))
  {
    hide Reaches, DoneOk, ListsOk, SameLists, StackOk, IsMerge, Edge;
    MergeLists(g, s, x, y, merged);
    MergeHolds(s.lists[s.f[x]], s.lists[s.f[y]], merged);
    MergeDone(g, s, s.f[x], merged);
    SameStack(g, s, s.f[x], merged);
    MergeSame(g, s, s.f[x], merged);
  }

  lemma MergeSame<T(!new), A(!new)>(g: Graph<T, A>, s: State<T, A>, id: nat, items: seq<A>)
    requires SameLists(g, s)
    ensures SameLists(g, s.(lists := s.lists[id := items]))
  {
    hide Mutual;
    var s' := s.(lists := s.lists[id := items]);
    forall z | Finished(s', z) ensures Finished(s, z) && s'.f[z] == s.f[z] {
    }
  }

  lemma SameStack<T(!new), A(!new)>(g: Graph<T, A>, s: State<T, A>, id: nat, items: seq<A>)
    requires StackOk(g, s)
    ensures StackOk(g, s.(lists := s.lists[id := items]))
  {
    hide Reaches;
  }

  lemma TurnClosed<T(!new), A(!new)>(g: Graph<T, A>, s: State<T, A>, s2: State<T, A>, d: nat, x: T, j: nat, low: nat)
    requires x in g.succ && j <= |g.succ[x]| && Closed(g, s, d, x, j, low)
    requires low != 0 && s2.n == s.n[x := low] && s2.stack == s.stack
    ensures Closed(g, s2, d, x, j, low)
  {
  }

  lemma TurnCollected<T(!new), A(!new)>(g: Graph<T, A>, s: State<T, A>, s2: State<T, A>, d: nat, x: T, j: nat, low: nat,
                                        items: seq<A>, merged: seq<A>)
    requires g.WellFormed() && x in g.succ && j <= |g.succ[x]| && Collected(g, s, d, x, j, items)
    requires low != MAXINT && s2.n == s.n[x := low] && s2.stack == s.stack && forall a :: a in items ==> a in merged
    ensures Collected(g, s2, d, x, j, merged)
  {
    hide SeenEdge, Complete;
    forall k, z | d <= k < |s2.stack| && SeenEdge(g, x, j, s2.stack[k], z) && z in s2.n && s2.n[z] == MAXINT
      ensures Complete(g, z, merged)
    {
      assert SeenEdge(g, x, j, s.stack[k], z);
      CompleteMore(g, z, items, merged);
    }
    forall k, a | d <= k < |s2.stack| && a in g.base[g.list[s2.stack[k]]] ensures a in merged {
      assert a in g.base[g.list[s.stack[k]]];
    }
  }

  /** The state at the end of one turn of the loop over the successors. */
  lemma TurnProgress<T(!new), A(!new)>(g: Graph<T, A>, s: State<T, A>, s2: State<T, A>, d: nat, x: T, j: nat, y: T)
    requires Inv(g, s) && Pending(g, s, d, x, j, y)
    requires s2.n == s.n[x := Min(s.n[x], s.n[y])] && s2.f == s.f && s2.stack == s.stack && s.f[x] in s2.lists
    requires IsMerge(s.lists[s.f[x]], s.lists[s.f[y]], s2.lists[s.f[x]])
    ensures Progress(g, s2, d, x, j + 1)
  {
    hide Reaches, DoneOk, ListsOk, SameLists, StackOk, Closed, Collected;
    StackFits(g, s);
    NotDone(g, s, d);
    var low := Min(s.n[x], s.n[y]);
    TurnClosed(g, s, s2, d, x, j + 1, low);
    MergeHolds(s.lists[s.f[x]], s.lists[s.f[y]], s2.lists[s.f[x]]);
    TurnCollected(g, s, s2, d, x, j + 1, low, s.lists[s.f[x]] + s.lists[s.f[y]], s2.lists[s.f[x]]);
  }

  lemma MergeHolds<A(!new)>(to: seq<A>, from: seq<A>, merged: seq<A>)
    requires IsMerge(to, from, merged)
    ensures forall a :: a in to + from ==> a in merged
    ensures forall a :: a in to ==> a in merged
  {
  }

  // The root of a component: N[x] is still its own stack height

  ghost predicate IsRoot<T(!new), A(!new)>(g: Graph<T, A>, s: State<T, A>, d: nat, x: T) {
    d < |s.stack| && s.stack[d] == x && x in g.succ && Progress(g, s, d, x, |g.succ[x]|) && s.n[x] == d + 1
  }

  /** Nothing that the component reaches is missing from F[x]. */
  lemma {:induction false} RootPath<T(!new), A(!new)>(g: Graph<T, A>, s: State<T, A>, d: nat, x: T, k: nat, p: seq<T>,
                                                      a: A)
    requires Inv(g, s) && IsRoot(g, s, d, x)
    requires d <= k < |s.stack| && IsPath(g, false, p) && p[0] == s.stack[k]
    requires p[|p| - 1] in g.list && a in g.base[g.list[p[|p| - 1]]]
    ensures a in s.lists[s.f[x]]
    decreases |p|
  {
    if |p| > 1 {
      hide Inv, Reaches, Closed;
      var z, q := p[1], p[1..];
      assert Step(g, false, p[0], z);
      RootStep(g, s, d, x, k, z);
      assert IsPath(g, false, q) && q[0] == z && q[|q| - 1] == p[|p| - 1];
      if s.n[z] == MAXINT {
        PathInUnion(g, q, a);
      } else {
        var i :| d <= i < |s.stack| && s.stack[i] == z;
        RootPath(g, s, d, x, i, q, a);
      }
    }
  }

  lemma PathInUnion<T(!new), A(!new)>(g: Graph<T, A>, p: seq<T>, a: A)
    requires g.WellFormed() && IsPath(g, false, p) && p[|p| - 1] in g.list && a in g.base[g.list[p[|p| - 1]]]
    ensures InUnion(g, false, p[0], a)
  {
    assert Reaches(g, false, p[0], p[|p| - 1]);
  }

  /** What the closed and collected component says of one edge. */
  lemma RootEdge<T(!new), A(!new)>(g: Graph<T, A>, s: State<T, A>, d: nat, x: T, k: nat, z: T)
    requires g.WellFormed() && x in g.succ && d <= k < |s.stack| && Edge(g, s.stack[k], z)
    requires Closed(g, s, d, x, |g.succ[x]|, d + 1)
    ensures z in s.n && s.n[z] != 0 && NotBelow(s.stack, d, z, d + 1)
    ensures SeenEdge(g, x, |g.succ[x]|, s.stack[k], z)
  {
    hide NotBelow;
    assert SeenEdge(g, x, |g.succ[x]|, s.stack[k], z);
  }

  /** A step out of the component leads to a finished node. */
  lemma RootStep<T(!new), A(!new)>(g: Graph<T, A>, s: State<T, A>, d: nat, x: T, k: nat, z: T)
    requires Inv(g, s) && IsRoot(g, s, d, x)
    requires d <= k < |s.stack| && Step(g, false, s.stack[k], z)
    ensures z in s.n && (s.n[z] == MAXINT || exists i :: d <= i < |s.stack| && s.stack[i] == z)
    ensures z in s.n && (s.n[z] == MAXINT ==> Complete(g, z, s.lists[s.f[x]]))
  {
    hide Reaches, DoneOk, ListsOk, SameLists, Complete, OneComponent, Closed, SeenEdge, NotBelow;
    RootEdge(g, s, d, x, k, z);
    if s.n[z] != MAXINT {
      StackedAbove(s, d, z, d + 1);
    }
  }

  lemma StackedAbove<T(!new), A(!new)>(s: State<T, A>, d: nat, z: T, low: nat)
    requires z in s.stack && NotBelow(s.stack, d, z, low) && low > d
    ensures exists i :: d <= i < |s.stack| && s.stack[i] == z
  {
    var i :| 0 <= i < |s.stack| && s.stack[i] == z;
    assert d <= i;
  }

  lemma RootComplete<T(!new), A(!new)>(g: Graph<T, A>, s: State<T, A>, d: nat, x: T)
    requires Inv(g, s) && IsRoot(g, s, d, x)
    ensures Complete(g, x, s.lists[s.f[x]])
  {
    forall a | InUnion(g, false, x, a) ensures a in s.lists[s.f[x]] {
      var y :| y in g.list && Reaches(g, false, x, y) && a in g.base[g.list[y]];
      var p :| IsPath(g, false, p) && p[0] == x && p[|p| - 1] == y;
      RootPath(g, s, d, x, d, p, a);
    }
  }

  ghost function Popped<T(!new), A(!new)>(s: State<T, A>, d: nat, id: nat): State<T, A>
    requires d <= |s.stack|
  {
    var top := s.stack[d..];
    State(map y | y in s.n :: if y in top then MAXINT else s.n[y],
          map y | y in s.f :: if y in top then id else s.f[y],
          s.lists, s.stack[..d])
  }

  lemma NotInTop<T(!new)>(stack: seq<T>, d: nat, i: nat)
    requires (forall i, j :: 0 <= i < j < |stack| ==> stack[i] != stack[j]) && i < d <= |stack|
    ensures stack[i] !in stack[d..] && stack[..d][i] == stack[i]
  {
  }

  lemma InParts<T(!new)>(stack: seq<T>, d: nat, y: T)
    requires d <= |stack| && y in stack
    ensures y in stack[..d] || y in stack[d..]
  {
    assert stack == stack[..d] + stack[d..];
  }

  lemma PopStack<T(!new), A(!new)>(g: Graph<T, A>, s: State<T, A>, d: nat, id: nat)
    requires StackOk(g, s) && d <= |s.stack|
    ensures StackOk(g, Popped(s, d, id))
  {
    hide Reaches;
    var s' := Popped(s, d, id);
    forall i | 0 <= i < d
      ensures s'.stack[i] == s.stack[i] && s'.stack[i] in s'.n && s'.n[s'.stack[i]] == s.n[s.stack[i]]
    {
      NotInTop(s.stack, d, i);
    }
    forall y | y in s'.n ensures s'.n[y] == 0 || s'.n[y] == MAXINT || y in s'.stack {
      if y in s.stack { InParts(s.stack, d, y); }
    }
  }

  lemma StackedHasList<T(!new), A(!new)>(g: Graph<T, A>, s: State<T, A>, k: nat)
    requires Inv(g, s) && k < |s.stack|
    ensures s.stack[k] in s.f
  {
    hide DoneOk, ListsOk, SameLists;
    NotWhite(g, s, k);
    hide StackOk;
  }

  /** A popped node is finished: its successors are, and its list is complete. */
  lemma PopDoneAt<T(!new), A(!new)>(g: Graph<T, A>, s: State<T, A>, d: nat, x: T, k: nat)
    requires Inv(g, s) && IsRoot(g, s, d, x) && d <= k < |s.stack|
    ensures forall z :: Edge(g, s.stack[k], z) ==> z in s.n && (s.n[z] == MAXINT || z in s.stack[d..])
    ensures Complete(g, s.stack[k], s.lists[s.f[x]]) && s.stack[k] in s.f
  {
    hide Inv, Closed, Collected, Complete, Reaches;
    StackedHasList(g, s, k);
    forall z | Edge(g, s.stack[k], z) ensures z in s.n && (s.n[z] == MAXINT || z in s.stack[d..]) {
      RootStep(g, s, d, x, k, z);
      if s.n[z] != MAXINT {
        var i :| d <= i < |s.stack| && s.stack[i] == z;
        assert s.stack[d..][i - d] == z;
      }
    }
    RootComplete(g, s, d, x);
    CompleteFrom(g, x, s.stack[k], s.lists[s.f[x]]);
  }

  /** A node of the component is finished now. */
  lemma PopMakesDone<T(!new), A(!new)>(g: Graph<T, A>, s: State<T, A>, d: nat, x: T, y: T)
    requires Inv(g, s) && IsRoot(g, s, d, x) && y in s.stack[d..]
    ensures var s' := Popped(s, d, s.f[x]);
            && (forall z :: Edge(g, y, z) ==> z in s'.n && s'.n[z] == MAXINT)
            && y in s'.f && s'.f[y] in s'.lists && Complete(g, y, s'.lists[s'.f[y]])
  {
    hide Closed, Collected, Complete, Reaches, Inv, Edge, OneComponent;
    var k :| 0 <= k < |s.stack[d..]| && s.stack[d..][k] == y;
    assert s.stack[d + k] == y;
    PopDoneAt(g, s, d, x, d + k);
    InGraph(g, s, d, x, |g.succ[x]|);
  }

  /** A node that was finished stays so. */
  lemma PopKeepsDone<T(!new), A(!new)>(g: Graph<T, A>, s: State<T, A>, d: nat, x: T, y: T)
    requires Inv(g, s) && IsRoot(g, s, d, x) && y in s.n && s.n[y] == MAXINT && y !in s.stack[d..]
    ensures var s' := Popped(s, d, s.f[x]);
            && (forall z :: Edge(g, y, z) ==> z in s'.n && s'.n[z] == MAXINT)
            && y in s'.f && s'.f[y] in s'.lists && Complete(g, y, s'.lists[s'.f[y]])
  {
    hide Closed, Collected, Complete, Reaches, StackOk, ListsOk, SameLists, Edge, OneComponent;
  }

  lemma PopDone<T(!new), A(!new)>(g: Graph<T, A>, s: State<T, A>, d: nat, x: T)
    requires Inv(g, s) && IsRoot(g, s, d, x)
    ensures DoneOk(g, Popped(s, d, s.f[x]))
  {
    hide Closed, Collected, Complete, Reaches, StackOk, ListsOk, SameLists, Edge, OneComponent;
    var s' := Popped(s, d, s.f[x]);
    forall y | y in s'.n && s'.n[y] == MAXINT
      ensures forall z :: Edge(g, y, z) ==> z in s'.n && s'.n[z] == MAXINT
      ensures y in s'.f && s'.f[y] in s'.lists && Complete(g, y, s'.lists[s'.f[y]])
    {
      if y in s.stack[d..] {
        PopMakesDone(g, s, d, x, y);
      } else {
        PopKeepsDone(g, s, d, x, y);
      }
    }
  }

  lemma CompleteFrom<T(!new), A(!new)>(g: Graph<T, A>, x: T, y: T, items: seq<A>)
    requires g.WellFormed() && Reaches(g, false, x, y) && Complete(g, x, items)
    ensures Complete(g, y, items)
  {
    forall a | InUnion(g, false, y, a) ensures a in items {
      UnionBackwards(g, false, x, y, a);
    }
  }

  lemma PopLists<T(!new), A(!new)>(g: Graph<T, A>, s: State<T, A>, d: nat, x: T)
    requires Inv(g, s) && OneComponent(g, s, d, x) && x in s.f
    ensures ListsOk(g, Popped(s, d, s.f[x]))
  {
    hide Reaches, InUnion, StackOk, DoneOk;
    var s' := Popped(s, d, s.f[x]);
    forall y | y in s'.f ensures Owner(g, y, s'.f[y]) {
      if y in s.stack[d..] {
        var k :| 0 <= k < |s.stack[d..]| && s.stack[d..][k] == y;
        assert s.stack[d + k] == y;
        assert Owner(g, x, s.f[x]);
        var w :| w in g.list && s.f[x] == g.list[w] && Reaches(g, false, x, w) && Reaches(g, false, w, x);
        ReachesTrans(g, false, y, x, w);
        ReachesTrans(g, false, w, x, y);
      }
    }
  }

  lemma PopKeys<T(!new), A(!new)>(g: Graph<T, A>, s: State<T, A>, d: nat, id: nat)
    requires Inv(g, s) && d < |s.stack|
    ensures var s' := Popped(s, d, id);
            s'.n.Keys == s.n.Keys && s'.n[s.stack[d]] == MAXINT && forall y :: y in s'.f <==> y in s'.n && s'.n[y] != 0
  {
    hide Reaches, DoneOk, ListsOk, SameLists;
    assert s.stack[d..][0] == s.stack[d];
    forall y | y in s.stack[d..] ensures y in s.n && s.n[y] != 0 {
      var k :| 0 <= k < |s.stack[d..]| && s.stack[d..][k] == y;
      assert s.stack[d + k] == y;
    }
  }

  lemma PopInv<T(!new), A(!new)>(g: Graph<T, A>, s: State<T, A>, d: nat, x: T)
    requires Inv(g, s) && IsRoot(g, s, d, x)
    ensures Inv(g, Popped(s, d, s.f[x])) && x in Popped(s, d, s.f[x]).n && Popped(s, d, s.f[x]).n[x] == MAXINT
  {
    hide Closed, Collected, DoneOk, ListsOk, SameLists, StackOk, OneComponent, Popped;
    PopStack(g, s, d, s.f[x]);
    PopDone(g, s, d, x);
    PopLists(g, s, d, x);
    PopSame(g, s, d, s.f[x]);
    PopKeys(g, s, d, s.f[x]);
  }

  /** What a finished node reaches is finished. */
  lemma {:induction false} FinishedPath<T(!new), A(!new)>(g: Graph<T, A>, s: State<T, A>, p: seq<T>)
    requires g.WellFormed() && DoneOk(g, s) && IsPath(g, false, p) && p[0] in s.n && s.n[p[0]] == MAXINT
    ensures p[|p| - 1] in s.n && s.n[p[|p| - 1]] == MAXINT
    decreases |p|
  {
    if |p| > 1 {
      hide Complete;
      assert Step(g, false, p[0], p[1]);
      assert Edge(g, p[0], p[1]);
      FinishedPath(g, s, p[1..]);
    }
  }

  /** A finished node and one on the stack are of different components. */
  lemma NotMutual<T(!new), A(!new)>(g: Graph<T, A>, s: State<T, A>, y: T, z: T)
    requires Inv(g, s) && y in s.stack && z in s.n && s.n[z] == MAXINT
    ensures !Mutual(g, y, z) && !Mutual(g, z, y)
  {
    hide SameLists, ListsOk;
    StackFits(g, s);
    var k :| 0 <= k < |s.stack| && s.stack[k] == y;
    NotDone(g, s, k);
    if Reaches(g, false, z, y) {
      var p :| IsPath(g, false, p) && p[0] == z && p[|p| - 1] == y;
      FinishedPath(g, s, p);
    }
  }

  lemma PopSame<T(!new), A(!new)>(g: Graph<T, A>, s: State<T, A>, d: nat, id: nat)
    requires Inv(g, s) && d <= |s.stack|
    ensures SameLists(g, Popped(s, d, id))
  {
    hide StackOk, DoneOk, ListsOk, Mutual;
    var s' := Popped(s, d, id);
    forall y, z | Finished(s', y) && Finished(s', z) && Mutual(g, y, z) ensures s'.f[y] == s'.f[z] {
      if y in s.stack[d..] && z !in s.stack[d..] {
        NotMutual(g, s, y, z);
      } else if z in s.stack[d..] && y !in s.stack[d..] {
        NotMutual(g, s, z, y);
      }
    }
  }

  /** The nodes on the stack from `d` up were white when the stack was that high. */
  lemma TopWasWhite<T(!new), A(!new)>(g: Graph<T, A>, s0: State<T, A>, s: State<T, A>, k: nat)
    requires Inv(g, s0) && Inv(g, s) && Extends(s0, s) && |s0.stack| <= k < |s.stack|
    ensures s.stack[k] in s0.n && s0.n[s.stack[k]] == 0
  {
    hide Reaches, DoneOk, ListsOk, SameLists;
    StackFits(g, s);
    NotDone(g, s, k);
    forall i | 0 <= i < |s0.stack| ensures s0.stack[i] != s.stack[k] {
      assert s.stack[i] == s.stack[..|s0.stack|][i];
    }
  }

  lemma PopExtends<T(!new), A(!new)>(g: Graph<T, A>, s0: State<T, A>, s: State<T, A>, id: nat)
    requires Inv(g, s0) && Inv(g, s) && Extends(s0, s)
    ensures Extends(s0, Popped(s, |s0.stack|, id))
  {
    hide StackOk, DoneOk, ListsOk, SameLists;
    var d := |s0.stack|;
    forall k | d <= k < |s.stack| ensures s.stack[k] in s0.n && s0.n[s.stack[k]] == 0 && s.stack[k] !in s0.f {
      TopWasWhite(g, s0, s, k);
    }
    hide Inv, Extends, Popped;
    PoppedExtends(s0, s, id);
  }

  lemma PoppedExtends<T(!new), A(!new)>(s0: State<T, A>, s: State<T, A>, id: nat)
    requires Extends(s0, s)
    requires forall k :: |s0.stack| <= k < |s.stack| ==>
               s.stack[k] in s0.n && s0.n[s.stack[k]] == 0 && s.stack[k] !in s0.f
    ensures Extends(s0, Popped(s, |s0.stack|, id))
  {
    var d := |s0.stack|;
    assert forall y :: y in s.stack[d..] ==> exists k :: d <= k < |s.stack| && s.stack[k] == y;
  }

  lemma ExtendsTrans<T(!new), A(!new)>(s: State<T, A>, s1: State<T, A>, s2: State<T, A>)
    requires Extends(s, s1) && Extends(s1, s2)
    requires forall y :: y in s.f ==> y in s1.f
    ensures Extends(s, s2)
  {
    assert s2.stack[..|s.stack|] == s2.stack[..|s1.stack|][..|s.stack|];
  }

  // ---------------------------------------------------------------------------------------
  // traverse and digraph
  // ---------------------------------------------------------------------------------------

  class Propagation<T(==, !new), A(==, !new)> {
    const g: Graph<T, A>
    var N: map<T, nat>
    var F: map<T, nat>
    var lists: map<nat, seq<A>>
    var stack: seq<T>

    ghost function View(): State<T, A>
      reads this
    {
      State(N, F, lists, stack)
    }

    constructor (g: Graph<T, A>)
      requires g.WellFormed()
      ensures this.g == g && Inv(g, View()) && stack == [] && forall y :: y in N ==> N[y] == 0
    {
      this.g := g;
      N := map x | x in g.succ :: 0;
      F, lists, stack := map[], g.base, [];
      new;
      forall y, a | y in g.list && a in g.base[g.list[y]] ensures InUnion(g, true, y, a) {
        ReachesSelf(g, true, y);
      }
    }

    /** for a in F[y]: if a not in F[x]: F[x].append(a) -- on the lists themselves, which may be one. */
    method Merge(from: nat, to: nat)
      requires from in lists && to in lists
      modifies this`lists
      ensures lists.Keys == old(lists.Keys)
      ensures IsMerge(old(lists)[to], old(lists)[from], lists[to])
      ensures lists == old(lists)[to := lists[to]]
    {
      var i := 0;
      while i < |lists[from]|
        invariant lists.Keys == old(lists.Keys) && 0 <= i <= |lists[from]|
        invariant lists == old(lists)[to := lists[to]]
        invariant lists[from] == old(lists)[from]
        invariant forall a :: a in lists[to] <==> a in old(lists)[to] || a in old(lists)[from][..i]
        decreases |old(lists)[from]| - i
      {
        var a := lists[from][i];
        if a !in lists[to] {
          lists := lists[to := lists[to] + [a]];
        }
        assert old(lists)[from][..i + 1] == old(lists)[from][..i] + [a];
        i := i + 1;
      }
    }

    /** Marks everything down to `x` finished and shares F[x] with it. */
    method PopComponent(x: T, ghost d: nat)
      requires d < |stack| && stack[d] == x && x in F
      requires forall i, j :: 0 <= i < j < |stack| ==> stack[i] != stack[j]
      requires forall i :: 0 <= i < |stack| ==> stack[i] in N && stack[i] in F
      modifies this
      ensures View() == old(Popped(View(), d, F[x]))
    {
      hide Popped;
      ghost var s := View();
      var shared := F[x];
      var element := stack[|stack| - 1];
      PopStep(s, |stack| - 1, shared);
      N := N[element := MAXINT];
      F := F[element := F[x]];
      stack := stack[..|stack| - 1];
      while element != x
        invariant d <= |stack| < |s.stack| && element == s.stack[|stack|]
        invariant x in F && F[x] == shared
        invariant View() == Popped(s, |stack|, shared) && stack == s.stack[..|stack|]
        decreases |stack|
      {
        element := stack[|stack| - 1];
        PopStep(s, |stack| - 1, shared);
        N := N[element := MAXINT];
        F := F[element := F[x]];
        stack := stack[..|stack| - 1];
      }
    }

    method Traverse(x: T)
      requires Inv(g, View()) && x in N && N[x] == 0 && StackReaches(g, stack, x)
      modifies this
      ensures Traversed(g, old(View()), View(), x)
      decreases Whites(View()), 2
    {
      hide Inv, Progress, Extends, StackReaches, Popped, Whites;
      ghost var s0 := View();
      WhiteInGraph(g, s0, x);
      PushInv(g, s0, x);
      PushProgress(g, s0, x);
      stack := stack + [x];
      var d := |stack|;
      N := N[x := d];
      F := F[x := g.list[x]];
      assert View() == Pushed(g, s0, x);
      var rel := g.succ[x];
      var j := 0;
      while j < |rel|
        invariant 0 <= j <= |rel| && Inv(g, View()) && Extends(s0, View())
        invariant Progress(g, View(), d - 1, x, j) && x in N && 1 <= N[x] <= d && x in F && F[x] == g.list[x]
      {
        Turn(x, d, j, s0);
        j := j + 1;
      }
      if N[x] == d {
        ghost var s := View();
        InGraph(g, s, d - 1, x, j);
        AtRoot(g, s, d - 1, x);
        PopInv(g, s, d - 1, x);
        PopExtends(g, s0, s, F[x]);
        PopComponent(x, d - 1);
        RootTraversed(g, s0, s, x);
      }
    }

    /** One turn of the loop over the successors of `x`. */
    method Turn(x: T, d: nat, j: nat, ghost s0: State<T, A>)
      requires Inv(g, s0) && Inv(g, View()) && Extends(s0, View()) && d == |s0.stack| + 1
      requires x in s0.n && s0.n[x] == 0 && StackReaches(g, s0.stack, x)
      requires Progress(g, View(), d - 1, x, j) && j < |g.succ[x]| && F[x] == g.list[x]
      modifies this
      ensures Inv(g, View()) && Extends(s0, View())
      ensures Progress(g, View(), d - 1, x, j + 1) && x in N && 1 <= N[x] <= d && x in F && F[x] == g.list[x]
      decreases Whites(s0), 1
    {
      hide Inv, Progress, Extends, StackReaches, OneComponent, Closed, Collected, Whites, IsMerge;
      InGraph(g, View(), d - 1, x, j);
      var y := VisitSuccessor(x, d, j, s0);
      ghost var s := View();
      LowerInv(g, s, d - 1, x, j, y);
      N := N[x := Min(N[x], N[y])];
      ghost var s1 := View();
      assert s1 == Lowered(s, x, y);
      Merge(F[y], F[x]);
      MergeInv(g, s1, x, y, lists[F[x]]);
      TurnProgress(g, s, View(), d - 1, x, j, y);
      MergeHolds(s.lists[F[x]], s.lists[F[y]], lists[F[x]]);
      TurnExtends(g, s0, s, View(), x);
    }

    /** The propagation as a whole. `X` lists the nodes in the order digraph takes them. */
    method Run(X: seq<T>)
      requires Inv(g, View()) && stack == [] && forall x :: x in X <==> x in N
      modifies this
      ensures F.Keys == g.succ.Keys && lists.Keys == g.base.Keys
      ensures forall x :: x in F ==> F[x] in lists
      ensures forall x, a :: x in F && InUnion(g, false, x, a) ==> a in lists[F[x]]
      ensures forall x, a :: x in F && a in lists[F[x]] ==> InUnion(g, true, x, a)
      ensures forall x :: x in F ==> Owner(g, x, F[x])
      ensures forall x, y :: x in F && y in F && Mutual(g, x, y) ==> F[x] == F[y]
      ensures SharersAgree(g) ==> Exact(g, F, lists)
      ensures SingleNodes(g) ==> (Exact(g, F, lists) <==> SharersAgree(g))
    {
      hide Inv, StackReaches, InUnion, Extends, Progress, SharersAgree, SingleNodes, Exact, Owner, Mutual;
      EmptyStack(g, View());
      var i := 0;
      while i < |X|
        invariant 0 <= i <= |X| && Inv(g, View()) && stack == [] && N.Keys == g.succ.Keys
        invariant forall x :: x in X <==> x in N
        invariant forall k :: 0 <= k < i ==> N[X[k]] != 0
      {
        var x := X[i];
        if N[x] == 0 {
          ghost var s := View();
          Traverse(x);
          TopLevel(g, s, View(), x);
        }
        i := i + 1;
      }
      AllFinished(g, View());
      if SingleNodes(g) && Exact(g, F, lists) { ExactOnlyIf(g, F, lists); }
    }

    /** if N[y] == 0: traverse(y) -- for the next successor of `x`. */
    method VisitSuccessor(x: T, d: nat, j: nat, ghost s0: State<T, A>) returns (y: T)
      requires Inv(g, s0) && Inv(g, View()) && Extends(s0, View()) && d == |s0.stack| + 1
      requires x in s0.n && s0.n[x] == 0 && StackReaches(g, s0.stack, x)
      requires Progress(g, View(), d - 1, x, j) && j < |g.succ[x]| && F[x] == g.list[x]
      modifies this
      ensures Inv(g, View()) && Extends(s0, View()) && Pending(g, View(), d - 1, x, j, y) && Edge(g, x, y)
      ensures F[x] == g.list[x]
      decreases Whites(s0), 0
    {
      hide StackReaches, OneComponent, Closed, Collected, StackOk, DoneOk, ListsOk, SameLists, Extends, Whites;
      ghost var s := View();
      y := g.succ[x][j];
      BeforeSuccessor(g, s0, s, x, j, y);
      if N[y] == 0 {
        Traverse(y);
        PendingChild(g, s, View(), d - 1, x, j, y);
        ExtendsTrans(s0, s, View());
        KeepsEntry(s, View(), x);
      } else {
        PendingVisited(g, s, d - 1, x, j, y);
      }
    }
  }

  lemma PopStep<T(!new), A(!new)>(s: State<T, A>, d: nat, id: nat)
    requires d < |s.stack| && s.stack[d] in s.n && s.stack[d] in s.f
    ensures var before := if d + 1 == |s.stack| then s else Popped(s, d + 1, id);
            && d < |before.stack| && before.stack == s.stack[..d + 1]
            && Popped(s, d, id) == State(before.n[s.stack[d] := MAXINT], before.f[s.stack[d] := id],
                                         before.lists, before.stack[..d])
  {
    assert s.stack[d..] == [s.stack[d]] + s.stack[d + 1..];
    if d + 1 == |s.stack| { assert s.stack[..d + 1] == s.stack; }
    assert s.stack[..d + 1][..d] == s.stack[..d];
  }

  lemma InGraph<T(!new), A(!new)>(g: Graph<T, A>, s: State<T, A>, d: nat, x: T, j: nat)
    requires Progress(g, s, d, x, j)
    ensures g.WellFormed() && x in g.succ && x in s.n && x in s.f && s.f[x] in s.lists && x in g.list
    ensures d < |s.stack| && s.stack[d] == x
  {
    hide Closed, Collected;
  }

  lemma WhiteInGraph<T(!new), A(!new)>(g: Graph<T, A>, s: State<T, A>, x: T)
    requires Inv(g, s) && x in s.n
    ensures g.WellFormed() && x in g.succ && x in g.list
  {
    hide StackOk, DoneOk, ListsOk, SameLists;
  }

  lemma AtRoot<T(!new), A(!new)>(g: Graph<T, A>, s: State<T, A>, d: nat, x: T)
    requires Inv(g, s) && x in g.succ && Progress(g, s, d, x, |g.succ[x]|) && s.n[x] == d + 1
    ensures IsRoot(g, s, d, x)
    ensures forall i, j :: 0 <= i < j < |s.stack| ==> s.stack[i] != s.stack[j]
    ensures forall i :: 0 <= i < |s.stack| ==> s.stack[i] in s.n && s.stack[i] in s.f
  {
    hide Closed, Collected, DoneOk, ListsOk, SameLists, Reaches;
  }

  lemma RootTraversed<T(!new), A(!new)>(g: Graph<T, A>, s0: State<T, A>, s: State<T, A>, x: T)
    requires x in s.f && Extends(s0, s) && x in g.succ
    requires var s' := Popped(s, |s0.stack|, s.f[x]); Inv(g, s') && Extends(s0, s') && x in s'.n && s'.n[x] == MAXINT
    ensures Traversed(g, s0, Popped(s, |s0.stack|, s.f[x]), x)
  {
    hide Inv, Progress;
  }

  /**
   Before the next successor `y` of `x` is looked at: everything stacked reaches it, and fewer nodes
   are white.
   */
  lemma BeforeSuccessor<T(!new), A(!new)>(g: Graph<T, A>, s0: State<T, A>, s: State<T, A>, x: T, j: nat, y: T)
    requires Inv(g, s0) && Inv(g, s) && Extends(s0, s) && x in s0.n && s0.n[x] == 0 && StackReaches(g, s0.stack, x)
    requires Progress(g, s, |s0.stack|, x, j) && j < |g.succ[x]| && y == g.succ[x][j]
    ensures StackReaches(g, s.stack, x) && StackReaches(g, s.stack, y) && Edge(g, x, y) && y in s.n
    ensures Whites(s) < Whites(s0)
    ensures forall z :: z in s0.f ==> z in s.f
  {
    hide Closed, Collected, DoneOk, ListsOk, SameLists, Reaches;
    StackReachesNext(g, s, |s0.stack|, x, y);
    NotWhite(g, s, |s0.stack|);
    assert x in Whites(s0) && x !in Whites(s);
  }

  lemma NotWhite<T(!new), A(!new)>(g: Graph<T, A>, s: State<T, A>, d: nat)
    requires StackOk(g, s) && d < |s.stack|
    ensures s.stack[d] in s.n && s.n[s.stack[d]] != 0
  {
  }

  lemma KeepsEntry<T(!new), A(!new)>(s: State<T, A>, s': State<T, A>, x: T)
    requires Extends(s, s') && x in s.f
    ensures x in s'.f && s'.f[x] == s.f[x]
  {
  }

  lemma TurnExtends<T(!new), A(!new)>(g: Graph<T, A>, s0: State<T, A>, s: State<T, A>, s2: State<T, A>, x: T)
    requires Extends(s0, s) && x in s0.n && s0.n[x] == 0 && x in s.n && x in s.f && s.f[x] in s.lists
    requires x in s2.n && s2.n == s.n[x := s2.n[x]] && s2.f == s.f && s2.stack == s.stack
    requires s.f[x] in s2.lists && s2.lists == s.lists[s.f[x] := s2.lists[s.f[x]]]
    requires forall a :: a in s.lists[s.f[x]] ==> a in s2.lists[s.f[x]]
    ensures Extends(s0, s2)
  {
  }

  /** What digraph should return: the union over the reachable nodes, for every node. */
  ghost predicate Exact<T(!new), A(!new)>(g: Graph<T, A>, f: map<T, nat>, lists: map<nat, seq<A>>)
    requires g.WellFormed()
  {
    forall x, a :: x in f && f[x] in lists ==> (a in lists[f[x]] <==> InUnion(g, false, x, a))
  }

  /** No two nodes reach each other. */
  ghost predicate SingleNodes<T(!new), A(!new)>(g: Graph<T, A>) {
    forall x, y :: Reaches(g, false, x, y) && Reaches(g, false, y, x) ==> x == y
  }

  /** Without cycles through several nodes the result is exact only if nodes that share a list agree. */
  lemma ExactOnlyIf<T(!new), A(!new)>(g: Graph<T, A>, f: map<T, nat>, lists: map<nat, seq<A>>)
    requires g.WellFormed() && f.Keys == g.list.Keys && lists.Keys == g.base.Keys && SingleNodes(g)
    requires (forall x :: x in f ==> Owner(g, x, f[x])) && Exact(g, f, lists)
    ensures SharersAgree(g)
  {
    hide Reaches, InUnion;
    forall x | x in f ensures f[x] == g.list[x] {
      assert Owner(g, x, f[x]);
    }
    forall y, z, a | y in g.list && z in g.list && g.list[y] == g.list[z] && InUnion(g, false, y, a)
      ensures InUnion(g, false, z, a)
    {
      assert a in lists[f[y]] && f[y] == f[z];
    }
  }

  lemma EmptyStack<T(!new), A(!new)>(g: Graph<T, A>, s: State<T, A>)
    requires Inv(g, s) && s.stack == []
    ensures s.n.Keys == g.succ.Keys && forall x :: StackReaches(g, s.stack, x)
  {
  }

  lemma TopLevel<T(!new), A(!new)>(g: Graph<T, A>, s: State<T, A>, s': State<T, A>, x: T)
    requires s.stack == [] && Traversed(g, s, s', x) && s.n.Keys == g.succ.Keys
    ensures Inv(g, s') && s'.stack == [] && s'.n.Keys == s.n.Keys && x in s'.n && s'.n[x] != 0
    ensures forall y :: y in s.n && s.n[y] != 0 ==> s'.n[y] != 0
    ensures forall y :: StackReaches(g, s'.stack, y)
  {
    hide Inv, Progress;
  }

  lemma SoundEntry<T(!new), A(!new)>(g: Graph<T, A>, s: State<T, A>, x: T, a: A)
    requires Inv(g, s) && x in s.f && s.f[x] in s.lists && a in s.lists[s.f[x]]
    ensures InUnion(g, true, x, a)
  {
    hide Reaches, InUnion, StackOk, DoneOk;
    assert Owner(g, x, s.f[x]);
    var w :| w in g.list && s.f[x] == g.list[w] && Reaches(g, false, x, w) && Reaches(g, false, w, x);
    NarrowIsWide(g, x, w);
    UnionBackwards(g, true, x, w, a);
  }

  lemma CompleteEntry<T(!new), A(!new)>(g: Graph<T, A>, s: State<T, A>, x: T)
    requires Inv(g, s) && s.stack == [] && x in s.f
    ensures s.f[x] in s.lists && Complete(g, x, s.lists[s.f[x]])
  {
    hide Reaches, Complete, ListsOk, SameLists;
  }

  lemma ComponentLists<T(!new), A(!new)>(g: Graph<T, A>, s: State<T, A>)
    requires Inv(g, s) && s.stack == [] && forall x :: x in s.n ==> s.n[x] != 0
    ensures forall x, y :: x in s.f && y in s.f && Mutual(g, x, y) ==> s.f[x] == s.f[y]
  {
    hide DoneOk, ListsOk, Mutual, Reaches;
    forall x | x in s.f ensures Finished(s, x) {
    }
    hide StackOk;
  }

  lemma AllVisited<T(!new), A(!new)>(g: Graph<T, A>, s: State<T, A>)
    requires Inv(g, s) && forall x :: x in s.n ==> s.n[x] != 0
    ensures s.f.Keys == g.succ.Keys && s.lists.Keys == g.base.Keys
    ensures forall x :: x in s.f ==> Owner(g, x, s.f[x])
  {
    hide StackOk, DoneOk, Owner;
  }

  /** With the stack empty and nothing white, every node is finished. */
  lemma AllFinished<T(!new), A(!new)>(g: Graph<T, A>, s: State<T, A>)
    requires Inv(g, s) && s.stack == [] && forall x :: x in s.n ==> s.n[x] != 0
    ensures g.WellFormed() && s.f.Keys == g.succ.Keys && s.lists.Keys == g.base.Keys
    ensures forall x :: x in s.f ==> s.f[x] in s.lists
    ensures forall x, a :: x in s.f && InUnion(g, false, x, a) ==> a in s.lists[s.f[x]]
    ensures forall x, a :: x in s.f && a in s.lists[s.f[x]] ==> InUnion(g, true, x, a)
    ensures forall x :: x in s.f ==> Owner(g, x, s.f[x])
    ensures forall x, y :: x in s.f && y in s.f && Mutual(g, x, y) ==> s.f[x] == s.f[y]
    ensures SharersAgree(g) ==> Exact(g, s.f, s.lists)
  {
    hide InUnion, StackOk, DoneOk, ListsOk, SameLists, SharersAgree, Owner, Mutual;
    AllVisited(g, s);
    ComponentLists(g, s);
    forall x | x in s.f ensures s.f[x] in s.lists && forall a :: InUnion(g, false, x, a) ==> a in s.lists[s.f[x]] {
      CompleteEntry(g, s, x);
    }
    forall x, a | x in s.f && a in s.lists[s.f[x]]
      ensures InUnion(g, true, x, a) && (SharersAgree(g) ==> InUnion(g, false, x, a))
    {
      SoundEntry(g, s, x, a);
      if SharersAgree(g) { WideAddsNothing(g, x, a); }
    }
  }

  // ---------------------------------------------------------------------------------------
  // The set equation digraph is documented to solve
  // ---------------------------------------------------------------------------------------

  /** The unions satisfy F(x) = FP(x) united with F(y) for all y related to x. */
  lemma UnionEquation<T(!new), A(!new)>(g: Graph<T, A>, x: T, a: A)
    requires g.WellFormed() && x in g.succ
    ensures InUnion(g, false, x, a) <==>
              a in g.base[g.list[x]] || exists y :: Edge(g, x, y) && InUnion(g, false, y, a)
  {
    if a in g.base[g.list[x]] {
      ReachesSelf(g, false, x);
    } else if y :| Edge(g, x, y) && InUnion(g, false, y, a) {
      ReachesByStep(g, false, x, y);
      UnionBackwards(g, false, x, y, a);
    }
    if InUnion(g, false, x, a) {
      var z :| z in g.list && Reaches(g, false, x, z) && a in g.base[g.list[z]];
      var p :| IsPath(g, false, p) && p[0] == x && p[|p| - 1] == z;
      if |p| > 1 {
        assert Step(g, false, p[0], p[1]);
        assert IsPath(g, false, p[1..]);
        PathInUnion(g, p[1..], a);
      }
    }
  }

  /** `sets` is closed under the equation: it holds FP(x) and every set of a related node. */
  ghost predicate Solves<T(!new), A(!new)>(g: Graph<T, A>, sets: map<T, set<A>>)
    requires g.WellFormed()
  {
    && sets.Keys == g.succ.Keys
    && (forall x, a :: x in sets && a in g.base[g.list[x]] ==> a in sets[x])
    && (forall x, y :: Edge(g, x, y) ==> sets[y] <= sets[x])
  }

  /** They are its least solution. */
  lemma UnionIsLeast<T(!new), A(!new)>(g: Graph<T, A>, sets: map<T, set<A>>, x: T, a: A)
    requires g.WellFormed() && Solves(g, sets) && x in sets && InUnion(g, false, x, a)
    ensures a in sets[x]
  {
    var z :| z in g.list && Reaches(g, false, x, z) && a in g.base[g.list[z]];
    var p :| IsPath(g, false, p) && p[0] == x && p[|p| - 1] == z;
    LeastAlong(g, sets, p, a);
  }

  lemma {:induction false} LeastAlong<T(!new), A(!new)>(g: Graph<T, A>, sets: map<T, set<A>>, p: seq<T>, a: A)
    requires g.WellFormed() && Solves(g, sets) && IsPath(g, false, p)
    requires p[|p| - 1] in g.list && a in g.base[g.list[p[|p| - 1]]]
    ensures p[0] in sets && a in sets[p[0]]
    decreases |p|
  {
    if |p| > 1 {
      assert Step(g, false, p[0], p[1]);
      LeastAlong(g, sets, p[1..], a);
    }
  }

  // ---------------------------------------------------------------------------------------
  // An input with a shared list
  // ---------------------------------------------------------------------------------------

  lemma NoStep<T(!new), A(!new)>(g: Graph<T, A>, x: T, y: T)
    requires x in g.succ && g.succ[x] == []
    ensures !Step(g, false, x, y)
  {
  }

  /** A node that is related to nothing reaches itself alone, so its list and its union are its own. */
  lemma RelatedToNothing<T(!new), A(!new)>(g: Graph<T, A>, x: T)
    requires g.WellFormed() && x in g.succ && g.succ[x] == []
    ensures forall y :: Reaches(g, false, x, y) ==> x == y
    ensures forall id :: Owner(g, x, id) ==> id == g.list[x]
    ensures forall a :: InUnion(g, false, x, a) ==> a in g.base[g.list[x]]
  {
    forall y | Reaches(g, false, x, y) ensures x == y {
      var p :| IsPath(g, false, p) && p[0] == x && p[|p| - 1] == y;
      if |p| > 1 { NoStep(g, p[0], p[1]); }
    }
    hide Reaches;
  }

  /** Nodes 0 and 2 share an empty list, 0 is related to 1, and FP(1) is [7]. */
  function SharedList(): Graph<nat, nat> {
    Graph(map[0 := [1], 1 := [], 2 := []], map[0 := 10, 1 := 11, 2 := 10], map[10 := [], 11 := [7]])
  }

  lemma OwnerIsNode<T(!new), A(!new)>(g: Graph<T, A>, x: T, id: nat)
    requires g.WellFormed() && Owner(g, x, id)
    requires forall w :: w in g.succ && w != x ==> g.succ[w] == []
    ensures x in g.list && id == g.list[x]
  {
    hide Reaches;
    var w :| w in g.list && id == g.list[w] && Reaches(g, false, x, w) && Reaches(g, false, w, x);
    if w != x { RelatedToNothing(g, w); }
  }

  lemma SharedListUnions()
    ensures SharedList().WellFormed()
    ensures InUnion(SharedList(), false, 0, 7) && !InUnion(SharedList(), false, 2, 7)
  {
    var g := SharedList();
    assert !InUnion(g, false, 2, 7) by {
      hide Reaches;
      RelatedToNothing(g, 2);
      assert g.base[g.list[2]] == [];
    }
    assert Reaches(g, false, 0, 1) by {
      assert Edge(g, 0, 1);
      ReachesByStep(g, false, 0, 1);
    }
    hide Reaches;
    assert 1 in g.list && 7 in g.base[g.list[1]];
  }

  lemma SharedListOwners(f0: nat, f2: nat)
    requires Owner(SharedList(), 0, f0) && Owner(SharedList(), 2, f2)
    ensures f0 == 10 && f2 == 10
  {
    hide Owner;
    var g := SharedList();
    OwnerIsNode(g, 0, f0);
    RelatedToNothing(g, 2);
  }

  /** On that input the result is not the union: 7 ends up in the set of node 2, which is related to nothing. */
  method SharedListIsInexact() returns (p: Propagation<nat, nat>)
    ensures p.g == SharedList() && p.g.WellFormed() && p.F.Keys == p.g.succ.Keys && p.F[2] in p.lists
    ensures 7 in p.lists[p.F[2]] && !InUnion(p.g, false, 2, 7)
  {
    hide Inv, InUnion, Owner, SharersAgree, SingleNodes, Exact;
    var g := SharedList();
    assert g.succ.Keys == {0, 1, 2} && g.list.Keys == {0, 1, 2};
    p := new Propagation(g);
    AllNodes(g, p.View());
    p.Run([0, 1, 2]);
    SharedListOwners(p.F[0], p.F[2]);
    SharedListUnions();
  }

  lemma AllNodes<T(!new), A(!new)>(g: Graph<T, A>, s: State<T, A>)
    requires Inv(g, s)
    ensures s.n.Keys == g.succ.Keys
  {
  }

  // ---------------------------------------------------------------------------------------
  // Read sets and follow sets
  // ---------------------------------------------------------------------------------------

  /** The second relation on the nodes of `g`. */
  ghost predicate Relation<T(!new), A(!new)>(g: Graph<T, A>, includes: map<T, seq<T>>) {
    includes.Keys == g.succ.Keys && forall x, y :: x in includes && y in includes[x] ==> y in includes
  }

  /** `a` is in the read set of a node that `x` reaches by the second relation. */
  ghost predicate InFollow<T(!new), A(!new)>(g: Graph<T, A>, includes: map<T, seq<T>>, x: T, a: A)
    requires g.WellFormed()
  {
    exists y :: y in g.succ && Reaches(g.(succ := includes), false, x, y) && InUnion(g, false, y, a)
  }

  /** The nodes of a component of the first relation have one follow set. */
  ghost predicate ComponentsAgree<T(!new), A(!new)>(g: Graph<T, A>, includes: map<T, seq<T>>)
    requires g.WellFormed()
  {
    forall y, z, a :: y in g.succ && z in g.succ && Mutual(g, y, z) && InFollow(g, includes, y, a) ==>
                        InFollow(g, includes, z, a)
  }

  /** So they have if the first relation has no cycle through several nodes. */
  lemma SingleNodesAgree<T(!new), A(!new)>(g: Graph<T, A>, includes: map<T, seq<T>>)
    requires g.WellFormed() && SingleNodes(g)
    ensures ComponentsAgree(g, includes)
  {
    hide Reaches, InFollow;
  }

  ghost predicate OwnLists<T(!new), A(!new)>(g: Graph<T, A>) {
    forall x, y :: x in g.list && y in g.list && g.list[x] == g.list[y] ==> x == y
  }

  ghost predicate FollowExact<T(!new), A(!new)>(g: Graph<T, A>, includes: map<T, seq<T>>, f: map<T, nat>,
                                                lists: map<nat, seq<A>>)
    requires g.WellFormed()
  {
    forall x, a :: x in f && f[x] in lists ==> (a in lists[f[x]] <==> InFollow(g, includes, x, a))
  }

  /** A relation is all that reaching depends on. */
  lemma SameReach<T(!new), A(!new)>(g: Graph<T, A>, h: Graph<T, A>, x: T, y: T)
    requires g.succ == h.succ
    ensures Reaches(g, false, x, y) == Reaches(h, false, x, y)
  {
    if Reaches(g, false, x, y) {
      var p :| IsPath(g, false, p) && p[0] == x && p[|p| - 1] == y;
      assert IsPath(h, false, p);
    }
    if Reaches(h, false, x, y) {
      var p :| IsPath(h, false, p) && p[0] == x && p[|p| - 1] == y;
      assert IsPath(g, false, p);
    }
  }

  /** The unions of the second run are the follow sets. */
  lemma FollowUnion<T(!new), A(!new)>(g: Graph<T, A>, includes: map<T, seq<T>>, h: Graph<T, A>, x: T, a: A)
    requires g.WellFormed() && h.WellFormed() && Relation(g, includes) && h.succ == includes
    requires Exact(g, h.list, h.base)
    ensures InUnion(h, false, x, a) <==> InFollow(g, includes, x, a)
  {
    if InUnion(h, false, x, a) {
      var y :| y in h.list && Reaches(h, false, x, y) && a in h.base[h.list[y]];
      SameReach(h, g.(succ := includes), x, y);
    }
    if InFollow(g, includes, x, a) {
      var y :| y in g.succ && Reaches(g.(succ := includes), false, x, y) && InUnion(g, false, y, a);
      SameReach(h, g.(succ := includes), x, y);
    }
  }

  /** After the first run nodes have one list exactly if they are of one component. */
  lemma ListsAreComponents<T(!new), A(!new)>(g: Graph<T, A>, f: map<T, nat>, x: T, y: T)
    requires OwnLists(g) && x in f && y in f && Owner(g, x, f[x]) && Owner(g, y, f[y]) && f[x] == f[y]
    ensures Mutual(g, x, y)
  {
    var v :| v in g.list && f[x] == g.list[v] && Reaches(g, false, x, v) && Reaches(g, false, v, x);
    var w :| w in g.list && f[y] == g.list[w] && Reaches(g, false, y, w) && Reaches(g, false, w, y);
    hide Reaches;
    assert v == w;
    ReachesTrans(g, false, x, v, y);
    ReachesTrans(g, false, y, v, x);
  }

  /** ... so that sharing a list in the second run is being of one component in the first. */
  lemma SharersAreComponents<T(!new), A(!new)>(g: Graph<T, A>, includes: map<T, seq<T>>, h: Graph<T, A>)
    requires g.WellFormed() && h.WellFormed() && Relation(g, includes) && h.succ == includes
    requires Exact(g, h.list, h.base) && OwnLists(g)
    requires forall x :: x in h.list ==> Owner(g, x, h.list[x])
    requires forall x, y :: x in h.list && y in h.list && Mutual(g, x, y) ==> h.list[x] == h.list[y]
    ensures SharersAgree(h) <==> ComponentsAgree(g, includes)
  {
    hide Mutual, InUnion, InFollow, Owner, Exact;
    forall x, a ensures InUnion(h, false, x, a) <==> InFollow(g, includes, x, a) {
      FollowUnion(g, includes, h, x, a);
    }
    forall x, y | x in h.list && y in h.list && h.list[x] == h.list[y] ensures Mutual(g, x, y) {
      ListsAreComponents(g, h.list, x, y);
    }
  }

  lemma FollowIsExact<T(!new), A(!new)>(g: Graph<T, A>, includes: map<T, seq<T>>, h: Graph<T, A>,
                                        f: map<T, nat>, lists: map<nat, seq<A>>)
    requires g.WellFormed() && h.WellFormed() && Relation(g, includes) && h.succ == includes
    requires Exact(g, h.list, h.base)
    ensures FollowExact(g, includes, f, lists) <==> Exact(h, f, lists)
  {
    hide InUnion, InFollow;
    forall x, a ensures InUnion(h, false, x, a) <==> InFollow(g, includes, x, a) {
      FollowUnion(g, includes, h, x, a);
    }
  }

  lemma OwnListsAgree<T(!new), A(!new)>(g: Graph<T, A>)
    requires g.WellFormed() && OwnLists(g)
    ensures SharersAgree(g)
  {
    hide InUnion;
  }

  /**
   compute_read_sets, then compute_follow_sets on the lists that the first run has filled and shared: the
   sets hold all they should, and are exact if the nodes of each component of the first relation have one
   follow set. If the second relation has no cycle through several nodes, they are exact only then.
   */
  method FollowSets<T(==, !new), A(==, !new)>(g: Graph<T, A>, includes: map<T, seq<T>>, X: seq<T>)
    returns (p: Propagation<T, A>)
    requires g.WellFormed() && OwnLists(g) && Relation(g, includes) && forall x :: x in X <==> x in g.succ
    ensures p.F.Keys == g.succ.Keys && forall x :: x in p.F ==> p.F[x] in p.lists
    ensures forall x, a :: x in p.F && InFollow(g, includes, x, a) ==> a in p.lists[p.F[x]]
    ensures ComponentsAgree(g, includes) ==> FollowExact(g, includes, p.F, p.lists)
    ensures SingleNodes(g.(succ := includes)) ==>
              (FollowExact(g, includes, p.F, p.lists) <==> ComponentsAgree(g, includes))
  {
    hide Inv, InUnion, Owner, SharersAgree, SingleNodes, Exact, Mutual, InFollow, ComponentsAgree, FollowExact;
    var first := new Propagation(g);
    AllNodes(g, first.View());
    first.Run(X);
    OwnListsAgree(g);
    var h := Graph(includes, first.F, first.lists);
    assert h.WellFormed();
    p := new Propagation(h);
    AllNodes(h, p.View());
    p.Run(X);
    SharersAreComponents(g, includes, h);
    FollowIsExact(g, includes, h, p.F, p.lists);
    SameSingles(h, g.(succ := includes));
    forall x, a | x in p.F && InFollow(g, includes, x, a) ensures a in p.lists[p.F[x]] {
      FollowUnion(g, includes, h, x, a);
    }
  }

  lemma SameSingles<T(!new), A(!new)>(g: Graph<T, A>, h: Graph<T, A>)
    requires g.succ == h.succ
    ensures SingleNodes(g) == SingleNodes(h)
  {
    forall x, y ensures Reaches(g, false, x, y) == Reaches(h, false, x, y) {
      SameReach(g, h, x, y);
    }
    hide Reaches;
  }

  lemma {:induction false} PathStays<T(!new), A(!new)>(g: Graph<T, A>, nodes: set<T>, p: seq<T>)
    requires IsPath(g, false, p) && p[0] in nodes && forall u, v :: u in nodes && Edge(g, u, v) ==> v in nodes
    ensures p[|p| - 1] in nodes
    decreases |p|
  {
    if |p| > 1 {
      assert Step(g, false, p[0], p[1]);
      PathStays(g, nodes, p[1..]);
    }
  }

  /** A set of nodes that no edge leaves is not left by reaching either. */
  lemma StaysIn<T(!new), A(!new)>(g: Graph<T, A>, nodes: set<T>, x: T, y: T)
    requires x in nodes && Reaches(g, false, x, y) && forall u, v :: u in nodes && Edge(g, u, v) ==> v in nodes
    ensures y in nodes
  {
    var p :| IsPath(g, false, p) && p[0] == x && p[|p| - 1] == y;
    PathStays(g, nodes, p);
  }

  /** Nodes 0 and 2 read each other, and only 0 includes 1, which has a terminal. */
  function Reading(): Graph<nat, nat> {
    Graph(map[0 := [2], 1 := [], 2 := [0]], map[0 := 10, 1 := 11, 2 := 12], map[10 := [], 11 := [7], 12 := []])
  }

  function Including(): map<nat, seq<nat>> {
    map[0 := [1], 1 := [], 2 := []]
  }

  lemma ReadingKeys()
    ensures Reading().succ.Keys == {0, 1, 2} && Reading().list.Keys == {0, 1, 2} && Including().Keys == {0, 1, 2}
  {
  }

  lemma ReadingForm()
    ensures Reading().WellFormed() && OwnLists(Reading())
  {
    ReadingKeys();
  }

  lemma IncludingForm()
    ensures Relation(Reading(), Including())
  {
    ReadingKeys();
  }

  lemma ReadsNothing()
    requires Reading().WellFormed()
    ensures !InUnion(Reading(), false, 2, 7)
  {
    var g := Reading();
    forall y: nat | Reaches(g, false, 2, y) ensures y in {0, 2} {
      StaysIn(g, {0, 2}, 2, y);
    }
    hide Reaches;
  }

  lemma ReadsSeven()
    requires Reading().WellFormed()
    ensures InUnion(Reading(), false, 1, 7)
  {
    var g := Reading();
    ReachesSelf(g, false, 1);
    hide Reaches;
    assert 1 in g.list && 7 in g.base[g.list[1]];
  }

  lemma FollowsSeven()
    requires Reading().WellFormed()
    ensures InFollow(Reading(), Including(), 0, 7)
  {
    ReadsSeven();
    var h := Reading().(succ := Including());
    assert Edge(h, 0, 1);
    ReachesByStep(h, false, 0, 1);
    hide Reaches, InUnion;
    assert 1 in Reading().succ;
  }

  lemma FollowsNothing()
    requires Reading().WellFormed()
    ensures !InFollow(Reading(), Including(), 2, 7)
  {
    ReadsNothing();
    var h := Reading().(succ := Including());
    forall y: nat | Reaches(h, false, 2, y) ensures y == 2 {
      StaysIn(h, {2}, 2, y);
    }
    hide Reaches, InUnion;
  }

  lemma ReadingComponents()
    ensures Mutual(Reading(), 0, 2) && SingleNodes(Reading().(succ := Including()))
  {
    var g := Reading();
    var h := g.(succ := Including());
    assert Edge(g, 0, 2) && Edge(g, 2, 0);
    ReachesByStep(g, false, 0, 2);
    ReachesByStep(g, false, 2, 0);
    forall x: nat, y: nat | Reaches(h, false, x, y) && Reaches(h, false, y, x) ensures x == y {
      if x != 0 { StaysIn(h, {x}, x, y); } else if y != 0 { StaysIn(h, {y}, y, x); }
    }
  }

  /** On that input the follow sets are not exact: the sharing of lists in the first run spoils the second. */
  method FollowSetsInexact() returns (p: Propagation<nat, nat>)
    ensures Reading().WellFormed() && !FollowExact(Reading(), Including(), p.F, p.lists)
  {
    hide InFollow, Mutual, SingleNodes, FollowExact, OwnLists;
    ReadingKeys();
    ReadingForm();
    IncludingForm();
    FollowsSeven();
    FollowsNothing();
    ReadingComponents();
    p := FollowSets(Reading(), Including(), [0, 1, 2]);
  }
}
