/**
 * The scene hierarchy as a value: every node has an ordered list of
 * children, and a node with a parent records it. The three.js operations
 * the editor relies on (`attach`/`add`, which move a node to the end of a
 * new parent's children, and `remove`/`removeFromParent`, which unlink it)
 * are functions on this value, together with the walks the editor makes
 * over it (`traverse` in pre-order, the climb of `hierarchyDistanceTo`).
 *
 * Acyclicity is witnessed by a ghost depth `rank`: a parent is ranked below
 * each of its children.
 */
module Trees {
  import opened Wrappers
  import opened Seqs
  import opened Augments

  datatype Tree<T> = Tree(parent: map<T, T>, children: map<T, seq<T>>)

  function ParentOf<T>(t: Tree<T>, x: T): Option<T> {
    if x in t.parent then Some(t.parent[x]) else None
  }

  function Kids<T>(t: Tree<T>, x: T): seq<T> {
    if x in t.children then t.children[x] else []
  }

  /** The node reached from `x` after `n` parent steps, if the climb gets that far. */
  function Climb<T>(t: Tree<T>, x: T, n: nat): Option<T> {
    if n == 0 then Some(x)
    else
      match Climb(t, x, n - 1)
      case None => None
      case Some(y) => ParentOf(t, y)
  }

  /** Every parent, every child listed and every node with a parent has a children list. */
  predicate Closed<T>(t: Tree<T>) {
    && t.parent.Keys <= t.children.Keys
    && (forall c :: c in t.parent ==> t.parent[c] in t.children)
    && (forall p, i :: p in t.children && 0 <= i < |t.children[p]| ==> t.children[p][i] in t.children)
  }

  ghost predicate UpLinked<T>(t: Tree<T>, rank: map<T, nat>, c: T)
    requires c in t.parent
  {
    var p := t.parent[c];
    p in t.children && c in t.children[p] && p in rank && c in rank && rank[p] < rank[c]
  }

  ghost predicate DownLinked<T>(t: Tree<T>, p: T, i: int)
    requires p in t.children && 0 <= i < |t.children[p]|
  {
    var c := t.children[p][i];
    c in t.parent && t.parent[c] == p
  }

  /**
   * `t` is a forest ranked by `rank`: the parent and children links agree,
   * no list repeats a child, and each parent is ranked below its children.
   */
  ghost predicate Ranked<T>(t: Tree<T>, rank: map<T, nat>) {
    && t.children.Keys == rank.Keys
    && t.parent.Keys <= t.children.Keys
    && (forall c :: c in t.parent ==> UpLinked(t, rank, c))
    && (forall p, i :: p in t.children && 0 <= i < |t.children[p]| ==> DownLinked(t, p, i))
    && (forall p :: p in t.children ==> NoDup(t.children[p]))
  }

  ghost predicate Bounded<T>(rank: map<T, nat>, bound: nat) {
    forall x :: x in rank ==> rank[x] < bound
  }

  /** `a` is `x` or one of its ancestors. */
  ghost predicate Above<T>(t: Tree<T>, rank: map<T, nat>, a: T, x: T)
    requires Ranked(t, rank) && x in rank
    decreases rank[x]
  {
    x == a || (x in t.parent && UpLinked(t, rank, x) && Above(t, rank, a, t.parent[x]))
  }

  /** Every parent link goes down in `order`: `order` ranks the tree, whatever its lists. */
  ghost predicate Descends<T>(t: Tree<T>, order: map<T, nat>) {
    forall c {:trigger t.parent[c]} :: c in t.parent ==> c in order && t.parent[c] in order && order[t.parent[c]] < order[c]
  }

  lemma RankedClosed<T>(t: Tree<T>, rank: map<T, nat>)
    requires Ranked(t, rank)
    ensures Closed(t) && Descends(t, rank)
  {
    forall c | c in t.parent
      ensures t.parent[c] in t.children && t.parent[c] in rank && rank[t.parent[c]] < rank[c]
    {
      assert UpLinked(t, rank, c);
    }
    forall p, i | p in t.children && 0 <= i < |t.children[p]|
      ensures t.children[p][i] in t.children
    {
      assert DownLinked(t, p, i);
    }
  }

  /** A node listed as a child of `p` has `p` as its parent. */
  lemma ChildParent<T>(t: Tree<T>, rank: map<T, nat>, p: T, x: T)
    requires Ranked(t, rank) && p in t.children && x in t.children[p]
    ensures x in t.parent && t.parent[x] == p
  {
    var i := FirstIndex(t.children[p], x);
    assert DownLinked(t, p, i);
  }

  // ---------------------------------------------------------------------------
  // Sequence facts about removing a child from a list
  // ---------------------------------------------------------------------------

  lemma RemoveFirstKeeps<T>(s: seq<T>, x: T, y: T)
    requires y != x
    ensures y in RemoveFirst(s, x) <==> y in s
  {
    RemoveFirstCounts(s, x, y);
    assert y in s <==> multiset(s)[y] > 0;
    assert y in RemoveFirst(s, x) <==> multiset(RemoveFirst(s, x))[y] > 0;
  }

  lemma RemoveFirstNoDup<T>(s: seq<T>, x: T)
    requires NoDup(s)
    ensures NoDup(RemoveFirst(s, x)) && x !in RemoveFirst(s, x)
  {
    if x in s {
      var i := FirstIndex(s, x);
      RemoveFirstSplices(s, x);
      var r := RemoveFirst(s, x);
      assert forall k :: 0 <= k < |r| ==> r[k] == if k < i then s[k] else s[k + 1];
    }
  }

  // ---------------------------------------------------------------------------
  // The ancestor relation
  // ---------------------------------------------------------------------------

  /** An ancestor-or-self of `x` is ranked no deeper than `x`. */
  lemma {:induction false} AboveRank<T>(t: Tree<T>, rank: map<T, nat>, a: T, x: T)
    requires Ranked(t, rank) && x in rank && Above(t, rank, a, x)
    ensures a in rank && rank[a] <= rank[x]
    decreases rank[x]
  {
    if x != a {
      AboveRank(t, rank, a, t.parent[x]);
    }
  }

  /** In any ranking the links descend in, an ancestor-or-self is ranked no deeper. */
  lemma {:induction false} AboveDescends<T>(t: Tree<T>, rank: map<T, nat>, order: map<T, nat>, a: T, x: T)
    requires Ranked(t, rank) && Descends(t, order) && x in rank && x in order && Above(t, rank, a, x)
    ensures a in order && order[a] <= order[x]
    decreases rank[x]
  {
    if x != a {
      AboveDescends(t, rank, order, a, t.parent[x]);
    }
  }

  /** A node ranked above `o` in a ranking the links go down in is not in the subtree of `o`. */
  lemma DescendsNotAbove<T>(t: Tree<T>, rank: map<T, nat>, order: map<T, nat>, o: T, p: T)
    requires Ranked(t, rank) && Descends(t, order) && p in rank && p in order && o in order && order[p] < order[o]
    ensures !Above(t, rank, o, p)
  {
    if Above(t, rank, o, p) {
      AboveDescends(t, rank, order, o, p);
    }
  }

  /** The ancestors of a child's node are ancestors of its parent's node too. */
  lemma {:induction false} AboveStep<T>(t: Tree<T>, rank: map<T, nat>, c: T, x: T)
    requires Ranked(t, rank) && c in t.parent && x in rank && Above(t, rank, c, x)
    ensures Above(t, rank, t.parent[c], x)
    decreases rank[x]
  {
    assert UpLinked(t, rank, c);
    if x == c {
      assert Above(t, rank, t.parent[c], t.parent[c]);
    } else {
      AboveStep(t, rank, c, t.parent[x]);
    }
  }

  /** Below a strict ancestor `o` of `x`, the path to `x` goes through a child of `o`. */
  lemma {:induction false} AboveChild<T>(t: Tree<T>, rank: map<T, nat>, o: T, x: T) returns (c: T)
    requires Ranked(t, rank) && x in rank && Above(t, rank, o, x) && x != o
    ensures c in t.parent && t.parent[c] == o && c in rank && Above(t, rank, c, x)
    decreases rank[x]
  {
    var p := t.parent[x];
    assert UpLinked(t, rank, x);
    if p == o {
      c := x;
    } else {
      c := AboveChild(t, rank, o, p);
    }
  }

  /** `a` is an ancestor-or-self of `x` exactly when some climb from `x` reaches it. */
  lemma {:induction false} AboveClimb<T>(t: Tree<T>, rank: map<T, nat>, a: T, x: T) returns (n: nat)
    requires Ranked(t, rank) && x in rank && Above(t, rank, a, x)
    ensures Climb(t, x, n) == Some(a)
    decreases rank[x]
  {
    if x == a {
      n := 0;
    } else {
      var m := AboveClimb(t, rank, a, t.parent[x]);
      n := ClimbFirst(t, x, m);
    }
  }

  /** A climb of `m` steps from `x`'s parent is a climb of `m + 1` steps from `x`. */
  lemma {:induction false} ClimbFirst<T>(t: Tree<T>, x: T, m: nat) returns (n: nat)
    requires x in t.parent
    ensures n == m + 1 && Climb(t, x, n) == Climb(t, t.parent[x], m)
  {
    n := m + 1;
    if m > 0 {
      var k := ClimbFirst(t, x, m - 1);
    }
  }

  lemma {:induction false} ClimbAbove<T>(t: Tree<T>, rank: map<T, nat>, a: T, x: T, n: nat)
    requires Ranked(t, rank) && x in rank && Climb(t, x, n) == Some(a)
    ensures Above(t, rank, a, x)
  {
    if n > 0 {
      var y := Climb(t, x, n - 1).value;
      ClimbAbove(t, rank, y, x, n - 1);
      AboveStep(t, rank, y, x);
    }
  }

  /** The number of parent steps from `x` up to its ancestor-or-self `a`. */
  ghost function Dist<T>(t: Tree<T>, rank: map<T, nat>, a: T, x: T): nat
    requires Ranked(t, rank) && x in rank && Above(t, rank, a, x)
    decreases rank[x]
  {
    if x == a then 0 else 1 + Dist(t, rank, a, t.parent[x])
  }

  /** A climb of `Dist` steps from `x` reaches `a`, and no shorter climb does. */
  lemma {:induction false} DistClimb<T>(t: Tree<T>, rank: map<T, nat>, a: T, x: T)
    requires Ranked(t, rank) && x in rank && Above(t, rank, a, x)
    ensures Climb(t, x, Dist(t, rank, a, x)) == Some(a)
    ensures forall k :: 0 <= k < Dist(t, rank, a, x) ==> Climb(t, x, k) != Some(a)
    decreases rank[x]
  {
    if x != a {
      var p := t.parent[x];
      assert UpLinked(t, rank, x);
      DistClimb(t, rank, a, p);
      var n := ClimbFirst(t, x, Dist(t, rank, a, p));
      forall k | 0 <= k < Dist(t, rank, a, x)
        ensures Climb(t, x, k) != Some(a)
      {
        if k > 0 {
          var j := ClimbFirst(t, x, k - 1);
        }
      }
    }
  }

  /** The shortest climb from `x` that reaches `a` has `Dist` steps. */
  lemma ShortestClimb<T>(t: Tree<T>, rank: map<T, nat>, a: T, x: T, d: nat)
    requires Ranked(t, rank) && x in rank && Climb(t, x, d) == Some(a)
    requires forall k :: 0 <= k < d ==> Climb(t, x, k) != Some(a)
    ensures Above(t, rank, a, x) && Dist(t, rank, a, x) == d
  {
    ClimbAbove(t, rank, a, x, d);
    DistClimb(t, rank, a, x);
  }

  /**
   * A node in the subtree of `o` is strictly farther from an ancestor `r`
   * of `o`'s parent than that parent is.
   */
  lemma {:induction false} DistBelow<T>(t: Tree<T>, rank: map<T, nat>, r: T, o: T, x: T)
    requires Ranked(t, rank) && x in rank && Above(t, rank, o, x)
    requires o in t.parent && t.parent[o] in rank && Above(t, rank, r, t.parent[o])
    ensures Above(t, rank, r, x) && Dist(t, rank, r, t.parent[o]) < Dist(t, rank, r, x)
    decreases rank[x]
  {
    var q := t.parent[o];
    assert UpLinked(t, rank, o);
    AboveRank(t, rank, r, q);
    AboveRank(t, rank, o, x);
    if x == o {
      assert x != r;
    } else {
      var p := t.parent[x];
      assert UpLinked(t, rank, x);
      DistBelow(t, rank, r, o, p);
      AboveRank(t, rank, r, p);
      assert x != r;
    }
  }

  // ---------------------------------------------------------------------------
  // Pre-order traversal
  // ---------------------------------------------------------------------------

  /** `traverse`: the node itself, then the pre-order of each child in list order. */
  function PreOrder<T>(t: Tree<T>, ghost rank: map<T, nat>, ghost bound: nat, o: T): seq<T>
    requires Ranked(t, rank) && Bounded(rank, bound) && o in t.children
    decreases bound - rank[o], |t.children[o]| + 1
  {
    [o] + Forest(t, rank, bound, o, 0)
  }

  /** The pre-orders of the children of `o` from index `i` on, concatenated. */
  function Forest<T>(t: Tree<T>, ghost rank: map<T, nat>, ghost bound: nat, o: T, i: nat): seq<T>
    requires Ranked(t, rank) && Bounded(rank, bound) && o in t.children && i <= |t.children[o]|
    decreases bound - rank[o], |t.children[o]| - i
  {
    if i == |t.children[o]| then []
    else
      var c := t.children[o][i];
      assert DownLinked(t, o, i) && UpLinked(t, rank, c);
      PreOrder(t, rank, bound, c) + Forest(t, rank, bound, o, i + 1)
  }

  lemma {:induction false} PreOrderSound<T>(t: Tree<T>, rank: map<T, nat>, bound: nat, o: T, x: T)
    requires Ranked(t, rank) && Bounded(rank, bound) && o in t.children
    requires x in PreOrder(t, rank, bound, o)
    ensures x in rank && Above(t, rank, o, x)
    decreases bound - rank[o], |t.children[o]| + 1
  {
    if x != o {
      ForestSound(t, rank, bound, o, 0, x);
    }
  }

  lemma {:induction false} ForestSound<T>(t: Tree<T>, rank: map<T, nat>, bound: nat, o: T, i: nat, x: T)
    requires Ranked(t, rank) && Bounded(rank, bound) && o in t.children && i <= |t.children[o]|
    requires x in Forest(t, rank, bound, o, i)
    ensures x in rank && Above(t, rank, o, x)
    decreases bound - rank[o], |t.children[o]| - i
  {
    var c := t.children[o][i];
    assert DownLinked(t, o, i) && UpLinked(t, rank, c);
    if x in PreOrder(t, rank, bound, c) {
      PreOrderSound(t, rank, bound, c, x);
      AboveStep(t, rank, c, x);
    } else {
      ForestSound(t, rank, bound, o, i + 1, x);
    }
  }

  lemma {:induction false} ForestHas<T>(t: Tree<T>, rank: map<T, nat>, bound: nat, o: T, i: nat, k: nat, x: T)
    requires Ranked(t, rank) && Bounded(rank, bound) && o in t.children && i <= k < |t.children[o]|
    requires t.children[o][k] in t.children && x in PreOrder(t, rank, bound, t.children[o][k])
    ensures x in Forest(t, rank, bound, o, i)
    decreases k - i
  {
    if i < k {
      ForestHas(t, rank, bound, o, i + 1, k, x);
    }
  }

  lemma {:induction false} PreOrderComplete<T>(t: Tree<T>, rank: map<T, nat>, bound: nat, o: T, x: T)
    requires Ranked(t, rank) && Bounded(rank, bound) && o in t.children && x in rank && Above(t, rank, o, x)
    ensures x in PreOrder(t, rank, bound, o)
    decreases bound - rank[o]
  {
    if x != o {
      var c := AboveChild(t, rank, o, x);
      assert UpLinked(t, rank, c);
      var k := FirstIndex(t.children[o], c);
      PreOrderComplete(t, rank, bound, c, x);
      ForestHas(t, rank, bound, o, 0, k, x);
    }
  }

  /** The pre-order from `o` visits exactly `o` and its descendants. */
  lemma PreOrderAbove<T>(t: Tree<T>, rank: map<T, nat>, bound: nat, o: T, x: T)
    requires Ranked(t, rank) && Bounded(rank, bound) && o in t.children
    ensures x in PreOrder(t, rank, bound, o) <==> x in rank && Above(t, rank, o, x)
  {
    if x in PreOrder(t, rank, bound, o) {
      PreOrderSound(t, rank, bound, o, x);
    }
    if x in rank && Above(t, rank, o, x) {
      PreOrderComplete(t, rank, bound, o, x);
    }
  }

  // ---------------------------------------------------------------------------
  // Moving and unlinking nodes
  // ---------------------------------------------------------------------------

  /**
   * three.js `attach`/`add`: `o` leaves its parent's list and becomes the
   * last child of `p`.
   */
  function AttachT<T>(t: Tree<T>, o: T, p: T): (r: Tree<T>)
    ensures r.children.Keys == t.children.Keys
  {
    var c1 := if o in t.parent && t.parent[o] in t.children
              then t.children[t.parent[o] := RemoveFirst(t.children[t.parent[o]], o)]
              else t.children;
    Tree(t.parent[o := p], if p in c1 then c1[p := c1[p] + [o]] else c1)
  }

  /** three.js `removeFromParent`: `o` leaves its parent's list and has no parent. */
  function DetachT<T>(t: Tree<T>, o: T): (r: Tree<T>)
    ensures r.children.Keys == t.children.Keys
  {
    if o in t.parent && t.parent[o] in t.children then
      Tree(t.parent - {o}, t.children[t.parent[o] := RemoveFirst(t.children[t.parent[o]], o)])
    else
      Tree(t.parent - {o}, t.children)
  }

  /** Moving `o` below `p` deepens the subtree of `o` by `rank[p] + 1`. */
  ghost function Rerank<T>(t: Tree<T>, rank: map<T, nat>, o: T, p: T): map<T, nat>
    requires Ranked(t, rank) && p in rank
  {
    map x | x in rank :: if Above(t, rank, o, x) then rank[x] + rank[p] + 1 else rank[x]
  }

  /** After the move, `o` is the last child of `p` and nothing else changes parent. */
  lemma AttachShape<T>(t: Tree<T>, rank: map<T, nat>, o: T, p: T)
    requires Ranked(t, rank) && o in rank && p in rank && o != p
    ensures var r := AttachT(t, o, p);
      && r.parent == t.parent[o := p]
      && r.children[p] == RemoveFirst(t.children[p], o) + [o]
      && (forall q :: q in t.children && q != p ==> r.children[q] == RemoveFirst(t.children[q], o))
  {
    forall q | q in t.children && o in t.children[q]
      ensures o in t.parent && t.parent[o] == q
    {
      ChildParent(t, rank, q, o);
    }
  }

  lemma AttachUp<T>(t: Tree<T>, rank: map<T, nat>, o: T, p: T, c: T)
    requires Ranked(t, rank) && o in rank && p in rank && !Above(t, rank, o, p)
    requires c in AttachT(t, o, p).parent
    ensures UpLinked(AttachT(t, o, p), Rerank(t, rank, o, p), c)
  {
    var r, rank' := AttachT(t, o, p), Rerank(t, rank, o, p);
    AttachShape(t, rank, o, p);
    if c != o {
      assert UpLinked(t, rank, c);
      var q := t.parent[c];
      RemoveFirstKeeps(t.children[q], o, c);
      assert Above(t, rank, o, c) <==> Above(t, rank, o, q);
    }
  }

  lemma AttachDown<T>(t: Tree<T>, rank: map<T, nat>, o: T, p: T, q: T, i: int)
    requires Ranked(t, rank) && o in rank && p in rank && o != p
    requires q in AttachT(t, o, p).children && 0 <= i < |AttachT(t, o, p).children[q]|
    ensures DownLinked(AttachT(t, o, p), q, i)
  {
    var r := AttachT(t, o, p);
    AttachShape(t, rank, o, p);
    var s := RemoveFirst(t.children[q], o);
    if !(q == p && i == |s|) {
      var x := r.children[q][i];
      assert x == s[i] && x in s;
      RemoveFirstNoDup(t.children[q], o);
      RemoveFirstKeeps(t.children[q], o, x);
      ChildParent(t, rank, q, x);
    }
  }

  lemma AttachNoDup<T>(t: Tree<T>, rank: map<T, nat>, o: T, p: T, q: T)
    requires Ranked(t, rank) && o in rank && p in rank && o != p && q in rank
    ensures NoDup(AttachT(t, o, p).children[q])
  {
    AttachShape(t, rank, o, p);
    var s := RemoveFirst(t.children[q], o);
    RemoveFirstNoDup(t.children[q], o);
    if q == p {
      assert forall k :: 0 <= k < |s| ==> (s + [o])[k] == s[k];
    }
  }

  /** Moving a node below a node outside its own subtree keeps the forest ranked. */
  lemma AttachRanked<T>(t: Tree<T>, rank: map<T, nat>, bound: nat, o: T, p: T)
    requires Ranked(t, rank) && Bounded(rank, bound) && o in rank && p in rank && !Above(t, rank, o, p)
    ensures Ranked(AttachT(t, o, p), Rerank(t, rank, o, p))
    ensures Bounded(Rerank(t, rank, o, p), bound + rank[p] + 1)
  {
    var r, rank' := AttachT(t, o, p), Rerank(t, rank, o, p);
    forall c | c in r.parent
      ensures UpLinked(r, rank', c)
    {
      AttachUp(t, rank, o, p, c);
    }
    forall q, i | q in r.children && 0 <= i < |r.children[q]|
      ensures DownLinked(r, q, i)
    {
      AttachDown(t, rank, o, p, q, i);
    }
    forall q | q in r.children
      ensures NoDup(r.children[q])
    {
      AttachNoDup(t, rank, o, p, q);
    }
  }

  /** Moving `o` leaves the ancestors of every node outside the subtree of `o` alone. */
  lemma {:induction false} AttachKeepsAbove<T>(t: Tree<T>, rank: map<T, nat>, o: T, p: T, a: T, x: T)
    requires Ranked(t, rank) && o in rank && p in rank && !Above(t, rank, o, p)
    requires Ranked(AttachT(t, o, p), Rerank(t, rank, o, p))
    requires x in rank && !Above(t, rank, o, x)
    ensures Above(AttachT(t, o, p), Rerank(t, rank, o, p), a, x) <==> Above(t, rank, a, x)
    decreases rank[x]
  {
    var r, rank' := AttachT(t, o, p), Rerank(t, rank, o, p);
    if x != a && x in t.parent {
      assert UpLinked(t, rank, x) && UpLinked(r, rank', x);
      AttachKeepsAbove(t, rank, o, p, a, t.parent[x]);
    }
  }

  /** Unlinking a node keeps the forest ranked by the same ranks. */
  lemma DetachRanked<T>(t: Tree<T>, rank: map<T, nat>, o: T)
    requires Ranked(t, rank)
    ensures Ranked(DetachT(t, o), rank)
  {
    var r := DetachT(t, o);
    if o in t.parent {
      assert UpLinked(t, rank, o);
      var q := t.parent[o];
      RemoveFirstNoDup(t.children[q], o);
      forall c | c in r.parent
        ensures UpLinked(r, rank, c)
      {
        assert UpLinked(t, rank, c);
        RemoveFirstKeeps(t.children[q], o, c);
      }
      forall q', i | q' in r.children && 0 <= i < |r.children[q']|
        ensures DownLinked(r, q', i)
      {
        var x := r.children[q'][i];
        assert x in r.children[q'];
        if q' == q {
          RemoveFirstKeeps(t.children[q], o, x);
        }
        ChildParent(t, rank, q', x);
      }
    } else {
      assert r == t;
    }
  }

  /** Adding a link that goes down in `order` keeps every link going down in it. */
  lemma AttachDescends<T>(t: Tree<T>, order: map<T, nat>, o: T, p: T)
    requires Descends(t, order) && o in order && p in order && order[p] < order[o]
    ensures Descends(AttachT(t, o, p), order)
  {
  }

  // ---------------------------------------------------------------------------
  // `EObject.add`/`attach` and `EObject.remove` over a list of objects
  // ---------------------------------------------------------------------------

  /** Moves below `p`, in list order, each object whose parent is not `p` at its turn. */
  function AttachEach<T>(t: Tree<T>, objs: seq<T>, p: T): Tree<T>
    decreases |objs|
  {
    if objs == [] then t
    else
      var t1 := if ParentOf(t, objs[0]) != Some(p) then AttachT(t, objs[0], p) else t;
      AttachEach(t1, objs[1..], p)
  }

  /** Unlinks, in list order, each object whose parent is `p` at its turn. */
  function DetachEach<T>(t: Tree<T>, objs: seq<T>, p: T): Tree<T>
    decreases |objs|
  {
    if objs == [] then t
    else
      var t1 := if ParentOf(t, objs[0]) == Some(p) then DetachT(t, objs[0]) else t;
      DetachEach(t1, objs[1..], p)
  }

  /**
   * `acc` followed by the objects `add`/`attach` moves, in list order: those
   * whose parent is not `p` at their turn.
   */
  function Moved<T>(t: Tree<T>, objs: seq<T>, p: T, acc: seq<T>): seq<T>
    decreases |objs|
  {
    if objs == [] then acc
    else if ParentOf(t, objs[0]) != Some(p) then Moved(AttachT(t, objs[0], p), objs[1..], p, acc + [objs[0]])
    else Moved(t, objs[1..], p, acc)
  }

  /**
   * `acc` followed by the objects `remove` unlinks, in list order: those
   * whose parent is `p` at their turn.
   */
  function Unlinked<T>(t: Tree<T>, objs: seq<T>, p: T, acc: seq<T>): seq<T>
    decreases |objs|
  {
    if objs == [] then acc
    else if ParentOf(t, objs[0]) == Some(p) then Unlinked(DetachT(t, objs[0]), objs[1..], p, acc + [objs[0]])
    else Unlinked(t, objs[1..], p, acc)
  }

  /** One turn of `add`/`attach`: both folds continue from the tree after the first object's move. */
  lemma AttachTurn<T>(t: Tree<T>, o: T, rest: seq<T>, p: T, acc: seq<T>)
    ensures var moved := ParentOf(t, o) != Some(p);
      var t1 := if moved then AttachT(t, o, p) else t;
      && AttachEach(t, [o] + rest, p) == AttachEach(t1, rest, p)
      && Moved(t, [o] + rest, p, acc) == Moved(t1, rest, p, if moved then acc + [o] else acc)
  {
    assert ([o] + rest)[0] == o && ([o] + rest)[1..] == rest;
  }

  /** `add`/`attach` moves exactly the listed objects that had another parent (or none). */
  lemma {:induction false} MovedExactly<T>(t: Tree<T>, objs: seq<T>, p: T, acc: seq<T>, x: T)
    ensures x in Moved(t, objs, p, acc) <==> x in acc || (x in objs && ParentOf(t, x) != Some(p))
    decreases |objs|
  {
    if objs != [] {
      var o := objs[0];
      var t1 := if ParentOf(t, o) != Some(p) then AttachT(t, o, p) else t;
      var acc1 := if ParentOf(t, o) != Some(p) then acc + [o] else acc;
      MovedExactly(t1, objs[1..], p, acc1, x);
      assert x in objs <==> x == o || x in objs[1..];
    }
  }

  /** `remove` unlinks exactly the listed objects that were children of `p`. */
  lemma {:induction false} UnlinkedExactly<T>(t: Tree<T>, objs: seq<T>, p: T, acc: seq<T>, x: T)
    ensures x in Unlinked(t, objs, p, acc) <==> x in acc || (x in objs && ParentOf(t, x) == Some(p))
    decreases |objs|
  {
    if objs != [] {
      var o := objs[0];
      var t1 := if ParentOf(t, o) == Some(p) then DetachT(t, o) else t;
      var acc1 := if ParentOf(t, o) == Some(p) then acc + [o] else acc;
      UnlinkedExactly(t1, objs[1..], p, acc1, x);
      assert x in objs <==> x == o || x in objs[1..];
    }
  }

  /** After `add`/`attach`, every listed object has parent `p` and every other node keeps its parent. */
  lemma {:induction false} AttachEachParents<T>(t: Tree<T>, objs: seq<T>, p: T, x: T)
    ensures ParentOf(AttachEach(t, objs, p), x) == if x in objs then Some(p) else ParentOf(t, x)
    decreases |objs|
  {
    if objs != [] {
      var t1 := if ParentOf(t, objs[0]) != Some(p) then AttachT(t, objs[0], p) else t;
      AttachEachParents(t1, objs[1..], p, x);
      assert x in objs <==> x == objs[0] || x in objs[1..];
    }
  }

  /** After `remove`, exactly the listed objects that were children of `p` have no parent. */
  lemma {:induction false} DetachEachParents<T>(t: Tree<T>, objs: seq<T>, p: T, x: T)
    ensures ParentOf(DetachEach(t, objs, p), x) == if x in objs && ParentOf(t, x) == Some(p) then None else ParentOf(t, x)
    decreases |objs|
  {
    if objs != [] {
      var t1 := if ParentOf(t, objs[0]) == Some(p) then DetachT(t, objs[0]) else t;
      DetachEachParents(t1, objs[1..], p, x);
      assert x in objs <==> x == objs[0] || x in objs[1..];
    }
  }

  /** Moving objects below a parent ranked above each of them keeps every link going down. */
  lemma {:induction false} AttachEachDescends<T>(t: Tree<T>, order: map<T, nat>, objs: seq<T>, p: T)
    requires Descends(t, order) && p in order && forall y :: y in objs ==> y in order && order[p] < order[y]
    ensures Descends(AttachEach(t, objs, p), order)
    decreases |objs|
  {
    if objs != [] {
      if ParentOf(t, objs[0]) != Some(p) {
        AttachDescends(t, order, objs[0], p);
      }
      var t1 := if ParentOf(t, objs[0]) != Some(p) then AttachT(t, objs[0], p) else t;
      AttachEachDescends(t1, order, objs[1..], p);
    }
  }

  lemma DetachDescends<T>(t: Tree<T>, order: map<T, nat>, o: T)
    requires Descends(t, order)
    ensures Descends(DetachT(t, o), order)
  {
  }

  /** Moving objects keeps the set of nodes. */
  lemma {:induction false} AttachEachKeys<T>(t: Tree<T>, objs: seq<T>, p: T)
    ensures AttachEach(t, objs, p).children.Keys == t.children.Keys
    decreases |objs|
  {
    if objs != [] {
      var t1 := if ParentOf(t, objs[0]) != Some(p) then AttachT(t, objs[0], p) else t;
      AttachEachKeys(t1, objs[1..], p);
    }
  }

  /** Unlinking `o` clears its parent and keeps every other node's. */
  lemma DetachParent<T>(t: Tree<T>, o: T, x: T)
    ensures ParentOf(DetachT(t, o), x) == if x == o then None else ParentOf(t, x)
  {
  }
}
