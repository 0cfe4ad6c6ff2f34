/**
 * The scene graph the editor edits: the scene object at the root and the
 * parent/children links between objects, with the tree operations of
 * `EObject` (`parent`, `children`, `traverse`, `add`, `attach`, `remove`,
 * `removeFromParent`, `hierarchyDistanceTo`, `getObjectByUUID`). An object's
 * place in the tree is a field of the graph rather than of the object.
 */
module SceneGraph {
  import opened Wrappers
  import opened Seqs
  import opened Trees
  import opened SceneObjects

  /** `children`: the three.js children that carry an EObject. */
  function Carriers(s: seq<EObject>): (r: seq<EObject>)
    ensures forall i :: 0 <= i < |r| ==> r[i] in s && !r[i].kind.Bare?
    ensures forall i :: 0 <= i < |s| && !s[i].kind.Bare? ==> s[i] in r
    ensures |r| <= |s|
  {
    if s == [] then []
    else (if s[0].kind.Bare? then [] else [s[0]]) + Carriers(s[1..])
  }

  /** The objects kept by `children` come in the order of the three.js list. */
  lemma {:induction false} CarriersInOrder(s: seq<EObject>)
    ensures SubsequenceOf(Carriers(s), s)
  {
    if s != [] {
      CarriersInOrder(s[1..]);
      var r := Carriers(s);
      if !s[0].kind.Bare? {
        assert r[0] == s[0] && r[1..] == Carriers(s[1..]);
      } else if r != [] {
        assert r == Carriers(s[1..]);
        assert r[0] != s[0] by {
          assert r[0] in Carriers(s[1..]);
        }
      }
    }
  }

  /** Below a bare three.js object there are only bare objects. */
  predicate BareHoldsBare(t: Tree<EObject>) {
    forall c :: c in t.parent && t.parent[c].kind.Bare? ==> c.kind.Bare?
  }

  class Scene {
    const root: EObject
    var tree: Tree<EObject>
    ghost var rank: map<EObject, nat>
    ghost var bound: nat

    /**
     * The tree is ranked, the root is a node, and a bare three.js object
     * holds only bare objects: an EObject's parent is an EObject.
     */
    ghost predicate Valid()
      reads this
    {
      Ranked(tree, rank) && Bounded(rank, bound) && root in tree.children && !root.kind.Bare? && BareHoldsBare(tree)
    }

    /** A scene with no object but its root. */
    constructor (root: EObject)
      requires !root.kind.Bare?
      ensures this.root == root && tree.parent == map[] && tree.children == map[root := []]
      ensures Valid()
    {
      this.root := root;
      var kids: map<EObject, seq<EObject>> := map[root := []];
      tree := Tree(map[], kids);
      rank := map[root := 0];
      bound := 1;
    }

    /** `parent`: the EObject of the three.js parent, none when that parent is bare. */
    function Parent(o: EObject): (r: Option<EObject>)
      reads this
      ensures Valid() && !o.kind.Bare? ==> r == ParentOf(tree, o)
    {
      if o in tree.parent && !tree.parent[o].kind.Bare? then Some(tree.parent[o]) else None
    }

    /** `children`. */
    function Children(o: EObject): seq<EObject>
      reads this
    {
      Carriers(Kids(tree, o))
    }

    /** `traverse`: the objects of the subtree of `o` in pre-order, skipping bare three.js objects. */
    function Traverse(o: EObject): seq<EObject>
      reads this
      requires Valid() && o in tree.children
    {
      Carriers(PreOrder(tree, rank, bound, o))
    }

    /** `traverse` visits exactly the object and its descendants that carry an EObject. */
    lemma TraverseSubtree(o: EObject, x: EObject)
      requires Valid() && o in tree.children
      ensures x in Traverse(o) <==> x in tree.children && !x.kind.Bare? && Above(tree, rank, o, x)
    {
      PreOrderAbove(tree, rank, bound, o, x);
    }

    /** A newly built object enters the graph with no parent and no children. */
    method Insert(o: EObject)
      requires Valid() && o !in tree.children
      modifies this
      ensures tree == Tree(old(tree).parent, old(tree).children[o := []])
      ensures Valid()
    {
      ghost var t := tree;
      tree := Tree(tree.parent, tree.children[o := []]);
      rank := rank[o := 0];
      forall c | c in tree.parent
        ensures UpLinked(tree, rank, c)
      {
        assert UpLinked(t, rank, c);
      }
      forall p, i | p in tree.children && 0 <= i < |tree.children[p]|
        ensures DownLinked(tree, p, i)
      {
        assert DownLinked(t, p, i);
      }
    }

    /** three.js `attach` of `o` to `p`, which must not lie in the subtree of `o`. */
    method Attach(o: EObject, p: EObject)
      requires Valid() && o in tree.children && p in tree.children && !p.kind.Bare? && !Above(tree, rank, o, p)
      modifies this
      ensures tree == AttachT(old(tree), o, p) && rank == Rerank(old(tree), old(rank), o, p)
      ensures Valid()
    {
      AttachRanked(tree, rank, bound, o, p);
      rank := Rerank(tree, rank, o, p);
      bound := bound + old(rank)[p] + 1;
      tree := AttachT(tree, o, p);
    }

    /** three.js `removeFromParent`. */
    method Detach(o: EObject)
      requires Valid()
      modifies this
      ensures tree == DetachT(old(tree), o) && rank == old(rank)
      ensures Valid()
    {
      DetachRanked(tree, rank, o);
      tree := DetachT(tree, o);
    }

    /**
     * `add` and `attach` of `EObject`, which differ only in the world
     * transform three.js keeps: each listed object whose parent is not `p`
     * moves below `p`. The result is the list of moved objects; the signal
     * fires when it is not empty.
     */
    method AttachAll(objs: seq<EObject>, p: EObject) returns (added: seq<EObject>)
      requires Valid() && p in tree.children && !p.kind.Bare?
      requires forall o :: o in objs ==> o in tree.children && !Above(tree, rank, o, p)
      modifies this
      ensures Valid() && tree == AttachEach(old(tree), objs, p)
      ensures added == Moved(old(tree), objs, p, [])
    {
      ghost var t0 := tree;
      added := [];
      var i := 0;
      while i < |objs|
        invariant 0 <= i <= |objs|
        invariant Valid() && p in tree.children
        invariant forall o :: o in objs[i..] ==> o in tree.children && !Above(tree, rank, o, p)
        invariant AttachEach(tree, objs[i..], p) == AttachEach(t0, objs, p)
        invariant Moved(tree, objs[i..], p, added) == Moved(t0, objs, p, [])
      {
        var o := objs[i];
        assert objs[i..] == [o] + objs[i + 1..];
        var moved := AttachStep(o, p, objs[i + 1..], added);
        if moved {
          added := added + [o];
        }
        i := i + 1;
      }
    }

    /** One turn of `add`/`attach`: `o` moves below `p` unless it is already there. */
    method AttachStep(o: EObject, p: EObject, ghost rest: seq<EObject>, ghost acc: seq<EObject>) returns (moved: bool)
      requires Valid() && o in tree.children && p in tree.children && !p.kind.Bare? && !Above(tree, rank, o, p)
      requires forall o' :: o' in rest ==> o' in tree.children && !Above(tree, rank, o', p)
      modifies this
      ensures moved <==> ParentOf(old(tree), o) != Some(p)
      ensures tree == if moved then AttachT(old(tree), o, p) else old(tree)
      ensures Valid() && p in tree.children
      ensures forall o' :: o' in rest ==> o' in tree.children && !Above(tree, rank, o', p)
      ensures AttachEach(tree, rest, p) == AttachEach(old(tree), [o] + rest, p)
      ensures Moved(tree, rest, p, if moved then acc + [o] else acc) == Moved(old(tree), [o] + rest, p, acc)
    {
      AttachTurn(tree, o, rest, p, acc);
      moved := Parent(o) != Some(p);
      if moved {
        ghost var t, r := tree, rank;
        Attach(o, p);
        forall o' | o' in rest
          ensures !Above(tree, rank, o', p)
        {
          AttachKeepsAbove(t, r, o, p, o', p);
        }
      }
    }

    /**
     * `remove` of `EObject`: each listed child of `p` is unlinked. The
     * result is the list of unlinked objects; the signal fires when it is
     * not empty.
     */
    method DetachAll(objs: seq<EObject>, p: EObject) returns (removed: seq<EObject>)
      requires Valid() && !p.kind.Bare?
      modifies this
      ensures Valid() && tree == DetachEach(old(tree), objs, p)
      ensures removed == Unlinked(old(tree), objs, p, [])
    {
      ghost var t0 := tree;
      removed := [];
      var i := 0;
      while i < |objs|
        invariant 0 <= i <= |objs|
        invariant Valid()
        invariant DetachEach(tree, objs[i..], p) == DetachEach(t0, objs, p)
        invariant Unlinked(tree, objs[i..], p, removed) == Unlinked(t0, objs, p, [])
      {
        var o := objs[i];
        assert objs[i..][0] == o && objs[i..][1..] == objs[i + 1..];
        if Parent(o) == Some(p) {
          Detach(o);
          removed := removed + [o];
        }
        i := i + 1;
      }
    }

    /**
     * `hierarchyDistanceTo`: the number of parent steps from `x` up to `a`,
     * 0 when they are the same object, or -1 when `a` is not above `x`.
     */
    method HierarchyDistanceTo(x: EObject, a: EObject) returns (d: int)
      requires Valid() && x in tree.children && !x.kind.Bare?
      ensures d == -1 <==> !Above(tree, rank, a, x)
      ensures d != -1 ==> d >= 0 && Climb(tree, x, d) == Some(a)
      ensures d != -1 ==> forall k :: 0 <= k < d ==> Climb(tree, x, k) != Some(a)
    {
      var cur: Option<EObject> := Some(x);
      var n: nat := 0;
      while cur.Some?
        invariant cur == Climb(tree, x, n)
        invariant cur.Some? ==> cur.value in rank && !cur.value.kind.Bare?
        invariant forall k :: 0 <= k < n ==> Climb(tree, x, k) != Some(a)
        invariant Above(tree, rank, a, x) <==> cur.Some? && Above(tree, rank, a, cur.value)
        decreases if cur.Some? then rank[cur.value] + 1 else 0
      {
        var y := cur.value;
        if y == a {
          return n;
        }
        if y in tree.parent {
          assert UpLinked(tree, rank, y);
        }
        n := n + 1;
        cur := Parent(y);
      }
      d := -1;
    }

    /** `getObjectByUUID`: the last object of the traversal with that uuid, if any. */
    method FindByUuid(o: EObject, uuid: string) returns (found: Option<EObject>)
      requires Valid() && o in tree.children
      ensures found.None? <==> forall x :: x in Traverse(o) ==> x.uuid != uuid
      ensures found.Some? ==> found.value.uuid == uuid && exists i :: (0 <= i < |Traverse(o)| && Traverse(o)[i] == found.value
                                                         && forall j :: i < j < |Traverse(o)| ==> Traverse(o)[j].uuid != uuid)
    {
      var all := Traverse(o);
      found := None;
      ghost var at := -1;
      var i := 0;
      while i < |all|
        invariant 0 <= i <= |all|
        invariant found.None? <==> forall j :: 0 <= j < i ==> all[j].uuid != uuid
        invariant found.Some? ==> 0 <= at < i && all[at] == found.value && found.value.uuid == uuid
        invariant found.Some? ==> forall j :: at < j < i ==> all[j].uuid != uuid
      {
        if all[i].uuid == uuid {
          found := Some(all[i]);
          at := i;
        }
        i := i + 1;
      }
    }
  }
}
