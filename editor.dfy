/**
 * The editor: the scene graph it edits, the IK manager that owns the chains
 * of the scene's skeletons, and the array of selected objects. Its
 * operations select and unselect objects, remove objects from the tree
 * (optionally handing their children to their parent), and create, resize,
 * remove and solve the IK chains that anchors hold.
 *
 * An anchor object is an EObject whose kind carries its `EAnchor` state; a
 * bone object carries its node in the bone forest of the IK manager. Every
 * object the editor is handed is a node of the scene graph (possibly
 * detached from the root).
 */
module EditorCore {
  import opened Wrappers
  import opened Seqs
  import opened Augments
  import BoneUtils
  import opened Chains
  import opened Manager
  import opened Anchors
  import opened Trees
  import opened SceneObjects
  import opened SceneGraph
  import Grid

  /** The anchor states of the anchor objects among `objs`. */
  ghost function AnchorsOf(objs: set<EObject>): set<EAnchor> {
    set o | o in objs && o.kind.AnchorKind? :: o.kind.anchor
  }

  /** The chains those anchors hold. */
  ghost function ChainsOf(anchors: set<EAnchor>): set<IKChain>
    reads anchors
  {
    set a | a in anchors && a.chain.Some? :: a.chain.value
  }

  /** The chain of each anchor of `xs` that has one, in order. */
  function AnchorChains(xs: seq<EObject>): seq<IKChain>
    reads ListedAnchors(xs)
    decreases |xs|
  {
    if xs == [] then []
    else
      var x := xs[|xs| - 1];
      AnchorChains(xs[..|xs| - 1]) + (if x.kind.AnchorKind? && x.kind.anchor.chain.Some? then [x.kind.anchor.chain.value] else [])
  }

  /** Each chain `AnchorChains` lists is held by an anchor of `xs`. */
  lemma {:induction false} AnchorChainsHeld(xs: seq<EObject>, c: IKChain)
    requires c in AnchorChains(xs)
    ensures exists x :: x in xs && x.kind.AnchorKind? && x.kind.anchor.chain == Some(c)
    decreases |xs|
  {
    var n := |xs| - 1;
    var x := xs[n];
    if !(x.kind.AnchorKind? && x.kind.anchor.chain == Some(c)) {
      AnchorChainsHeld(xs[..n], c);
      var y :| y in xs[..n] && y.kind.AnchorKind? && y.kind.anchor.chain == Some(c);
      assert y in xs;
    }
  }

  /** The chains of the anchors of `a + b` are those of `a`, then those of `b`. */
  lemma {:induction false} AnchorChainsAppend(a: seq<EObject>, b: seq<EObject>)
    ensures AnchorChains(a + b) == AnchorChains(a) + AnchorChains(b)
    decreases |b|
  {
    if b == [] {
      assert a + b == a;
    } else {
      var n := |b| - 1;
      assert (a + b)[..|a + b| - 1] == a + b[..n];
      AnchorChainsAppend(a, b[..n]);
    }
  }

  /** An anchor of `xs` holding a chain puts that chain among `AnchorChains(xs)`. */
  lemma {:induction false} AnchorChainsHas(xs: seq<EObject>, x: EObject)
    requires x in xs && x.kind.AnchorKind? && x.kind.anchor.chain.Some?
    ensures x.kind.anchor.chain.value in AnchorChains(xs)
    decreases |xs|
  {
    var n := |xs| - 1;
    if xs[n] != x {
      assert x in xs[..n];
      AnchorChainsHas(xs[..n], x);
    }
  }

  /** The anchor states of the anchor objects listed in `objs`. */
  ghost function ListedAnchors(objs: seq<EObject>): set<EAnchor> {
    set o | o in objs && o.kind.AnchorKind? :: o.kind.anchor
  }

  /** The anchors of a prefix one longer are those of the prefix and the next one's, if it is an anchor. */
  lemma ListedAnchorsSnoc(objs: seq<EObject>, i: nat)
    requires i < |objs|
    ensures objs[i].kind.AnchorKind? ==> ListedAnchors(objs[..i + 1]) == ListedAnchors(objs[..i]) + {objs[i].kind.anchor}
    ensures !objs[i].kind.AnchorKind? ==> ListedAnchors(objs[..i + 1]) == ListedAnchors(objs[..i])
  {
    assert objs[..i + 1] == objs[..i] + [objs[i]];
  }

  /** The chains of the temporary anchors listed in `objs`. */
  ghost function TemporaryChains(objs: seq<EObject>): set<IKChain>
    reads ListedAnchors(objs)
  {
    set a | a in ListedAnchors(objs) && a.temporary && a.chain.Some? :: a.chain.value
  }

  /**
   * `remove` of one object: unless its children go with it, the children
   * that carry an EObject are attached to its parent, if it has one; then
   * it leaves its parent.
   */
  function RemoveOne(t: Tree<EObject>, o: EObject, removeChildren: bool): Tree<EObject> {
    var t1 := if !removeChildren && ParentOf(t, o).Some? then AttachEach(t, Carriers(Kids(t, o)), t.parent[o]) else t;
    DetachT(t1, o)
  }

  /** `remove` of a list of objects, in order. */
  function RemoveEach(t: Tree<EObject>, objs: seq<EObject>, removeChildren: bool): Tree<EObject>
    decreases |objs|
  {
    if objs == [] then t else RemoveEach(RemoveOne(t, objs[0], removeChildren), objs[1..], removeChildren)
  }

  /**
   * After removing `o`: `o` has no parent; unless the children went with
   * it, each child of `o` that carries an EObject has `o`'s parent, while
   * bare children stay below `o`; every other node keeps its parent.
   */
  lemma RemoveOneParents(t: Tree<EObject>, rank: map<EObject, nat>, o: EObject, removeChildren: bool, x: EObject)
    requires Ranked(t, rank) && o in rank
    ensures ParentOf(RemoveOne(t, o, removeChildren), x) ==
      if x == o then None
      else if !removeChildren && o in t.parent && ParentOf(t, x) == Some(o) && !x.kind.Bare? then Some(t.parent[o])
      else ParentOf(t, x)
  {
    if !removeChildren && o in t.parent {
      var kids := Carriers(Kids(t, o));
      AttachEachParents(t, kids, t.parent[o], x);
      if ParentOf(t, x) == Some(o) && !x.kind.Bare? {
        assert UpLinked(t, rank, x);
        var i := FirstIndex(t.children[o], x);
        assert Kids(t, o)[i] == x;
      }
      if x in kids {
        ChildParent(t, rank, o, x);
      }
      DetachParent(AttachEach(t, kids, t.parent[o]), o, x);
    } else {
      DetachParent(t, o, x);
    }
  }

  /** Moving and unlinking objects keeps the set of nodes. */
  lemma RemoveOneKeys(t: Tree<EObject>, o: EObject, removeChildren: bool)
    ensures RemoveOne(t, o, removeChildren).children.Keys == t.children.Keys
  {
    if !removeChildren && ParentOf(t, o).Some? {
      AttachEachKeys(t, Carriers(Kids(t, o)), t.parent[o]);
    }
  }

  /**
   * Removing an object moves its children up to its parent at most: the
   * links still go down in any ranking they went down in before.
   */
  lemma RemoveOneDescends(t: Tree<EObject>, rank: map<EObject, nat>, o: EObject, removeChildren: bool, order: map<EObject, nat>)
    requires Ranked(t, rank) && o in rank && Descends(t, order)
    ensures Descends(RemoveOne(t, o, removeChildren), order)
  {
    var r := RemoveOne(t, o, removeChildren);
    forall c | c in r.parent
      ensures c in order && r.parent[c] in order && order[r.parent[c]] < order[c]
    {
      RemoveOneParents(t, rank, o, removeChildren, c);
    }
  }

  /**
   * One turn of `remove`: unless the children go with it, the EObject
   * children of `o` move to its parent, if it has one; then `o` leaves its
   * parent.
   */
  method RemoveStep(scene: Scene, o: EObject, removeChildren: bool, ghost order: map<EObject, nat>)
    requires scene.Valid() && o in scene.tree.children && !o.kind.Bare? && Descends(scene.tree, order)
    modifies scene
    ensures scene.tree == RemoveOne(old(scene.tree), o, removeChildren)
    ensures scene.tree.children.Keys == old(scene.tree.children.Keys)
    ensures scene.Valid() && Descends(scene.tree, order)
  {
    RemoveOneDescends(scene.tree, scene.rank, o, removeChildren, order);
    var p := scene.Parent(o);
    if !removeChildren && p.Some? {
      var kids := scene.Children(o);
      forall k | k in kids
        ensures k in scene.tree.children && !Above(scene.tree, scene.rank, k, p.value)
      {
        assert k in Kids(scene.tree, o);
        ChildParent(scene.tree, scene.rank, o, k);
        assert UpLinked(scene.tree, scene.rank, k) && UpLinked(scene.tree, scene.rank, o);
        if Above(scene.tree, scene.rank, k, p.value) {
          AboveRank(scene.tree, scene.rank, k, p.value);
        }
      }
      var _ := scene.AttachAll(kids, p.value);
    }
    scene.Detach(o);
    RemoveOneKeys(old(scene.tree), o, removeChildren);
  }

  /**
   * A node of `t0` that is not removed keeps its parent through the removal
   * of `done` when the children go with the removed objects, when it has no
   * parent or its parent stays, when it is a bare three.js object (only the
   * children carrying an EObject move), or when its parent had no parent
   * to hand it to.
   */
  ghost predicate Stays(t0: Tree<EObject>, x: EObject, done: set<EObject>, removeChildren: bool) {
    || removeChildren || ParentOf(t0, x).None? || ParentOf(t0, x).value !in done
    || x.kind.Bare? || ParentOf(t0, x).value !in t0.parent
  }

  /**
   * The parents after removing the objects of `done` from `t0`: each of
   * them has none, and any other node of `t0` that `Stays` has its parent
   * from `t0`.
   */
  ghost predicate RemovedFrom(t: Tree<EObject>, t0: Tree<EObject>, done: set<EObject>, removeChildren: bool) {
    && (forall x :: x in done ==> ParentOf(t, x).None?)
    && (forall x :: x in t0.children && x !in done && Stays(t0, x, done, removeChildren) ==> ParentOf(t, x) == ParentOf(t0, x))
  }

  /**
   * Removing one more object `o` from `t`, whose parents are as
   * `RemoveOneParents` says, keeps `RemovedFrom` with `o` added: a child
   * that moves had `o` as its parent in `t0`, and `o` had a parent there.
   */
  lemma RemovedFromStep(t: Tree<EObject>, t1: Tree<EObject>, t0: Tree<EObject>, done: set<EObject>, o: EObject, removeChildren: bool)
    requires RemovedFrom(t, t0, done, removeChildren) && o in t0.children
    requires forall x :: ParentOf(t1, x) == if x == o then None
      else if !removeChildren && o in t.parent && ParentOf(t, x) == Some(o) && !x.kind.Bare? then Some(t.parent[o])
      else ParentOf(t, x)
    ensures RemovedFrom(t1, t0, done + {o}, removeChildren)
  {
    forall x | x in t0.children && x !in done + {o} && Stays(t0, x, done + {o}, removeChildren)
      ensures ParentOf(t1, x) == ParentOf(t0, x)
    {
      assert Stays(t0, x, done, removeChildren);
      if !removeChildren && o in t.parent && ParentOf(t, x) == Some(o) && !x.kind.Bare? {
        assert o !in t0.parent;
        if o !in done {
          assert Stays(t0, o, done, removeChildren);
        }
        assert false;
      }
    }
  }

  /** One turn of `remove`, with the objects removed before it in `done`. */
  method RemoveTurn(scene: Scene, o: EObject, removeChildren: bool, ghost t0: Tree<EObject>, ghost done: set<EObject>, ghost rest: seq<EObject>,
                    ghost order: map<EObject, nat>)
    requires scene.Valid() && o in scene.tree.children && !o.kind.Bare?
    requires RemovedFrom(scene.tree, t0, done, removeChildren) && o in t0.children && Descends(scene.tree, order)
    modifies scene
    ensures scene.tree == RemoveOne(old(scene.tree), o, removeChildren)
    ensures RemoveEach(scene.tree, rest, removeChildren) == RemoveEach(old(scene.tree), [o] + rest, removeChildren)
    ensures scene.tree.children.Keys == old(scene.tree.children.Keys)
    ensures scene.Valid()
    ensures RemovedFrom(scene.tree, t0, done + {o}, removeChildren)
    ensures Descends(scene.tree, order)
  {
    ghost var t, r := scene.tree, scene.rank;
    assert ([o] + rest)[0] == o && ([o] + rest)[1..] == rest;
    RemoveStep(scene, o, removeChildren, order);
    forall x
      ensures ParentOf(scene.tree, x) == if x == o then None
        else if !removeChildren && o in t.parent && ParentOf(t, x) == Some(o) && !x.kind.Bare? then Some(t.parent[o])
        else ParentOf(t, x)
    {
      RemoveOneParents(t, r, o, removeChildren, x);
    }
    RemovedFromStep(t, scene.tree, t0, done, o, removeChildren);
  }

  /**
   * The loop of `remove`: the objects are removed in order, and the parents
   * end as `RemovedFrom` says.
   */
  method RemoveFrom(scene: Scene, objects: seq<EObject>, removeChildren: bool, ghost order: map<EObject, nat>)
    requires scene.Valid() && forall o :: o in objects ==> o in scene.tree.children && !o.kind.Bare?
    requires Descends(scene.tree, order)
    modifies scene
    ensures scene.tree == RemoveEach(old(scene.tree), objects, removeChildren)
    ensures scene.tree.children.Keys == old(scene.tree.children.Keys)
    ensures RemovedFrom(scene.tree, old(scene.tree), Members(objects), removeChildren)
    ensures Descends(scene.tree, order)
    ensures scene.Valid()
  {
    ghost var t0 := scene.tree;
    ghost var done: set<EObject> := {};
    var i := 0;
    while i < |objects|
      invariant 0 <= i <= |objects| && scene.Valid()
      invariant scene.tree.children.Keys == t0.children.Keys
      invariant RemoveEach(scene.tree, objects[i..], removeChildren) == RemoveEach(t0, objects, removeChildren)
      invariant done == Members(objects[..i])
      invariant RemovedFrom(scene.tree, t0, done, removeChildren)
      invariant Descends(scene.tree, order)
    {
      var o := objects[i];
      assert objects[i..] == [o] + objects[i + 1..];
      MembersSnoc(objects, i);
      RemoveTurn(scene, o, removeChildren, t0, done, objects[i + 1..], order);
      done := done + {o};
      i := i + 1;
    }
    assert objects[i..] == [];
    assert objects[..i] == objects;
  }

  /**
   * The loop of `selectObjects` on the selection array: each object of
   * `objects` the array does not hold yet is pushed and marked selected.
   */
  method SelectInto(selection: JsArray<EObject>, objects: seq<EObject>) returns (changed: bool)
    modifies selection, objects`isSelected
    ensures selection.elems == AddNew(old(selection.elems), objects)
    ensures changed <==> |selection.elems| > |old(selection.elems)|
    ensures forall o :: o in selection.elems && o !in old(selection.elems) ==> o.isSelected
    ensures forall o :: o in old(selection.elems) ==> o.isSelected == old(o.isSelected)
  {
    ghost var s0 := selection.elems;
    changed := false;
    var i := 0;
    while i < |objects|
      invariant 0 <= i <= |objects|
      invariant selection.elems == AddNew(s0, objects[..i])
      invariant s0 <= selection.elems
      invariant changed <==> |selection.elems| > |s0|
      invariant forall o :: o in selection.elems && o !in s0 ==> o.isSelected
      invariant forall o :: o in s0 ==> o.isSelected == old(o.isSelected)
    {
      var obj := objects[i];
      AddNewNext(s0, objects, i);
      if !selection.Includes(obj) {
        ghost var before := selection.elems;
        assert obj !in s0 by {
          assert forall k :: 0 <= k < |s0| ==> s0[k] == before[k];
        }
        selection.Push(obj);
        obj.OnSelected();
        assert forall o :: o in selection.elems && o != obj ==> o in before;
        changed := true;
      }
      i := i + 1;
    }
    assert objects[..i] == objects;
  }

  /** `removeChain` of any chain: the tracked list loses it, and the graph lists it no more when it was tracked. */
  method Untrack(ik: IKManager, c: IKChain)
    requires ik.Valid()
    modifies ik`chains, ik.g`ik
    ensures ik.chains == Without(old(ik.chains), {c})
    ensures c in old(ik.chains) ==> ik.g.Listed() == old(ik.g.Listed()) - {c}
    ensures c !in old(ik.chains) ==> ik.g.ik == old(ik.g.ik)
    ensures ik.g.Listed() == old(ik.g.Listed()) - set d | d in old(ik.chains) && d !in ik.chains
    ensures forall d :: d in ik.chains ==> d in old(ik.chains)
    ensures ik.Valid()
  {
    ghost var before := ik.chains;
    if c !in ik.chains {
      WithoutAbsent(ik.chains, {c});
    }
    ik.RemoveChain(c);
    WithoutFacts(before, {c});
    assert (set d | d in before && d !in ik.chains) == if c in before then {c} else {};
  }

  /** `removeChainFromAnchor` on the IK manager and the anchor alone. */
  method DropChain(ik: IKManager, a: EAnchor) returns (had: bool)
    requires ik.Valid()
    modifies a`chain, ik`chains, ik.g`ik
    ensures had <==> old(a.chain).Some?
    ensures a.chain.None?
    ensures had ==> ik.chains == Without(old(ik.chains), {old(a.chain).value})
    ensures had && old(a.chain).value in old(ik.chains) ==> ik.g.Listed() == old(ik.g.Listed()) - {old(a.chain).value}
    ensures !had ==> ik.chains == old(ik.chains) && ik.g.ik == old(ik.g.ik)
    ensures ik.g.Listed() == old(ik.g.Listed()) - set c | c in old(ik.chains) && c !in ik.chains
    ensures forall c :: c in ik.chains ==> c in old(ik.chains)
    ensures ik.Valid()
  {
    var chain := a.chain;
    if chain.None? {
      return false;
    }
    Untrack(ik, chain.value);
    a.chain := None;
    had := true;
  }

  /** What an anchor held when a loop started: whether it was temporary, and its chain. */
  type AnchorSnapshot = map<EAnchor, (bool, Option<IKChain>)>

  /** The chains the temporary anchors of `done` held in `snap`. */
  function SnapTemporaryChains(done: set<EAnchor>, snap: AnchorSnapshot): set<IKChain> {
    set a | a in done && a in snap && snap[a].0 && snap[a].1.Some? :: snap[a].1.value
  }

  /** Marking `a` done adds its recorded chain when it was temporary, held one and was not done yet. */
  lemma SnapTemporaryChainsAdd(done: set<EAnchor>, snap: AnchorSnapshot, a: EAnchor)
    ensures a !in done && a in snap && snap[a].0 && snap[a].1.Some? ==>
      SnapTemporaryChains(done + {a}, snap) == SnapTemporaryChains(done, snap) + {snap[a].1.value}
    ensures a in done || !(a in snap && snap[a].0 && snap[a].1.Some?) ==>
      SnapTemporaryChains(done + {a}, snap) == SnapTemporaryChains(done, snap)
  {
    if a in done {
      assert done + {a} == done;
    }
  }

  /** One turn of `unselectObjects` on the selection: `obj` is spliced out, and unselected if it was there. */
  method UnselectOne(selection: JsArray<EObject>, obj: EObject, ghost s0: seq<EObject>, ghost seen: set<EObject>) returns (found: bool)
    requires selection.elems == Without(s0, seen) && NoDup(s0)
    modifies selection, obj`isSelected
    ensures selection.elems == Without(s0, seen + {obj})
    ensures found <==> obj in s0 && obj !in seen
    ensures |selection.elems| <= |old(selection.elems)|
    ensures found <==> |selection.elems| < |old(selection.elems)|
    ensures obj.isSelected == if found then false else old(obj.isSelected)
  {
    WithoutNoDup(s0, seen);
    WithoutFacts(s0, seen);
    WithoutFacts(selection.elems, {obj});
    RemoveFirstWithout(selection.elems, obj);
    WithoutShrinks(selection.elems, {obj});
    WithoutUnion(s0, seen, {obj});
    found := selection.Remove(obj);
    if found {
      obj.OnUnselected();
    }
  }

  /**
   * The anchors of `all` are as `snap` recorded them, except that each
   * temporary one in `done` holds no chain.
   */
  ghost predicate Snapped(all: set<EAnchor>, snap: AnchorSnapshot, done: set<EAnchor>)
    reads all
  {
    forall a :: a in all ==> a in snap && a.temporary == snap[a].0 && a.chain == if snap[a].0 && a in done then None else snap[a].1
  }

  /** One turn of `unselectObjects` on the IK side: a temporary anchor loses its chain. */
  method DropTemporary(ik: IKManager, obj: EObject, ghost c0: seq<IKChain>, ghost all: set<EAnchor>,
                       ghost snap: AnchorSnapshot, ghost done: set<EAnchor>) returns (ghost done': set<EAnchor>)
    requires ik.Valid() && ik.chains == Without(c0, SnapTemporaryChains(done, snap))
    requires (obj.kind.AnchorKind? ==> obj.kind.anchor in all) && Snapped(all, snap, done)
    modifies all`chain, ik`chains, ik.g`ik
    ensures done' == if obj.kind.AnchorKind? then done + {obj.kind.anchor} else done
    ensures ik.Valid() && ik.chains == Without(c0, SnapTemporaryChains(done', snap))
    ensures ik.g.Listed() == old(ik.g.Listed()) - set c | c in old(ik.chains) && c !in ik.chains
    ensures forall c :: c in ik.chains ==> c in old(ik.chains)
    ensures Snapped(all, snap, done')
  {
    done' := done;
    if obj.kind.AnchorKind? {
      var a := obj.kind.anchor;
      if a.temporary {
        var had := DropChain(ik, a);
        if had {
          WithoutUnion(c0, SnapTemporaryChains(done, snap), {snap[a].1.value});
        }
      }
      SnapTemporaryChainsAdd(done, snap, a);
      done' := done + {a};
    }
  }

  /** What the anchors of `all` hold now. */
  ghost function Snapshot(all: set<EAnchor>): AnchorSnapshot
    reads all
  {
    map a | a in all :: (a.temporary, a.chain)
  }

  /** The chains recorded for the temporary anchors of a list are those they hold. */
  lemma SnapshotTemporaryChains(objs: seq<EObject>, snap: AnchorSnapshot)
    requires snap == Snapshot(ListedAnchors(objs))
    ensures SnapTemporaryChains(ListedAnchors(objs), snap) == TemporaryChains(objs)
    ensures Snapped(ListedAnchors(objs), snap, ListedAnchors(objs[..0]))
  {
    assert ListedAnchors(objs[..0]) == {};
  }

  /** Before the loop of `unselectObjects` nothing is dropped yet. */
  lemma StartEmpty(s0: seq<EObject>, c0: seq<IKChain>, objs: seq<EObject>, snap: AnchorSnapshot)
    ensures Without(s0, Members(objs[..0])) == s0
    ensures Without(c0, SnapTemporaryChains(ListedAnchors(objs[..0]), snap)) == c0
  {
    assert Members(objs[..0]) == {};
    assert ListedAnchors(objs[..0]) == {};
    assert SnapTemporaryChains({}, snap) == {};
    WithoutAbsent(s0, {});
    WithoutAbsent(c0, {});
  }

  /** Chains dropped from a list that only shrinks leave the graph's listing cumulatively. */
  lemma DroppedMore(l0: set<IKChain>, l: set<IKChain>, l': set<IKChain>, c0: seq<IKChain>, prev: seq<IKChain>, next: seq<IKChain>)
    requires l == l0 - set c | c in c0 && c !in prev
    requires l' == l - set c | c in prev && c !in next
    requires (forall c :: c in prev ==> c in c0) && forall c :: c in next ==> c in prev
    ensures l' == l0 - set c | c in c0 && c !in next
  {
  }

  /** One turn of `unselectObjects`: `UnselectOne`, then `DropTemporary`. */
  method UnselectTurn(selection: JsArray<EObject>, ik: IKManager, obj: EObject,
                      ghost s0: seq<EObject>, ghost seen: set<EObject>, ghost c0: seq<IKChain>, ghost l0: set<IKChain>, ghost all: set<EAnchor>,
                      ghost snap: AnchorSnapshot, ghost done: set<EAnchor>) returns (found: bool, ghost done': set<EAnchor>)
    requires selection.elems == Without(s0, seen) && NoDup(s0)
    requires ik.Valid() && ik.chains == Without(c0, SnapTemporaryChains(done, snap))
    requires ik.g.Listed() == l0 - set c | c in c0 && c !in ik.chains
    requires (obj.kind.AnchorKind? ==> obj.kind.anchor in all) && Snapped(all, snap, done)
    modifies selection, obj`isSelected, all`chain, ik`chains, ik.g`ik
    ensures selection.elems == Without(s0, seen + {obj})
    ensures |selection.elems| <= |old(selection.elems)|
    ensures found <==> |selection.elems| < |old(selection.elems)|
    ensures found <==> obj in s0 && obj !in seen
    ensures obj.isSelected == if found then false else old(obj.isSelected)
    ensures done' == if obj.kind.AnchorKind? then done + {obj.kind.anchor} else done
    ensures ik.Valid() && ik.chains == Without(c0, SnapTemporaryChains(done', snap))
    ensures ik.g.Listed() == l0 - set c | c in c0 && c !in ik.chains
    ensures Snapped(all, snap, done')
  {
    found := UnselectOne(selection, obj, s0, seen);
    ghost var l, prev := ik.g.Listed(), ik.chains;
    WithoutFacts(c0, SnapTemporaryChains(done, snap));
    done' := DropTemporary(ik, obj, c0, all, snap, done);
    DroppedMore(l0, l, ik.g.Listed(), c0, prev, ik.chains);
  }

  /**
   * The loop of `unselectObjects` on the selection array and the IK
   * manager: each listed object is spliced out of the selection and, when
   * it was there, marked unselected; each temporary anchor among them
   * loses its chain.
   */
  method UnselectFrom(selection: JsArray<EObject>, ik: IKManager, objects: seq<EObject>) returns (changed: bool)
    requires NoDup(selection.elems) && ik.Valid()
    modifies selection, objects`isSelected, ListedAnchors(objects)`chain, ik`chains, ik.g`ik
    ensures selection.elems == Without(old(selection.elems), Members(objects))
    ensures changed <==> |selection.elems| < |old(selection.elems)|
    ensures forall o :: o in objects ==> o.isSelected == if o in old(selection.elems) then false else old(o.isSelected)
    ensures forall a :: a in ListedAnchors(objects) ==> a.chain == if a.temporary then None else old(a.chain)
    ensures ik.chains == Without(old(ik.chains), old(TemporaryChains(objects)))
    ensures ik.g.Listed() == old(ik.g.Listed()) - set c | c in old(ik.chains) && c in old(TemporaryChains(objects))
    ensures ik.Valid()
  {
    ghost var s0, c0, l0 := selection.elems, ik.chains, ik.g.Listed();
    ghost var all := ListedAnchors(objects);
    ghost var snap := Snapshot(all);
    SnapshotTemporaryChains(objects, snap);
    StartEmpty(s0, c0, objects, snap);
    changed := false;
    var i := 0;
    while i < |objects|
      invariant 0 <= i <= |objects|
      invariant selection.elems == Without(s0, Members(objects[..i]))
      invariant |selection.elems| <= |s0| && (changed <==> |selection.elems| < |s0|)
      invariant forall o :: o in objects ==> o.isSelected == if o in Members(objects[..i]) && o in s0 then false else old(o.isSelected)
      invariant ik.Valid() && ik.chains == Without(c0, SnapTemporaryChains(ListedAnchors(objects[..i]), snap))
      invariant Snapped(all, snap, ListedAnchors(objects[..i]))
      invariant ik.g.Listed() == l0 - set c | c in c0 && c !in ik.chains
    {
      var obj := objects[i];
      MembersSnoc(objects, i);
      ListedAnchorsSnoc(objects, i);
      var found, _ := UnselectTurn(selection, ik, obj, s0, Members(objects[..i]), c0, l0, all, snap, ListedAnchors(objects[..i]));
      if found {
        changed := true;
      }
      i := i + 1;
    }
    WithoutShrinks(s0, Members(objects));
    WithoutFacts(c0, old(TemporaryChains(objects)));
    assert objects[..i] == objects;
  }

  /** The objects `traverse` visits from each of `objs` in turn. */
  function Traversals(scene: Scene, objs: seq<EObject>): seq<EObject>
    reads scene
    requires scene.Valid() && forall o :: o in objs ==> o in scene.tree.children
    decreases |objs|
  {
    if objs == [] then [] else Traversals(scene, objs[..|objs| - 1]) + scene.Traverse(objs[|objs| - 1])
  }

  /** An object is visited exactly when some traversal visits it. */
  lemma {:induction false} TraversalsMember(scene: Scene, objs: seq<EObject>, x: EObject)
    requires scene.Valid() && forall o :: o in objs ==> o in scene.tree.children
    ensures x in Traversals(scene, objs) <==> exists o :: o in objs && x in scene.Traverse(o)
    decreases |objs|
  {
    if objs != [] {
      var n := |objs| - 1;
      TraversalsMember(scene, objs[..n], x);
      if exists o :: o in objs && x in scene.Traverse(o) {
        var o :| o in objs && x in scene.Traverse(o);
        if o != objs[n] {
          assert o in objs[..n];
        }
      }
    }
  }

  /**
   * The set `updateAnchorsChainForObjects` solves holds exactly the chains
   * of the anchors in the subtrees of the listed objects, each once.
   */
  lemma ChainsToSolve(scene: Scene, objs: seq<EObject>, c: IKChain)
    requires scene.Valid() && forall o :: o in objs ==> o in scene.tree.children
    ensures c in Dedup(AnchorChains(Traversals(scene, objs))) <==>
      exists o, x :: o in objs && x in scene.tree.children && Above(scene.tree, scene.rank, o, x)
                     && x.kind.AnchorKind? && x.kind.anchor.chain == Some(c)
    ensures NoDup(Dedup(AnchorChains(Traversals(scene, objs))))
  {
    var all := Traversals(scene, objs);
    DedupFacts(AnchorChains(all));
    if c in AnchorChains(all) {
      AnchorChainsHeld(all, c);
      var x :| x in all && x.kind.AnchorKind? && x.kind.anchor.chain == Some(c);
      TraversalsMember(scene, objs, x);
      var o :| o in objs && x in scene.Traverse(o);
      scene.TraverseSubtree(o, x);
    }
    if exists o, x :: o in objs && x in scene.tree.children && Above(scene.tree, scene.rank, o, x)
                      && x.kind.AnchorKind? && x.kind.anchor.chain == Some(c) {
      var o, x :| o in objs && x in scene.tree.children && Above(scene.tree, scene.rank, o, x)
                  && x.kind.AnchorKind? && x.kind.anchor.chain == Some(c);
      scene.TraverseSubtree(o, x);
      TraversalsMember(scene, objs, x);
      AnchorChainsHas(all, x);
    }
  }

  /**
   * The gathering half of `updateAnchorsChainForObjects`: each listed
   * object's subtree is traversed and the chain of every anchor met is
   * added to an insertion-ordered set.
   */
  method GatherChains(scene: Scene, objects: seq<EObject>) returns (toSolve: seq<IKChain>, ghost visited: seq<EObject>)
    requires scene.Valid() && forall o :: o in objects ==> o in scene.tree.children
    ensures visited == Traversals(scene, objects)
    ensures toSolve == Dedup(AnchorChains(visited))
  {
    toSolve := [];
    var i := 0;
    while i < |objects|
      invariant 0 <= i <= |objects|
      invariant toSolve == AddNew([], AnchorChains(Traversals(scene, objects[..i])))
    {
      assert objects[..i + 1][..i] == objects[..i];
      var trav := scene.Traverse(objects[i]);
      toSolve := GatherList(Traversals(scene, objects[..i]), trav, toSolve);
      i := i + 1;
    }
    assert objects[..i] == objects;
    visited := Traversals(scene, objects);
  }

  /** The loop over one object's traversal, adding to the chains gathered from the objects met before it. */
  method GatherList(ghost before: seq<EObject>, trav: seq<EObject>, acc: seq<IKChain>) returns (toSolve: seq<IKChain>)
    requires acc == AddNew([], AnchorChains(before))
    ensures toSolve == AddNew([], AnchorChains(before + trav))
  {
    toSolve := acc;
    var j := 0;
    assert before + trav[..0] == before;
    while j < |trav|
      invariant 0 <= j <= |trav|
      invariant toSolve == AddNew([], AnchorChains(before + trav[..j]))
    {
      var x := trav[j];
      GatherNext(before, trav, j);
      if x.kind.AnchorKind? && x.kind.anchor.chain.Some? && x.kind.anchor.chain.value !in toSolve {
        toSolve := toSolve + [x.kind.anchor.chain.value];
      }
      j := j + 1;
    }
    assert trav[..j] == trav;
  }

  /** Meeting object `j` of a traversal adds its anchor's chain, unless it holds none or the set has it. */
  lemma GatherNext(before: seq<EObject>, trav: seq<EObject>, j: nat)
    requires j < |trav|
    ensures var x, acc := trav[j], AddNew([], AnchorChains(before + trav[..j]));
      AddNew([], AnchorChains(before + trav[..j + 1])) ==
        if x.kind.AnchorKind? && x.kind.anchor.chain.Some? && x.kind.anchor.chain.value !in acc
        then acc + [x.kind.anchor.chain.value] else acc
  {
    var x, prior := trav[j], before + trav[..j];
    assert before + trav[..j + 1] == prior + [x];
    assert (prior + [x])[..|prior + [x]| - 1] == prior;
    assert (prior + [x])[|prior + [x]| - 1] == x;
    if x.kind.AnchorKind? && x.kind.anchor.chain.Some? {
      assert AnchorChains(prior + [x]) == AnchorChains(prior) + [x.kind.anchor.chain.value];
      AddNewSnoc([], AnchorChains(prior), x.kind.anchor.chain.value);
    } else {
      assert AnchorChains(prior + [x]) == AnchorChains(prior) + [];
      assert AnchorChains(prior) + [] == AnchorChains(prior);
    }
  }

  /**
   * The traversal half of `changeIKChains`: every chain an anchor of `objs`
   * holds is offered to `addChain`, in order. `addChain` only checks the
   * chain against the tracked ones, so nothing changes; the result lists
   * the chains offered.
   */
  method OfferChains(ik: IKManager, objs: seq<EObject>) returns (offered: seq<IKChain>)
    ensures offered == AnchorChains(objs)
  {
    offered := [];
    var i := 0;
    while i < |objs|
      invariant 0 <= i <= |objs|
      invariant offered == AnchorChains(objs[..i])
    {
      var obj := objs[i];
      assert objs[..i + 1][..i] == objs[..i];
      if obj.kind.AnchorKind? && obj.kind.anchor.chain.Some? {
        label L:
        var _ := ik.AddChain(obj.kind.anchor.chain.value);
        assert unchanged@L(ListedAnchors(objs[..i]));
        offered := offered + [obj.kind.anchor.chain.value];
      }
      i := i + 1;
    }
    assert objs[..i] == objs;
  }

  /** The chains of the anchors of `xs` are as they were when no anchor of `xs` changed its chain. */
  twostate lemma {:induction false} AnchorChainsKept(xs: seq<EObject>)
    requires forall x :: x in xs && x.kind.AnchorKind? ==> x.kind.anchor.chain == old(x.kind.anchor.chain)
    ensures AnchorChains(xs) == old(AnchorChains(xs))
    decreases |xs|
  {
    if xs != [] {
      AnchorChainsKept(xs[..|xs| - 1]);
    }
  }

  /** The traversals visit objects of the scene graph only. */
  lemma TraversedInTree(scene: Scene, objs: seq<EObject>)
    requires scene.Valid() && forall o :: o in objs ==> o in scene.tree.children
    ensures forall x :: x in Traversals(scene, objs) ==> x in scene.tree.children
  {
    forall x | x in Traversals(scene, objs)
      ensures x in scene.tree.children
    {
      TraversalsMember(scene, objs, x);
      var o :| o in objs && x in scene.Traverse(o);
      scene.TraverseSubtree(o, x);
    }
  }

  /**
   * `updateAnchorsChainForObjects` once the chains are known to be ancestor
   * paths: the chains are gathered, then solved.
   */
  method SolveGathered(scene: Scene, ik: IKManager, objects: seq<EObject>, aligned: (IKChain, seq<nat>, BoneUtils.NodeId) -> bool)
    returns (toSolve: seq<IKChain>, solved: seq<IKChain>)
    requires scene.Valid() && ik.Valid() && forall o :: o in objects ==> o in scene.tree.children
    requires forall c :: c in Dedup(AnchorChains(Traversals(scene, objects))) ==> AncestorPath(ik.g.nodes, c.bones)
    modifies ik.g`ik, ik.g`turns
    ensures toSolve == old(Dedup(AnchorChains(Traversals(scene, objects))))
    ensures forall c :: c in toSolve ==> AncestorPath(ik.g.nodes, c.bones)
    ensures solved == Dedup(ListsAt(old(ik.g.ik), Visits(ik.g.nodes, Dedup(TailRoots(ik.g.nodes, toSolve)))))
    ensures (ik.g.ik, ik.g.turns) == SolveAll(ik.g.nodes, old(ik.g.ik), old(ik.g.turns), solved, aligned)
    ensures ik.Valid()
  {
    TraversedInTree(scene, objects);
    ghost var want := Dedup(AnchorChains(Traversals(scene, objects)));
    ghost var visited;
    toSolve, visited := GatherChains(scene, objects);
    AnchorChainsKept(visited);
    assert toSolve == want;
    forall i | 0 <= i < |toSolve|
      ensures AncestorPath(ik.g.nodes, toSolve[i].bones)
    {
      assert toSolve[i] in want;
    }
    solved := ik.SolveChains(toSolve, aligned);
  }

  /** The work of `createIKChainForAnchor` on the IK manager and the anchor. */
  method ChainForAnchor(ik: IKManager, x: EObject, bone: BoneUtils.NodeId, boneName: string, size: int) returns (ok: bool)
    requires ik.Valid() && x.kind.AnchorKind? && BoneUtils.IsBone(ik.g.nodes, bone)
    modifies x`name, x.kind.anchor`chain, ik`chains, ik`chainIdCounter, ik.g`ik, ik.chains`lockTail
    ensures ok <==> size >= 1 && Available(old(ik.g.ik), old(BonesOf(ik.chains)), bone)
    ensures !ok ==> x.name == old(x.name) && x.kind.anchor.chain == old(x.kind.anchor.chain)
                    && ik.chains == old(ik.chains) && ik.g.ik == old(ik.g.ik)
    ensures ok ==>
      && x.name == boneName + "-anchor"
      && x.kind.anchor.chain.Some? && fresh(x.kind.anchor.chain.value)
      && ik.chains == old(ik.chains) + [x.kind.anchor.chain.value]
      && |x.kind.anchor.chain.value.bones| >= 1 && x.kind.anchor.chain.value.bones[0] == bone
      && |x.kind.anchor.chain.value.bones| - 1 <= size
      && ik.TailsLocked()
    ensures ok ==>
      var r := Created(ik.g.nodes, old(ik.g.ik), old(BonesOf(ik.chains)), x.kind.anchor.chain.value, bone, size);
      x.kind.anchor.chain.value.bones == r.bones && ik.g.ik == r.ik
    ensures ik.Valid()
  {
    var chain := ik.CreateChainFromBone(bone, size);
    ok := chain.Some?;
    if ok {
      label Built:
      x.name := boneName + "-" + "anchor";
      x.kind.anchor.chain := chain;
      ManagerKept@Built(ik);
    }
  }

  /** Writes to anything but the IK manager, its graph and its chains leave its invariants holding. */
  twostate lemma ManagerKept(ik: IKManager)
    requires old(ik.Valid()) && unchanged(ik, ik.g) && forall c :: c in old(ik.g.Listed()) ==> unchanged(c)
    ensures ik.Valid() && (old(ik.TailsLocked()) ==> ik.TailsLocked())
  {
  }

  /** The work of `setIKChainSize` on the IK manager and the anchor's chain. */
  method ResizeHeld(ik: IKManager, a: EAnchor, size: int) returns (refreshed: Option<BoneUtils.NodeId>)
    requires ik.Valid()
    modifies Held(a)`bones, ik.g`ik, ik.chains`lockTail
    ensures a.chain.None? ==> refreshed.None? && ik.g.ik == old(ik.g.ik)
    ensures a.chain.Some? && a.chain.value !in ik.chains ==> refreshed.None? && unchanged(a.chain.value, ik.g)
    ensures ResizedTo(ik, a, size, refreshed, old(HeldBones(a)), old(ik.g.ik), old(BonesOf(ik.chains)))
    ensures ik.g.Listed() == old(ik.g.Listed())
    ensures ik.Valid()
  {
    refreshed := None;
    if a.chain.Some? {
      var c := a.chain.value;
      var oldBones := c.bones;
      var oldSize := c.Size();
      var changed := ik.SetChainSize(c, size);
      if changed {
        ListedPaths(ik.g, ik.chains);
        refreshed := Some(if oldSize < size then c.Tail() else oldBones[|oldBones| - 1]);
      }
    }
  }

  /** The bones of the chain an anchor holds, or none. */
  function HeldBones(a: EAnchor): seq<BoneUtils.NodeId>
    reads a, Held(a)
  {
    if a.chain.Some? then a.chain.value.bones else []
  }

  /**
   * The outcome of `setIKChainSize` on the chain `a` holds, given the bones
   * of that chain, the bone data and the tracked chains before: with no
   * chain, nothing is refreshed and the bone data stay; with an untracked
   * chain, nothing is refreshed and neither the chain nor the bone data
   * change; with a tracked chain, the chain and the
   * bone data are those of resizing to the target size, the tail locks
   * follow the rule, and a bone is refreshed exactly when the chain
   * changed: the new tail when it grew, the old tail when it shrank.
   */
  ghost predicate ResizedTo(ik: IKManager, a: EAnchor, size: int, refreshed: Option<BoneUtils.NodeId>,
                            before: seq<BoneUtils.NodeId>, ikBefore: IkMap, tracked: Snapshot)
    reads a, Held(a), ik, ik.g, ik.chains, ik.g.Listed()`bones
  {
    if a.chain.None? then refreshed.None? && ik.g.ik == ikBefore
    else if a.chain.value !in ik.chains then refreshed.None? && a.chain.value.bones == before && ik.g.ik == ikBefore
    else
      var c := a.chain.value;
      && BoneUtils.WellFormed(ik.g.nodes) && |before| >= 1 && before[|before| - 1] < |ik.g.nodes|
      && var r := Resize(ik.g.nodes, ikBefore, c, before, Target(ik.g.nodes, ikBefore, tracked, before, size));
      && c.bones == r.bones && ik.g.ik == r.ik && ik.TailsLocked()
      && |c.bones| >= 1
      && (refreshed.Some? <==> r.changed)
      && (r.changed ==> refreshed.value == if |before| - 1 < size then c.Tail() else before[|before| - 1])
  }

  /** The chain an anchor holds, if any. */
  function Held(a: EAnchor): set<IKChain>
    reads a
  {
    if a.chain.Some? then {a.chain.value} else {}
  }

  /**
   * The links survive a step that leaves the scene graph as it was and
   * keeps the IK manager valid, when each anchor of the scene either keeps
   * its chain and that chain's bones, holds no chain, or holds a tracked
   * chain.
   */
  twostate lemma LinkedKept(e: Editor)
    requires old(e.Linked()) && unchanged(e.scene) && e.ik.Valid()
    requires forall a :: a in e.SceneAnchors() && a.chain.Some? ==>
      a.chain.value in e.ik.chains || (a.chain == old(a.chain) && a.chain.value.bones == old(a.chain.value.bones))
    ensures e.Linked()
  {
    ListedPaths(e.ik.g, e.ik.chains);
  }

  /**
   * The editor stays valid through a step that changes only the scene
   * graph, keeps its anchor objects and leaves the graph valid.
   */
  twostate lemma SceneStepKept(e: Editor)
    requires old(e.Valid()) && e.scene.Valid()
    requires e.SceneAnchors() == old(e.SceneAnchors())
    requires unchanged(e.ik, e.ik.g, e.selectedObjects) && unchanged(e.ik.g.Listed()) && unchanged(e.ik.chains)
    requires unchanged(old(e.SceneAnchors())) && unchanged(old(ChainsOf(e.SceneAnchors())))
    ensures e.Valid()
  {
  }

  /**
   * One step of `addEditorObjects`: a new object joins the scene graph as
   * the last child of the root, with no children of its own.
   */
  method AddBelowRoot(sc: Scene, o: EObject)
    requires sc.Valid() && o !in sc.tree.children && !o.kind.Bare? && sc.root !in sc.tree.parent
    modifies sc
    ensures sc.tree.parent == old(sc.tree.parent)[o := sc.root]
    ensures sc.tree.children == old(sc.tree.children)[o := []][sc.root := old(sc.tree.children)[sc.root] + [o]]
    ensures sc.Valid()
  {
    sc.Insert(o);
    sc.Attach(o, sc.root);
  }

  /** A new editor object of kind `k`, named `name`, neither exported nor shown in the explorer. */
  method NewEditorObject(k: Kind, uuid: string, name: string) returns (o: EObject)
    ensures fresh(o) && o.kind == k && o.uuid == uuid && o.name == name
    ensures !o.canBeExported && !o.showInExplorer && o.isSelectable == !k.SceneKind? && !o.isSelected
  {
    o := new EObject(k, uuid);
    o.name := name;
    o.canBeExported := false;
    o.showInExplorer := false;
  }

  /**
   * The editor's own objects as `addEditorObjects` finds them: the transform
   * group, the pivot (named "Anchor"), the ambient light and the grid carry
   * their names, are neither exported nor shown in the explorer nor
   * selected, and the grid is not selectable.
   */
  ghost predicate OwnObjects(tg: EObject, tp: EObject, al: EObject, gr: EObject)
    reads tg, tp, al, gr
  {
    && tg.kind == EmptyKind && tg.name == "TransformGroup"
    && tp.kind == EmptyKind && tp.name == "Anchor"
    && al.kind == AmbientLightKind && al.name == "AmbientLight"
    && gr.kind == GridKind && gr.name == "Grid" && !gr.isSelectable
    && forall o :: o in [tg, tp, al, gr] ==> !o.canBeExported && !o.showInExplorer && !o.isSelected
  }

  /** The editor's own objects, as its field initialisers and constructor make them. */
  method EditorObjects(groupUuid: string, pivotUuid: string, lightUuid: string, gridUuid: string)
    returns (tg: EObject, tp: EObject, al: EObject, gr: EObject)
    ensures fresh(tg) && fresh(tp) && fresh(al) && fresh(gr)
    ensures tg != tp && tg != al && tg != gr && tp != al && tp != gr && al != gr
    ensures OwnObjects(tg, tp, al, gr)
  {
    tg := NewEditorObject(EmptyKind, groupUuid, "TransformGroup");
    tp := NewEditorObject(EmptyKind, pivotUuid, "Anchor");
    al := NewEditorObject(AmbientLightKind, lightUuid, "AmbientLight");
    gr := NewEditorObject(GridKind, gridUuid, "Grid");
    gr.isSelectable := false;
  }

  /** The tree holds `root` and, as its leaf children in this order, `objs`: nothing else. */
  predicate FlatBelow(t: Tree<EObject>, root: EObject, objs: seq<EObject>) {
    && t.children.Keys == {root} + Members(objs)
    && t.parent.Keys == Members(objs)
    && root in t.children && t.children[root] == objs
    && forall o :: o in objs ==> o in t.children && t.children[o] == [] && o in t.parent && t.parent[o] == root
  }

  /** Hanging one more leaf `o` below the root keeps the tree flat. */
  lemma FlatBelowSnoc(t: Tree<EObject>, root: EObject, objs: seq<EObject>, o: EObject)
    requires FlatBelow(t, root, objs) && o != root && o !in objs
    ensures FlatBelow(Tree(t.parent[o := root], t.children[o := []][root := t.children[root] + [o]]), root, objs + [o])
  {
    assert Members(objs + [o]) == Members(objs) + {o};
  }

  /** A flat tree whose root and leaves are no anchors holds no anchor. */
  lemma NoAnchorsBelow(t: Tree<EObject>, root: EObject, objs: seq<EObject>)
    requires FlatBelow(t, root, objs) && !root.kind.AnchorKind?
    requires forall o :: o in objs ==> !o.kind.AnchorKind?
    ensures AnchorsOf(t.children.Keys) == {}
  {
    assert forall o :: o in t.children ==> o == root || o in objs;
  }

  /**
   * `addEditorObjects` on a scene holding only its root: `scene.add` of
   * each object in turn, so that they become the root's children, in
   * order, with no children of their own.
   */
  method AddEditorObjects(sc: Scene, objs: seq<EObject>)
    requires sc.Valid() && sc.tree.parent == map[] && sc.tree.children == map[sc.root := []]
    requires NoDup(objs) && forall o :: o in objs ==> o != sc.root && !o.kind.Bare?
    modifies sc
    ensures FlatBelow(sc.tree, sc.root, objs) && sc.Valid()
  {
    var i := 0;
    while i < |objs|
      invariant 0 <= i <= |objs| && sc.Valid() && sc.root !in sc.tree.parent
      invariant FlatBelow(sc.tree, sc.root, objs[..i])
    {
      ghost var t := sc.tree;
      assert objs[i] !in objs[..i];
      AddBelowRoot(sc, objs[i]);
      FlatBelowSnoc(t, sc.root, objs[..i], objs[i]);
      assert objs[..i + 1] == objs[..i] + [objs[i]];
      i := i + 1;
    }
    assert objs[..i] == objs;
  }

  /**
   * A new editor's scene: the root is the scene named "Scene", and it holds
   * the editor's own objects, in this order, as leaves and nothing else.
   */
  ghost predicate EditorSceneHeld(sc: Scene, tg: EObject, tp: EObject, al: EObject, gr: EObject)
    reads sc, sc.root, tg, tp, al, gr
  {
    && sc.root.kind.SceneKind? && sc.root.name == "Scene"
    && OwnObjects(tg, tp, al, gr)
    && FlatBelow(sc.tree, sc.root, [tg, tp, al, gr])
  }

  /** The editor's scene after `addEditorObjects`, holding no anchor. */
  method EditorScene(sceneUuid: string, groupUuid: string, pivotUuid: string, lightUuid: string, gridUuid: string)
    returns (sc: Scene, tg: EObject, tp: EObject, al: EObject, gr: EObject)
    ensures fresh(sc) && sc.Valid() && AnchorsOf(sc.tree.children.Keys) == {}
    ensures EditorSceneHeld(sc, tg, tp, al, gr)
  {
    var root := new EObject(SceneKind, sceneUuid);
    sc := new Scene(root);
    tg, tp, al, gr := EditorObjects(groupUuid, pivotUuid, lightUuid, gridUuid);
    AddEditorObjects(sc, [tg, tp, al, gr]);
    NoAnchorsBelow(sc.tree, root, [tg, tp, al, gr]);
    assert OwnObjects(tg, tp, al, gr);
  }

  /**
   * The parts `new Editor()` builds: the scene with the editor's own
   * objects, the grid's buffers, an empty selection and an IK manager
   * over the bones that tracks no chain.
   */
  method EditorParts(g: BoneGraph, sceneUuid: string, groupUuid: string, pivotUuid: string, lightUuid: string, gridUuid: string)
    returns (sc: Scene, m: IKManager, sel: JsArray<EObject>, gb: Grid.EGrid, tg: EObject, tp: EObject, al: EObject, gr: EObject)
    requires g.Valid()
    ensures sc.Valid() && AnchorsOf(sc.tree.children.Keys) == {} && EditorSceneHeld(sc, tg, tp, al, gr)
    ensures m.Valid() && m.g == g && m.chains == [] && sel.elems == []
    ensures gb.size == Grid.DefaultSize && gb.color == Grid.DefaultColor && gb.Valid()
  {
    sc, tg, tp, al, gr := EditorScene(sceneUuid, groupUuid, pivotUuid, lightUuid, gridUuid);
    gb := Grid.DefaultGrid();
    sel := new JsArray([]);
    m := new IKManager(g);
  }

  class Editor {
    const scene: Scene
    const ik: IKManager
    const selectedObjects: JsArray<EObject>
    /** The editor's own objects, which `addEditorObjects` hangs below the scene root. */
    const transformGroup: EObject
    const transformPivot: EObject
    const ambientLight: EObject
    const grid: EObject
    /** The buffers of `grid`, built with the default size and colour. */
    const gridBuffers: Grid.EGrid

    /** The anchor states of the scene graph's anchor objects. */
    ghost function SceneAnchors(): set<EAnchor>
      reads scene
    {
      AnchorsOf(scene.tree.children.Keys)
    }

    /**
     * The scene graph and the IK manager are valid, and the chain of every
     * anchor of the graph is an ancestor path of bones, as a chain built or
     * resized by the manager is.
     */
    ghost predicate Linked()
      reads scene, ik, ik.g, ik.g.Listed()`bones, ik.chains`bones
      reads SceneAnchors(), ChainsOf(SceneAnchors())`bones
    {
      && scene.Valid() && ik.Valid()
      && forall a :: a in SceneAnchors() && a.chain.Some? ==> AncestorPath(ik.g.nodes, a.chain.value.bones)
    }

    /** The links hold and no object is selected twice. */
    ghost predicate Valid()
      reads scene, ik, ik.g, ik.g.Listed()`bones, ik.chains`bones, selectedObjects
      reads SceneAnchors(), ChainsOf(SceneAnchors())`bones
    {
      Linked() && NoDup(selectedObjects.elems)
    }

    /**
     * A new editor: no chain tracked and nothing selected; the scene root,
     * named "Scene", holds the transform group, the transform pivot, the
     * ambient light and the grid, in that order, each named, hidden from
     * the explorer and never exported, the grid also not selectable.
     */
    constructor (g: BoneGraph, sceneUuid: string, groupUuid: string, pivotUuid: string, lightUuid: string, gridUuid: string)
      requires g.Valid()
      ensures Valid() && ik.g == g && ik.chains == [] && selectedObjects.elems == []
      ensures EditorSceneHeld(scene, transformGroup, transformPivot, ambientLight, grid)
      ensures gridBuffers.size == Grid.DefaultSize && gridBuffers.color == Grid.DefaultColor && gridBuffers.Valid()
    {
      var sc, m, sel, gb, tg, tp, al, gr := EditorParts(g, sceneUuid, groupUuid, pivotUuid, lightUuid, gridUuid);
      scene, ik, selectedObjects := sc, m, sel;
      transformGroup, transformPivot, ambientLight, grid, gridBuffers := tg, tp, al, gr, gb;
      new;
      assert ik.Valid() && scene.Valid();
      assert SceneAnchors() == {};
    }

    /**
     * `selectObjects`: each listed object not selected yet is appended to
     * the selection and marked selected; the selection changed exactly
     * when one was.
     */
    method SelectObjects(objects: seq<EObject>) returns (changed: bool)
      requires Valid()
      modifies selectedObjects, objects`isSelected
      ensures selectedObjects.elems == AddNew(old(selectedObjects.elems), objects)
      ensures changed <==> exists o :: o in objects && o !in old(selectedObjects.elems)
      ensures forall o :: o in objects && o !in old(selectedObjects.elems) ==> o.isSelected
      ensures forall o :: o in old(selectedObjects.elems) ==> o.isSelected == old(o.isSelected)
      ensures Valid() && unchanged(scene)
    {
      AddNewFacts(selectedObjects.elems, objects);
      AddNewGrows(selectedObjects.elems, objects);
      changed := SelectInto(selectedObjects, objects);
    }

    /**
     * `unselectObjects`: each listed object leaves the selection and, when
     * it was selected, is marked unselected; the selection changed exactly
     * when one was. Each temporary anchor among them gives up its chain,
     * which the IK manager drops.
     */
    method UnselectObjects(objects: seq<EObject>) returns (changed: bool)
      requires Valid()
      modifies selectedObjects, objects`isSelected, ListedAnchors(objects)`chain, ik`chains, ik.g`ik
      ensures selectedObjects.elems == Without(old(selectedObjects.elems), Members(objects))
      ensures changed <==> exists o :: o in objects && o in old(selectedObjects.elems)
      ensures forall o :: o in objects ==> o.isSelected == if o in old(selectedObjects.elems) then false else old(o.isSelected)
      ensures forall a :: a in ListedAnchors(objects) ==> a.chain == if a.temporary then None else old(a.chain)
      ensures ik.chains == Without(old(ik.chains), old(TemporaryChains(objects)))
      ensures ik.g.Listed() == old(ik.g.Listed()) - set c | c in old(ik.chains) && c in old(TemporaryChains(objects))
      ensures Valid() && unchanged(scene)
    {
      WithoutShrinks(selectedObjects.elems, Members(objects));
      WithoutNoDup(selectedObjects.elems, Members(objects));
      changed := UnselectFrom(selectedObjects, ik, objects);
      LinkedKept(this);
    }

    /**
     * `changeIKChains`: the IK manager drops and disposes every tracked
     * chain and resets its counter; then each chain held by an anchor of
     * the scene is offered back to `addChain`, which never inserts, so no
     * chain stays tracked. The anchors keep their chains.
     */
    method ChangeIKChains() returns (offered: seq<IKChain>)
      requires Valid()
      modifies ik`chains, ik`chainIdCounter, ik.g`ik
      ensures ik.chains == [] && ik.chainIdCounter == 0
      ensures ik.g.Listed() == old(ik.g.Listed()) - Members(old(ik.chains))
      ensures ik.g.ik == DisposeEach(old(ik.g.ik), old(ik.chains), old(BonesOf(ik.chains)))
      ensures offered == AnchorChains(scene.Traverse(scene.root))
      ensures Valid()
    {
      ik.RemoveAllChains();
      offered := OfferChains(ik, scene.Traverse(scene.root));
      LinkedKept(this);
    }

    /** The chains `GatherChains` collects for `objs` are ancestor paths of bones. */
    lemma GatheredPaths(objs: seq<EObject>)
      requires Linked() && forall o :: o in objs ==> o in scene.tree.children
      ensures forall c :: c in Dedup(AnchorChains(Traversals(scene, objs))) ==> AncestorPath(ik.g.nodes, c.bones)
    {
      forall c | c in Dedup(AnchorChains(Traversals(scene, objs)))
        ensures AncestorPath(ik.g.nodes, c.bones)
      {
        ChainsToSolve(scene, objs, c);
        var o, x :| o in objs && x in scene.tree.children && Above(scene.tree, scene.rank, o, x)
                    && x.kind.AnchorKind? && x.kind.anchor.chain == Some(c);
        assert x.kind.anchor in SceneAnchors();
      }
    }

    /**
     * `updateAnchorsChainForObjects`: the chains of the anchors in the
     * subtrees of the listed objects are gathered, each once, and solved
     * together. The results are the gathered chains and the chains the IK
     * manager solved, in order.
     */
    method UpdateAnchorsChainForObjects(objects: seq<EObject>, aligned: (IKChain, seq<nat>, BoneUtils.NodeId) -> bool)
      returns (toSolve: seq<IKChain>, solved: seq<IKChain>)
      requires Valid() && forall o :: o in objects ==> o in scene.tree.children
      modifies ik.g`ik, ik.g`turns
      ensures toSolve == old(Dedup(AnchorChains(Traversals(scene, objects))))
      ensures forall c :: c in toSolve ==> AncestorPath(ik.g.nodes, c.bones)
      ensures solved == Dedup(ListsAt(old(ik.g.ik), Visits(ik.g.nodes, Dedup(TailRoots(ik.g.nodes, toSolve)))))
      ensures (ik.g.ik, ik.g.turns) == SolveAll(ik.g.nodes, old(ik.g.ik), old(ik.g.turns), solved, aligned)
      ensures Valid()
    {
      GatheredPaths(objects);
      toSolve, solved := SolveGathered(scene, ik, objects, aligned);
      LinkedKept(this);
    }

    /**
     * `setIKChainSize`: when the anchor holds a chain, the IK manager resizes
     * it. The result is the bone whose helpers are refreshed: none when the
     * anchor holds no chain or the size did not change, otherwise the new
     * tail when the chain grew and the old tail when it shrank.
     */
    method SetIKChainSize(a: EAnchor, size: int) returns (refreshed: Option<BoneUtils.NodeId>)
      requires Valid()
      modifies Held(a)`bones, ik.g`ik, ik.chains`lockTail
      ensures ResizedTo(ik, a, size, refreshed, old(HeldBones(a)), old(ik.g.ik), old(BonesOf(ik.chains)))
      ensures ik.g.Listed() == old(ik.g.Listed())
      ensures Valid()
    {
      refreshed := ResizeHeld(ik, a, size);
      forall b | b in SceneAnchors() && b.chain.Some?
        ensures b.chain.value in ik.chains || (b.chain == old(b.chain) && b.chain.value.bones == old(b.chain.value.bones))
      {
        if a.chain.Some? && b.chain.value == a.chain.value {
          assert a.chain.value in ik.chains || b.chain.value.bones == old(HeldBones(a));
        } else {
          assert b.chain.value !in Held(a);
        }
      }
      LinkedKept(this);
    }

    /**
     * `createIKChainForAnchor`: the IK manager builds a chain of at most
     * `size` bones up from `bone`; when it can, the anchor object is named
     * after the bone (`boneName` + "-anchor") and its anchor holds the new
     * chain. The result tells whether the chain was built.
     */
    method CreateIKChainForAnchor(x: EObject, bone: BoneUtils.NodeId, boneName: string, size: int) returns (ok: bool)
      requires Valid() && x.kind.AnchorKind? && BoneUtils.IsBone(ik.g.nodes, bone)
      modifies x`name, x.kind.anchor`chain, ik`chains, ik`chainIdCounter, ik.g`ik, ik.chains`lockTail
      ensures ok <==> size >= 1 && Available(old(ik.g.ik), old(BonesOf(ik.chains)), bone)
      ensures !ok ==> x.name == old(x.name) && x.kind.anchor.chain == old(x.kind.anchor.chain)
                      && ik.chains == old(ik.chains) && ik.g.ik == old(ik.g.ik)
      ensures ok ==>
        && x.name == boneName + "-anchor"
        && x.kind.anchor.chain.Some? && fresh(x.kind.anchor.chain.value)
        && ik.chains == old(ik.chains) + [x.kind.anchor.chain.value]
        && |x.kind.anchor.chain.value.bones| >= 1 && x.kind.anchor.chain.value.bones[0] == bone
        && |x.kind.anchor.chain.value.bones| - 1 <= size
        && ik.TailsLocked()
      ensures ok ==>
        var r := Created(ik.g.nodes, old(ik.g.ik), old(BonesOf(ik.chains)), x.kind.anchor.chain.value, bone, size);
        x.kind.anchor.chain.value.bones == r.bones && ik.g.ik == r.ik
      ensures Valid()
    {
      ok := ChainForAnchor(ik, x, bone, boneName, size);
      LinkedKept(this);
    }

    /**
     * `remove`: the objects leave their parents in order; unless
     * `removeChildren`, the EObject children of each first move to its
     * parent. The set of nodes, and so the anchors and their chains, stay.
     * A child only ever moves up to an ancestor, so the links still go down
     * in any ranking they went down in before: the ghost `order` is such a
     * ranking (the scene's own ranks are one).
     */
    method Remove(objects: seq<EObject>, removeChildren: bool, ghost order: map<EObject, nat>)
      requires Valid() && forall o :: o in objects ==> o in scene.tree.children && !o.kind.Bare?
      requires Descends(scene.tree, order)
      modifies scene
      ensures scene.tree == RemoveEach(old(scene.tree), objects, removeChildren)
      ensures RemovedFrom(scene.tree, old(scene.tree), Members(objects), removeChildren)
      ensures scene.tree.children.Keys == old(scene.tree.children.Keys)
      ensures Descends(scene.tree, order)
      ensures Valid()
    {
      RemoveFrom(scene, objects, removeChildren, order);
      SceneStepKept(this);
    }

    /**
     * `attach`: each listed object whose parent is not `parent` moves below
     * it, in list order. The set of nodes, and so the anchors, stay.
     */
    method Attach(objects: seq<EObject>, parent: EObject)
      requires Valid() && parent in scene.tree.children && !parent.kind.Bare?
      requires forall o :: o in objects ==> o in scene.tree.children && !Above(scene.tree, scene.rank, o, parent)
      modifies scene
      ensures scene.tree == AttachEach(old(scene.tree), objects, parent)
      ensures scene.tree.children.Keys == old(scene.tree.children.Keys)
      ensures Valid()
    {
      var _ := scene.AttachAll(objects, parent);
      AttachEachKeys(old(scene.tree), objects, parent);
      SceneStepKept(this);
    }

    /**
     * `makeAnchorNonTemporary`: the anchor becomes permanent, showing a
     * sphere, and moves below the scene root; its chain stays.
     */
    method MakeAnchorNonTemporary(x: EObject)
      requires Valid() && x in scene.tree.children && x.kind.AnchorKind?
      requires !Above(scene.tree, scene.rank, x, scene.root)
      modifies x.kind.anchor, scene
      ensures !x.kind.anchor.temporary && x.kind.anchor.chain == old(x.kind.anchor.chain)
      ensures old(x.kind.anchor.temporary) ==> x.kind.anchor.shape == Sphere
      ensures !old(x.kind.anchor.temporary) ==> x.kind.anchor.shape == old(x.kind.anchor.shape)
      ensures scene.tree == AttachEach(old(scene.tree), [x], scene.root)
      ensures scene.tree.children.Keys == old(scene.tree.children.Keys)
      ensures Valid()
    {
      x.kind.anchor.SetAsNonTemporary();
      Attach([x], scene.root);
    }

    /**
     * A newly built object that is not an anchor joins the scene graph as
     * a node with no parent and no children.
     */
    method Register(o: EObject)
      requires Valid() && o !in scene.tree.children && !o.kind.AnchorKind?
      modifies scene
      ensures scene.tree == Tree(old(scene.tree).parent, old(scene.tree).children[o := []])
      ensures Valid()
    {
      scene.Insert(o);
      assert SceneAnchors() == old(SceneAnchors());
      SceneStepKept(this);
    }

    /**
     * `removeChainFromAnchor`: the anchor's chain, if it has one, leaves the
     * IK manager (disposed when tracked) and the anchor holds none; the
     * result tells whether there was a chain.
     */
    method RemoveChainFromAnchor(a: EAnchor) returns (had: bool)
      requires Valid()
      modifies a`chain, ik`chains, ik.g`ik
      ensures had <==> old(a.chain).Some?
      ensures a.chain.None?
      ensures had ==> ik.chains == Without(old(ik.chains), {old(a.chain).value})
      ensures had && old(a.chain).value in old(ik.chains) ==> ik.g.Listed() == old(ik.g.Listed()) - {old(a.chain).value}
      ensures !had ==> ik.chains == old(ik.chains) && ik.g.ik == old(ik.g.ik)
      ensures Valid()
    {
      had := DropChain(ik, a);
    }
  }
}
