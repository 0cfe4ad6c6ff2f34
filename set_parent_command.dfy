/**
 * `SetParentCommand`: the constructor keeps the objects that have an
 * EObject parent and whose subtree does not hold the new parent, with their
 * parents at that moment; `do` attaches them to the new parent and `undo`
 * attaches each back to its recorded parent.
 *
 * three.js `attach` makes a cycle when an object is attached below its own
 * subtree, which the scene graph rules out. What keeps `do` and `undo` clear
 * of that, whatever happened in between, is a ghost `order` fixed at
 * construction in which every parent link of the scene goes down: the new
 * parent and each recorded parent are ranked above the objects, so neither
 * lies in their subtrees.
 */
module Reparent {
  import opened Wrappers
  import opened Seqs
  import opened Trees
  import opened SceneObjects
  import opened SceneGraph
  import opened EditorCore

  /** The constructor's test: `o` has an EObject parent and its subtree does not hold `n`. */
  ghost predicate CanMove(t: Tree<EObject>, rank: map<EObject, nat>, o: EObject, n: EObject)
    requires Ranked(t, rank)
  {
    ParentOf(t, o).Some? && !(n in rank && Above(t, rank, o, n))
  }

  /** The objects of `objs` the constructor keeps, in order. */
  ghost function Movable(t: Tree<EObject>, rank: map<EObject, nat>, objs: seq<EObject>, n: EObject): seq<EObject>
    requires Ranked(t, rank)
    decreases |objs|
  {
    if objs == [] then []
    else
      var last := objs[|objs| - 1];
      Movable(t, rank, objs[..|objs| - 1], n) + (if CanMove(t, rank, last, n) then [last] else [])
  }

  /** The constructor keeps exactly the listed objects that pass its test. */
  lemma {:induction false} MovableExactly(t: Tree<EObject>, rank: map<EObject, nat>, objs: seq<EObject>, n: EObject, x: EObject)
    requires Ranked(t, rank)
    ensures x in Movable(t, rank, objs, n) <==> x in objs && CanMove(t, rank, x, n)
    decreases |objs|
  {
    if objs != [] {
      var k := |objs| - 1;
      MovableExactly(t, rank, objs[..k], n, x);
      assert objs == objs[..k] + [objs[k]];
    }
  }

  /** `x` lies in the subtree of one of `objs`. */
  ghost predicate Lifted(t: Tree<EObject>, rank: map<EObject, nat>, objs: seq<EObject>, x: EObject)
    requires Ranked(t, rank) && x in rank
  {
    exists o :: o in objs && Above(t, rank, o, x)
  }

  /** `n` has neither a parent nor children. */
  predicate Isolated(t: Tree<EObject>, n: EObject) {
    n !in t.parent && Kids(t, n) == []
  }

  /**
   * The ghost order of the command: the ranks of `t`, with the subtrees of
   * `objs` pushed `bound + 1` deeper, and `n` at `bound` when it has no link.
   */
  ghost function Lift(t: Tree<EObject>, rank: map<EObject, nat>, bound: nat, objs: seq<EObject>, n: EObject): map<EObject, nat>
    requires Ranked(t, rank)
  {
    var base := map x | x in rank :: if Lifted(t, rank, objs, x) then rank[x] + bound + 1 else rank[x];
    if Isolated(t, n) then base[n := bound] else base
  }

  /**
   * In `Lift` every link of `t` goes down, and `n` and the parent of each
   * kept object are ranked above it; a node outside the lifted subtrees is
   * ranked above an isolated `n`.
   */
  lemma LiftOrders(t: Tree<EObject>, rank: map<EObject, nat>, bound: nat, objs: seq<EObject>, n: EObject)
    requires Ranked(t, rank) && Bounded(rank, bound)
    requires forall o :: o in objs ==> o in rank && CanMove(t, rank, o, n)
    requires n in rank || Isolated(t, n)
    ensures var order := Lift(t, rank, bound, objs, n);
      && Descends(t, order) && n in order
      && (forall o :: o in objs ==> o in order && order[n] < order[o] && o in t.parent && t.parent[o] in order && order[t.parent[o]] < order[o])
      && (Isolated(t, n) ==> forall x :: x in rank && x != n && !Lifted(t, rank, objs, x) ==> order[x] < order[n])
  {
    var order := Lift(t, rank, bound, objs, n);
    forall c | c in t.parent
      ensures c in order && t.parent[c] in order && order[t.parent[c]] < order[c]
    {
      var p := t.parent[c];
      assert UpLinked(t, rank, c);
      if Isolated(t, n) {
        assert c != n;
        assert p != n by {
          assert c in Kids(t, p);
        }
      }
      if Lifted(t, rank, objs, p) {
        var o :| o in objs && Above(t, rank, o, p);
        assert Above(t, rank, o, c);
      }
    }
    forall o | o in objs
      ensures o in order && order[n] < order[o] && o in t.parent && t.parent[o] in order && order[t.parent[o]] < order[o]
    {
      assert Above(t, rank, o, o);
      assert UpLinked(t, rank, o);
      if n in rank && !Isolated(t, n) {
        assert !Lifted(t, rank, objs, n);
      }
    }
  }

  /**
   * The loop of the constructor: the listed objects that have an EObject
   * parent and whose traversal does not reach `newParent`, with their
   * parents.
   */
  method Keep(scene: Scene, objects: seq<EObject>, newParent: EObject) returns (kept: seq<EObject>, parents: map<EObject, EObject>)
    requires scene.Valid() && !newParent.kind.Bare?
    requires forall o :: o in objects ==> o in scene.tree.children && !o.kind.Bare?
    ensures kept == Movable(scene.tree, scene.rank, objects, newParent)
    ensures parents.Keys == Members(kept)
    ensures forall o :: o in parents ==> ParentOf(scene.tree, o) == Some(parents[o]) && !parents[o].kind.Bare?
    ensures forall o :: o in kept ==> o in scene.rank && CanMove(scene.tree, scene.rank, o, newParent)
  {
    kept, parents := [], map[];
    var i := 0;
    while i < |objects|
      invariant 0 <= i <= |objects|
      invariant kept == Movable(scene.tree, scene.rank, objects[..i], newParent)
      invariant parents.Keys == Members(kept)
      invariant forall o :: o in parents ==> ParentOf(scene.tree, o) == Some(parents[o]) && !parents[o].kind.Bare?
    {
      var obj := objects[i];
      assert objects[..i + 1][..i] == objects[..i];
      var parent := scene.Parent(obj);
      if parent.Some? {
        var allChildren := scene.Traverse(obj);
        scene.TraverseSubtree(obj, newParent);
        if newParent !in allChildren {
          parents := parents[obj := parent.value];
          kept := kept + [obj];
        }
      }
      i := i + 1;
    }
    assert objects[..i] == objects;
    forall o | o in kept
      ensures o in scene.rank && CanMove(scene.tree, scene.rank, o, newParent)
    {
      MovableExactly(scene.tree, scene.rank, objects, newParent, o);
    }
  }

  /** Attaching `o` back to `p` when `p` is ranked above it. */
  method AttachBack(editor: Editor, o: EObject, p: EObject, ghost order: map<EObject, nat>)
    requires editor.Valid() && Descends(editor.scene.tree, order)
    requires o in editor.scene.tree.children && p in editor.scene.tree.children && !p.kind.Bare?
    requires o in order && p in order && order[p] < order[o]
    modifies editor.scene
    ensures editor.scene.tree == AttachEach(old(editor.scene.tree), [o], p)
    ensures editor.scene.tree.children.Keys == old(editor.scene.tree.children.Keys)
    ensures editor.Valid() && Descends(editor.scene.tree, order)
  {
    DescendsNotAbove(editor.scene.tree, editor.scene.rank, order, o, p);
    AttachEachDescends(editor.scene.tree, order, [o], p);
    editor.Attach([o], p);
  }

  /** `undo` as a value: each object in turn goes back below its recorded parent. */
  function Reattached(t: Tree<EObject>, objs: seq<EObject>, m: map<EObject, EObject>): Tree<EObject>
    decreases |objs|
  {
    if objs == [] then t
    else
      var t1 := if objs[0] in m then AttachEach(t, [objs[0]], m[objs[0]]) else t;
      Reattached(t1, objs[1..], m)
  }

  /** After `undo` each listed object with a recorded parent has it, and every other node keeps its parent. */
  lemma {:induction false} ReattachedParents(t: Tree<EObject>, objs: seq<EObject>, m: map<EObject, EObject>, x: EObject)
    ensures ParentOf(Reattached(t, objs, m), x) == if x in objs && x in m then Some(m[x]) else ParentOf(t, x)
    decreases |objs|
  {
    if objs != [] {
      var t1 := if objs[0] in m then AttachEach(t, [objs[0]], m[objs[0]]) else t;
      ReattachedParents(t1, objs[1..], m, x);
      if objs[0] in m {
        AttachEachParents(t, [objs[0]], m[objs[0]], x);
      }
      assert x in objs <==> x == objs[0] || x in objs[1..];
    }
  }

  /** Reattaching keeps the set of nodes. */
  lemma {:induction false} ReattachedKeys(t: Tree<EObject>, objs: seq<EObject>, m: map<EObject, EObject>)
    ensures Reattached(t, objs, m).children.Keys == t.children.Keys
    decreases |objs|
  {
    if objs != [] {
      var t1 := if objs[0] in m then AttachEach(t, [objs[0]], m[objs[0]]) else t;
      if objs[0] in m {
        AttachEachKeys(t, [objs[0]], m[objs[0]]);
      }
      ReattachedKeys(t1, objs[1..], m);
    }
  }

  /**
   * `do` then `undo`, from the scene the command was built on, gives every
   * node its parent back (a moved object ends last among its parent's
   * children).
   */
  lemma SetParentUndone(t: Tree<EObject>, objs: seq<EObject>, n: EObject, m: map<EObject, EObject>, x: EObject)
    requires forall o :: o in objs ==> o in m && ParentOf(t, o) == Some(m[o])
    ensures ParentOf(Reattached(AttachEach(t, objs, n), objs, m), x) == ParentOf(t, x)
  {
    ReattachedParents(AttachEach(t, objs, n), objs, m, x);
    AttachEachParents(t, objs, n, x);
  }

  class SetParentCommand {
    const name: string := "SetParentCommand"
    const isUndoable: bool := true
    const editor: Editor
    const newParent: EObject
    const objects: seq<EObject>
    const oldParentMap: map<EObject, EObject>
    /** The scene graph the command was built on. */
    ghost const before: Tree<EObject>
    /** A ranking fixed at construction in which the new and the old parents are above the objects. */
    ghost const order: map<EObject, nat>

    /** What the constructor establishes about its records and the ghost order. */
    ghost predicate Valid() {
      && Descends(before, order) && newParent in order && !newParent.kind.Bare?
      && oldParentMap.Keys == Members(objects)
      && forall o :: o in oldParentMap ==>
           && ParentOf(before, o) == Some(oldParentMap[o]) && !oldParentMap[o].kind.Bare?
           && o in order && oldParentMap[o] in order
           && order[newParent] < order[o] && order[oldParentMap[o]] < order[o]
    }

    /** The scene can take `do` or `undo`: its links go down in the ghost order and the objects are in it. */
    ghost predicate Ready()
      reads editor.scene
    {
      && Valid() && Descends(editor.scene.tree, order)
      && newParent in editor.scene.tree.children
      && forall o :: o in oldParentMap ==> o in editor.scene.tree.children && oldParentMap[o] in editor.scene.tree.children
    }

    /**
     * Keeps, in order, the listed objects that have an EObject parent and
     * whose traversal does not reach the new parent, with that parent.
     */
    constructor (editor: Editor, newParent: EObject, objects: seq<EObject>)
      requires editor.scene.Valid() && !newParent.kind.Bare?
      requires forall o :: o in objects ==> o in editor.scene.tree.children && !o.kind.Bare?
      requires newParent in editor.scene.tree.children || Isolated(editor.scene.tree, newParent)
      ensures this.editor == editor && this.newParent == newParent && before == editor.scene.tree
      ensures this.objects == Movable(editor.scene.tree, editor.scene.rank, objects, newParent)
      ensures forall o :: o in oldParentMap <==> o in this.objects
      ensures forall o :: o in oldParentMap ==> ParentOf(editor.scene.tree, o) == Some(oldParentMap[o])
      ensures order == Lift(editor.scene.tree, editor.scene.rank, editor.scene.bound, this.objects, newParent)
      ensures Valid()
      ensures newParent in editor.scene.tree.children ==> Ready()
    {
      var kept, parents := Keep(editor.scene, objects, newParent);
      LiftOrders(editor.scene.tree, editor.scene.rank, editor.scene.bound, kept, newParent);
      this.editor := editor;
      this.newParent := newParent;
      this.objects := kept;
      this.oldParentMap := parents;
      this.before := editor.scene.tree;
      this.order := Lift(editor.scene.tree, editor.scene.rank, editor.scene.bound, kept, newParent);
    }

    /** `do`: the objects are attached to the new parent, in order. */
    method Do()
      requires editor.Valid() && Ready()
      modifies editor.scene
      ensures editor.scene.tree == AttachEach(old(editor.scene.tree), objects, newParent)
      ensures editor.Valid() && Ready()
    {
      var scene := editor.scene;
      forall o | o in objects
        ensures o in scene.tree.children && !Above(scene.tree, scene.rank, o, newParent)
      {
        assert o in oldParentMap;
        DescendsNotAbove(scene.tree, scene.rank, order, o, newParent);
      }
      AttachEachDescends(scene.tree, order, objects, newParent);
      editor.Attach(objects, newParent);
    }

    /** `undo`: each object in turn is attached back to its recorded parent. */
    method Undo()
      requires editor.Valid() && Ready()
      modifies editor.scene
      ensures editor.scene.tree == Reattached(old(editor.scene.tree), objects, oldParentMap)
      ensures editor.Valid() && Ready()
    {
      var i := 0;
      while i < |objects|
        invariant 0 <= i <= |objects|
        invariant editor.Valid() && Ready()
        invariant Reattached(editor.scene.tree, objects[i..], oldParentMap) == Reattached(old(editor.scene.tree), objects, oldParentMap)
      {
        var obj := objects[i];
        assert objects[i..][0] == obj && objects[i..][1..] == objects[i + 1..];
        if obj in oldParentMap {
          var oldParent := oldParentMap[obj];
          AttachBack(editor, obj, oldParent, order);
        }
        i := i + 1;
      }
    }
  }
}
