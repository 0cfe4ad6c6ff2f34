/**
 * `DeleteObjectsCommand`: the constructor records, for each object that
 * has an EObject parent, that parent and its EObject children; `do` runs the
 * editor's `remove` and `undo` puts each recorded object back, with its
 * children first unless they went with it.
 *
 * As for `SetParentCommand`, a ghost `order` fixed at construction (the
 * scene's own ranks then) keeps `undo` clear of cycles: every recorded
 * parent is ranked above its object and every object above its recorded
 * children, and neither `remove` nor `undo` adds a link that goes up.
 */
module Deletion {
  import opened Wrappers
  import opened Seqs
  import opened Trees
  import opened SceneObjects
  import opened SceneGraph
  import opened EditorCore
  import Augments

  /** `undo` of one object: unless they went with it, its children come back below it; then it goes back below its parent. */
  function RestoreOne(t: Tree<EObject>, o: EObject, parents: map<EObject, EObject>, children: map<EObject, seq<EObject>>,
                      removeChildren: bool): Tree<EObject>
  {
    if o in parents then
      var t1 := if !removeChildren && o in children then AttachEach(t, children[o], o) else t;
      AttachEach(t1, [o], parents[o])
    else t
  }

  /** `undo` as a value: the objects in list order. */
  function RestoreEach(t: Tree<EObject>, objs: seq<EObject>, parents: map<EObject, EObject>, children: map<EObject, seq<EObject>>,
                       removeChildren: bool): Tree<EObject>
    decreases |objs|
  {
    if objs == [] then t
    else RestoreEach(RestoreOne(t, objs[0], parents, children, removeChildren), objs[1..], parents, children, removeChildren)
  }

  /** `undo` moves `x`: it is a recorded object, or a recorded child of one while children stay behind. */
  ghost predicate Touched(objs: seq<EObject>, parents: map<EObject, EObject>, children: map<EObject, seq<EObject>>,
                          removeChildren: bool, x: EObject)
  {
    exists o :: o in objs && o in parents && (x == o || (!removeChildren && o in children && x in children[o]))
  }

  /** The records agree with `t0`: each recorded parent is the object's parent there, each recorded child a child. */
  ghost predicate RecordsOf(t0: Tree<EObject>, parents: map<EObject, EObject>, children: map<EObject, seq<EObject>>) {
    && (forall o :: o in parents ==> ParentOf(t0, o) == Some(parents[o]))
    && (forall o, c :: o in children && c in children[o] ==> ParentOf(t0, c) == Some(o))
  }

  /**
   * After `undo`, every node it moves has its parent from the scene the
   * records were taken on, and every other node keeps its parent.
   */
  lemma {:induction false} RestoredParents(t: Tree<EObject>, t0: Tree<EObject>, objs: seq<EObject>, parents: map<EObject, EObject>,
                                           children: map<EObject, seq<EObject>>, removeChildren: bool, x: EObject)
    requires RecordsOf(t0, parents, children)
    ensures ParentOf(RestoreEach(t, objs, parents, children, removeChildren), x) ==
      if Touched(objs, parents, children, removeChildren, x) then ParentOf(t0, x) else ParentOf(t, x)
    decreases |objs|
  {
    if objs != [] {
      var o := objs[0];
      var t1 := RestoreOne(t, o, parents, children, removeChildren);
      RestoredParents(t1, t0, objs[1..], parents, children, removeChildren, x);
      if o in parents {
        var t2 := if !removeChildren && o in children then AttachEach(t, children[o], o) else t;
        AttachEachParents(t2, [o], parents[o], x);
        if !removeChildren && o in children {
          AttachEachParents(t, children[o], o, x);
        }
      }
      if Touched(objs[1..], parents, children, removeChildren, x) {
        var w :| w in objs[1..] && w in parents && (x == w || (!removeChildren && w in children && x in children[w]));
        assert w in objs;
      } else if Touched(objs, parents, children, removeChildren, x) {
        var w :| w in objs && w in parents && (x == w || (!removeChildren && w in children && x in children[w]));
        assert w == o;
      }
    }
  }

  /**
   * `do` then `undo`, from the scene the command was built on, gives every
   * node its parent back: a node `undo` leaves alone is one `remove` left
   * alone too.
   */
  lemma DeleteUndone(t0: Tree<EObject>, rank: map<EObject, nat>, t1: Tree<EObject>, objs: seq<EObject>, parents: map<EObject, EObject>,
                     children: map<EObject, seq<EObject>>, removeChildren: bool, x: EObject)
    requires Ranked(t0, rank) && x in t0.children
    requires forall o :: o in parents <==> o in objs && ParentOf(t0, o).Some?
    requires forall o :: o in parents ==> ParentOf(t0, o) == Some(parents[o]) && o in children && children[o] == Carriers(Kids(t0, o))
    requires children.Keys == parents.Keys
    requires RemovedFrom(t1, t0, Members(objs), removeChildren)
    ensures ParentOf(RestoreEach(t1, objs, parents, children, removeChildren), x) == ParentOf(t0, x)
  {
    forall o, c | o in children && c in children[o]
      ensures ParentOf(t0, c) == Some(o)
    {
      if o in parents {
        assert c in Kids(t0, o);
        ChildParent(t0, rank, o, c);
      }
    }
    RestoredParents(t1, t0, objs, parents, children, removeChildren, x);
    if x in t0.parent && t0.parent[x] in parents && !x.kind.Bare? {
      KidRecorded(t0, rank, t0.parent[x], x);
    }
  }

  /** A child that carries an EObject is among the children `Carriers` records. */
  lemma KidRecorded(t: Tree<EObject>, rank: map<EObject, nat>, q: EObject, x: EObject)
    requires Ranked(t, rank) && ParentOf(t, x) == Some(q) && !x.kind.Bare?
    ensures x in Carriers(Kids(t, q))
  {
    assert UpLinked(t, rank, x);
    var i := Augments.FirstIndex(t.children[q], x);
    assert Kids(t, q)[i] == x;
  }

  /** `undo` of one object, as `RestoreOne` says. */
  method RestoreStep(editor: Editor, o: EObject, parent: EObject, kids: seq<EObject>, withKids: bool, ghost order: map<EObject, nat>)
    requires editor.Valid() && Descends(editor.scene.tree, order)
    requires o in editor.scene.tree.children && !o.kind.Bare? && parent in editor.scene.tree.children && !parent.kind.Bare?
    requires o in order && parent in order && order[parent] < order[o]
    requires withKids ==> forall c :: c in kids ==> c in editor.scene.tree.children && c in order && order[o] < order[c]
    modifies editor.scene
    ensures editor.scene.tree == AttachEach(if withKids then AttachEach(old(editor.scene.tree), kids, o) else old(editor.scene.tree), [o], parent)
    ensures editor.scene.tree.children.Keys == old(editor.scene.tree.children.Keys)
    ensures editor.Valid() && Descends(editor.scene.tree, order)
  {
    if withKids {
      forall c | c in kids
        ensures c in editor.scene.tree.children && !Above(editor.scene.tree, editor.scene.rank, c, o)
      {
        DescendsNotAbove(editor.scene.tree, editor.scene.rank, order, c, o);
      }
      AttachEachDescends(editor.scene.tree, order, kids, o);
      editor.Attach(kids, o);
    }
    DescendsNotAbove(editor.scene.tree, editor.scene.rank, order, o, parent);
    AttachEachDescends(editor.scene.tree, order, [o], parent);
    editor.Attach([o], parent);
  }

  /**
   * The loop of the constructor: for each object with an EObject parent,
   * that parent and its EObject children.
   */
  method Record(scene: Scene, objects: seq<EObject>) returns (parents: map<EObject, EObject>, children: map<EObject, seq<EObject>>)
    requires scene.Valid() && forall o :: o in objects ==> o in scene.tree.children && !o.kind.Bare?
    ensures forall o :: o in parents <==> o in objects && ParentOf(scene.tree, o).Some?
    ensures forall o :: o in parents ==> ParentOf(scene.tree, o) == Some(parents[o]) && !parents[o].kind.Bare?
    ensures forall o :: o in parents ==> o in children && children[o] == Carriers(Kids(scene.tree, o))
    ensures children.Keys == parents.Keys
  {
    parents, children := map[], map[];
    var i := 0;
    while i < |objects|
      invariant 0 <= i <= |objects|
      invariant forall o :: o in parents <==> o in objects[..i] && ParentOf(scene.tree, o).Some?
      invariant forall o :: o in parents ==> ParentOf(scene.tree, o) == Some(parents[o]) && !parents[o].kind.Bare?
      invariant forall o :: o in parents ==> o in children && children[o] == Carriers(Kids(scene.tree, o))
      invariant children.Keys == parents.Keys
    {
      var obj := objects[i];
      assert objects[..i + 1] == objects[..i] + [obj];
      var parent := scene.Parent(obj);
      if parent.Some? {
        parents := parents[obj := parent.value];
        children := children[obj := scene.Children(obj)];
      }
      i := i + 1;
    }
    assert objects[..i] == objects;
  }

  /**
   * Records taken on `t` with ranks `order`: each recorded parent is ranked
   * above its object, and each object above its recorded children.
   */
  ghost predicate Recorded(t: Tree<EObject>, order: map<EObject, nat>, objects: seq<EObject>,
                           parents: map<EObject, EObject>, children: map<EObject, seq<EObject>>)
  {
    && Descends(t, order)
    && (forall o :: o in objects ==> o in order && !o.kind.Bare?)
    && children.Keys == parents.Keys
    && RecordsOf(t, parents, children)
    && (forall o :: o in parents ==>
          o in objects && !parents[o].kind.Bare? && o in order && parents[o] in order && order[parents[o]] < order[o])
    && (forall o, c :: o in children && c in children[o] ==> c in order && order[o] < order[c])
  }

  /** What the constructor's records give, on the graph they were taken from and its ranks. */
  lemma RecordsRanked(t: Tree<EObject>, rank: map<EObject, nat>, objects: seq<EObject>,
                      parents: map<EObject, EObject>, children: map<EObject, seq<EObject>>)
    requires Ranked(t, rank) && forall o :: o in objects ==> o in t.children && !o.kind.Bare?
    requires forall o :: o in parents <==> o in objects && ParentOf(t, o).Some?
    requires forall o :: o in parents ==> ParentOf(t, o) == Some(parents[o]) && !parents[o].kind.Bare?
    requires forall o :: o in parents ==> o in children && children[o] == Carriers(Kids(t, o))
    requires children.Keys == parents.Keys
    ensures Recorded(t, rank, objects, parents, children) && rank.Keys == t.children.Keys
  {
    RankedClosed(t, rank);
    forall o, c | o in children && c in children[o]
      ensures ParentOf(t, c) == Some(o) && c in rank && rank[o] < rank[c]
    {
      assert c in Kids(t, o);
      ChildParent(t, rank, o, c);
      assert UpLinked(t, rank, c);
    }
    forall o | o in parents
      ensures o in rank && parents[o] in rank && rank[parents[o]] < rank[o]
    {
      assert UpLinked(t, rank, o);
    }
  }

  /** What one turn of `undo` needs from the records, on a graph that holds every ranked node. */
  lemma RecordedStep(t0: Tree<EObject>, t: Tree<EObject>, order: map<EObject, nat>, objects: seq<EObject>,
                     parents: map<EObject, EObject>, children: map<EObject, seq<EObject>>, o: EObject)
    requires Recorded(t0, order, objects, parents, children) && order.Keys <= t.children.Keys && o in parents
    ensures o in t.children && !o.kind.Bare? && parents[o] in t.children && !parents[o].kind.Bare?
    ensures o in order && parents[o] in order && order[parents[o]] < order[o] && o in children
    ensures forall c :: c in children[o] ==> c in t.children && c in order && order[o] < order[c]
  {
  }

  class DeleteObjectsCommand {
    const name: string := "DeleteObjectsCommand"
    const isUndoable: bool := true
    const editor: Editor
    const objects: seq<EObject>
    const removeChildren: bool
    const oldParentsMap: map<EObject, EObject>
    const oldChildrenMap: map<EObject, seq<EObject>>
    /** The scene graph the command was built on. */
    ghost const before: Tree<EObject>
    /** The scene's ranks at construction. */
    ghost const order: map<EObject, nat>

    /** What the constructor establishes about its records and the ghost order. */
    ghost predicate Valid() {
      Recorded(before, order, objects, oldParentsMap, oldChildrenMap)
    }

    /** The scene can take `do` or `undo`: its links go down in the ghost order and it holds every node ranked there. */
    ghost predicate Ready()
      reads editor.scene
    {
      Valid() && Descends(editor.scene.tree, order) && order.Keys <= editor.scene.tree.children.Keys
    }

    constructor (editor: Editor, objects: seq<EObject>, removeChildren: bool)
      requires editor.Valid() && forall o :: o in objects ==> o in editor.scene.tree.children && !o.kind.Bare?
      ensures this.editor == editor && this.objects == objects && this.removeChildren == removeChildren
      ensures before == editor.scene.tree && order == editor.scene.rank
      ensures forall o :: o in oldParentsMap <==> o in objects && ParentOf(before, o).Some?
      ensures forall o :: o in oldParentsMap ==> ParentOf(before, o) == Some(oldParentsMap[o])
      ensures forall o :: o in oldParentsMap ==> o in oldChildrenMap && oldChildrenMap[o] == Carriers(Kids(before, o))
      ensures Ready()
    {
      var scene := editor.scene;
      var parents, children := Record(scene, objects);
      RecordsRanked(scene.tree, scene.rank, objects, parents, children);
      this.editor := editor;
      this.objects := objects;
      this.removeChildren := removeChildren;
      this.oldParentsMap := parents;
      this.oldChildrenMap := children;
      this.before := scene.tree;
      this.order := scene.rank;
    }

    /** `do`: the editor's `remove` of the objects. */
    method Do()
      requires editor.Valid() && Ready()
      modifies editor.scene
      ensures editor.scene.tree == RemoveEach(old(editor.scene.tree), objects, removeChildren)
      ensures RemovedFrom(editor.scene.tree, old(editor.scene.tree), Members(objects), removeChildren)
      ensures editor.Valid() && Ready()
    {
      editor.Remove(objects, removeChildren, order);
    }

    /**
     * `undo`: each recorded object in turn gets its recorded children back
     * unless they went with it, then goes back below its recorded parent.
     */
    method Undo()
      requires editor.Valid() && Ready()
      modifies editor.scene
      ensures editor.scene.tree == RestoreEach(old(editor.scene.tree), objects, oldParentsMap, oldChildrenMap, removeChildren)
      ensures editor.Valid() && Ready()
    {
      var i := 0;
      while i < |objects|
        invariant 0 <= i <= |objects|
        invariant editor.Valid() && Ready()
        invariant RestoreEach(editor.scene.tree, objects[i..], oldParentsMap, oldChildrenMap, removeChildren)
               == RestoreEach(old(editor.scene.tree), objects, oldParentsMap, oldChildrenMap, removeChildren)
      {
        var obj := objects[i];
        assert objects[i..][0] == obj && objects[i..][1..] == objects[i + 1..];
        if obj in oldParentsMap {
          RecordedStep(before, editor.scene.tree, order, objects, oldParentsMap, oldChildrenMap, obj);
          RestoreStep(editor, obj, oldParentsMap[obj], oldChildrenMap[obj], !removeChildren, order);
        }
        i := i + 1;
      }
    }
  }
}
