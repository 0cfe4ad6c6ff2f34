/**
 * `AddObjectsCommand`: `do` adds the objects below a parent (the scene
 * root unless one is given) and `undo` removes them with their children.
 * three.js `add` and `attach` differ only in the world transform they keep,
 * so on the scene graph `do` is the editor's `attach`.
 */
module Addition {
  import opened Wrappers
  import opened Trees
  import opened SceneObjects
  import opened SceneGraph
  import opened EditorCore

  /** Removing objects with their children unlinks exactly those objects. */
  lemma {:induction false} DetachedEachParents(t: Tree<EObject>, objs: seq<EObject>, x: EObject)
    ensures ParentOf(RemoveEach(t, objs, true), x) == if x in objs then None else ParentOf(t, x)
    decreases |objs|
  {
    if objs != [] {
      DetachedEachParents(RemoveOne(t, objs[0], true), objs[1..], x);
      DetachParent(t, objs[0], x);
      assert x in objs <==> x == objs[0] || x in objs[1..];
    }
  }

  /** Removing objects with their children keeps every link going down in any ranking it went down in. */
  lemma DetachedEachDescends(t: Tree<EObject>, objs: seq<EObject>, order: map<EObject, nat>)
    requires Descends(t, order)
    ensures Descends(RemoveEach(t, objs, true), order)
  {
    var r := RemoveEach(t, objs, true);
    forall c | c in r.parent
      ensures c in order && r.parent[c] in order && order[r.parent[c]] < order[c]
    {
      DetachedEachParents(t, objs, c);
    }
  }

  /** `do` then `undo`: the added objects end with no parent and every other node keeps the parent it had. */
  lemma AddUndone(t: Tree<EObject>, objs: seq<EObject>, p: EObject, x: EObject)
    ensures ParentOf(RemoveEach(AttachEach(t, objs, p), objs, true), x) == if x in objs then None else ParentOf(t, x)
  {
    DetachedEachParents(AttachEach(t, objs, p), objs, x);
    AttachEachParents(t, objs, p, x);
  }

  class AddObjectsCommand {
    const name: string := "AddObjectsCommand"
    const isUndoable: bool := true
    const editor: Editor
    const objects: seq<EObject>
    const parent: EObject

    /** A single object is passed as the list holding it; with no parent given, the scene root is the parent. */
    constructor (editor: Editor, objects: seq<EObject>, parent: Option<EObject>)
      ensures this.editor == editor && this.objects == objects
      ensures this.parent == if parent.Some? then parent.value else editor.scene.root
    {
      this.editor := editor;
      this.objects := objects;
      this.parent := if parent.Some? then parent.value else editor.scene.root;
    }

    /** `do`: each object not already below the parent moves below it. */
    method Do()
      requires editor.Valid() && parent in editor.scene.tree.children && !parent.kind.Bare?
      requires forall o :: o in objects ==> o in editor.scene.tree.children && !Above(editor.scene.tree, editor.scene.rank, o, parent)
      modifies editor.scene
      ensures editor.scene.tree == AttachEach(old(editor.scene.tree), objects, parent)
      ensures editor.scene.tree.children.Keys == old(editor.scene.tree.children.Keys)
      ensures editor.Valid()
    {
      editor.Attach(objects, parent);
    }

    /** `undo`: the editor's `remove` of the objects, children included. */
    method Undo()
      requires editor.Valid() && forall o :: o in objects ==> o in editor.scene.tree.children && !o.kind.Bare?
      modifies editor.scene
      ensures editor.scene.tree == RemoveEach(old(editor.scene.tree), objects, true)
      ensures editor.scene.tree.children.Keys == old(editor.scene.tree.children.Keys)
      ensures editor.Valid()
    {
      RankedClosed(editor.scene.tree, editor.scene.rank);
      editor.Remove(objects, true, editor.scene.rank);
    }
  }
}
