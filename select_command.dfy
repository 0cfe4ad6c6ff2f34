/**
 * `SelectCommand`: the constructor copies the objects to select and takes a
 * snapshot of the editor's selection; `do` either toggles the objects (in
 * multi-selection mode) or replaces the snapshot by them, and `undo`
 * unselects them and selects the snapshot again. The history knows a
 * command only as a `Cmd` value (its identity, name and undoability).
 */
module Selection {
  import opened Wrappers
  import opened Seqs
  import opened Augments
  import opened Trees
  import opened SceneObjects
  import opened SceneGraph
  import opened EditorCore
  import History

  /** The objects of `objs`, in order, that `current` holds (`held`) or lacks (`!held`). */
  function Part(objs: seq<EObject>, current: seq<EObject>, held: bool): seq<EObject>
    decreases |objs|
  {
    if objs == [] then []
    else
      var last := objs[|objs| - 1];
      Part(objs[..|objs| - 1], current, held) + (if (last in current) == held then [last] else [])
  }

  /** `Part` keeps exactly the objects of `objs` whose presence in `current` is `held`. */
  lemma {:induction false} PartMembers(objs: seq<EObject>, current: seq<EObject>, held: bool, x: EObject)
    ensures x in Part(objs, current, held) <==> x in objs && (x in current) == held
    decreases |objs|
  {
    if objs != [] {
      var n := |objs| - 1;
      PartMembers(objs[..n], current, held, x);
      assert objs == objs[..n] + [objs[n]];
    }
  }

  /** The selection after unselecting `off` and then selecting `on`. */
  function Reselect(current: seq<EObject>, off: seq<EObject>, on: seq<EObject>): seq<EObject> {
    AddNew(Without(current, Members(off)), on)
  }

  /** What the multi-selection `do` makes of `current`. */
  function Toggled(current: seq<EObject>, objs: seq<EObject>): seq<EObject> {
    Reselect(current, Part(objs, current, true), Part(objs, current, false))
  }

  /**
   * Toggling leaves selected exactly the objects that are either selected
   * or given, and not both, and repeats none.
   */
  lemma ToggleIsSymmetricDifference(current: seq<EObject>, objs: seq<EObject>)
    ensures forall x :: x in Toggled(current, objs) <==> (x in current <==> x !in objs)
    ensures NoDup(current) ==> NoDup(Toggled(current, objs))
  {
    var off, on := Part(objs, current, true), Part(objs, current, false);
    var kept := Without(current, Members(off));
    WithoutFacts(current, Members(off));
    AddNewFacts(kept, on);
    forall x
      ensures x in Toggled(current, objs) <==> (x in current <==> x !in objs)
    {
      PartMembers(objs, current, true, x);
      PartMembers(objs, current, false, x);
    }
    if NoDup(current) {
      WithoutNoDup(current, Members(off));
    }
  }

  /** Unselecting everything selected leaves nothing before the new objects: the result is them, deduplicated. */
  lemma ReselectAll(current: seq<EObject>, objs: seq<EObject>)
    ensures Reselect(current, current, objs) == Dedup(objs)
  {
    WithoutCovered(current, current);
  }

  /**
   * Replace mode then `undo`, from the selection the command saw: a
   * duplicate-free selection comes back exactly, order included.
   */
  lemma ReplaceUndone(current: seq<EObject>, objs: seq<EObject>)
    requires NoDup(current)
    ensures Reselect(Reselect(current, current, objs), objs, current) == current
  {
    ReselectAll(current, objs);
    var d := Dedup(objs);
    DedupMembers(objs);
    WithoutCovered(d, objs);
    AddNewNoDup(current);
  }

  /** Multi-selection mode then `undo`: the same objects are selected again, in possibly another order. */
  lemma ToggleUndone(current: seq<EObject>, objs: seq<EObject>)
    ensures forall x :: x in Reselect(Toggled(current, objs), objs, current) <==> x in current
  {
    ToggleIsSymmetricDifference(current, objs);
    var t := Toggled(current, objs);
    WithoutFacts(t, Members(objs));
    AddNewFacts(Without(t, Members(objs)), current);
  }

  /**
   * The loop of the multi-selection `do`: the given objects, in order,
   * split into those the selection lacks and those it holds.
   */
  method Split(objs: seq<EObject>, current: JsArray<EObject>) returns (selectedObjects: seq<EObject>, unselectedObjects: seq<EObject>)
    ensures selectedObjects == Part(objs, current.elems, false)
    ensures unselectedObjects == Part(objs, current.elems, true)
  {
    selectedObjects, unselectedObjects := [], [];
    var i := 0;
    while i < |objs|
      invariant 0 <= i <= |objs|
      invariant selectedObjects == Part(objs[..i], current.elems, false)
      invariant unselectedObjects == Part(objs[..i], current.elems, true)
    {
      assert objs[..i + 1][..i] == objs[..i];
      if current.Includes(objs[i]) {
        unselectedObjects := unselectedObjects + [objs[i]];
      } else {
        selectedObjects := selectedObjects + [objs[i]];
      }
      i := i + 1;
    }
    assert objs[..i] == objs;
  }

  /**
   * The multi-selection `do`: the given objects that are selected are
   * unselected, then the others are selected. Each given object's flag ends
   * up telling whether it is now selected; each temporary anchor among the
   * unselected ones gives up its chain, which the IK manager drops.
   */
  method Toggle(editor: Editor, objects: seq<EObject>)
    requires editor.Valid()
    modifies editor.selectedObjects, objects`isSelected, ListedAnchors(objects)`chain, editor.ik`chains, editor.ik.g`ik
    ensures editor.selectedObjects.elems == Toggled(old(editor.selectedObjects.elems), objects)
    ensures forall o :: o in objects ==> o.isSelected == (o !in old(editor.selectedObjects.elems))
    ensures forall a :: a in ListedAnchors(objects) ==>
      a.chain == if a in ListedAnchors(Part(objects, old(editor.selectedObjects.elems), true)) && a.temporary then None else old(a.chain)
    ensures editor.ik.chains == Without(old(editor.ik.chains), old(TemporaryChains(Part(objects, editor.selectedObjects.elems, true))))
    ensures editor.ik.g.Listed() == old(editor.ik.g.Listed()) -
      set c | c in old(editor.ik.chains) && c in old(TemporaryChains(Part(objects, editor.selectedObjects.elems, true)))
    ensures editor.Valid() && unchanged(editor.scene)
  {
    ghost var current := editor.selectedObjects.elems;
    var selectedObjects, unselectedObjects := Split(objects, editor.selectedObjects);
    ListedAnchorsPart(objects, current, true, unselectedObjects);
    ListedAnchorsPart(objects, current, false, selectedObjects);
    Replace(editor, unselectedObjects, selectedObjects);
    forall o | o in objects
      ensures o.isSelected == (o !in current)
    {
      PartMembers(objects, current, false, o);
      PartMembers(objects, current, true, o);
      WithoutFacts(current, Members(unselectedObjects));
    }
  }

  /**
   * The replace-mode `do` and the `undo`: `off` is unselected, then `on`
   * selected. Every object of `on` ends up selected, with its flag left as
   * it was when it stayed selected throughout; every other object of `off`
   * that was selected is now unselected; each temporary anchor of `off`
   * gives up its chain, which the IK manager drops.
   */
  method Replace(editor: Editor, off: seq<EObject>, on: seq<EObject>)
    requires editor.Valid()
    modifies editor.selectedObjects, off`isSelected, on`isSelected, ListedAnchors(off)`chain, editor.ik`chains, editor.ik.g`ik
    ensures editor.selectedObjects.elems == Reselect(old(editor.selectedObjects.elems), off, on)
    ensures forall o :: o in on ==>
      o.isSelected == (if o in Without(old(editor.selectedObjects.elems), Members(off)) then old(o.isSelected) else true)
    ensures forall o :: o in off && o !in on ==>
      o.isSelected == (if o in old(editor.selectedObjects.elems) then false else old(o.isSelected))
    ensures forall a :: a in ListedAnchors(off) ==> a.chain == if a.temporary then None else old(a.chain)
    ensures editor.ik.chains == Without(old(editor.ik.chains), old(TemporaryChains(off)))
    ensures editor.ik.g.Listed() == old(editor.ik.g.Listed()) -
      set c | c in old(editor.ik.chains) && c in old(TemporaryChains(off))
    ensures editor.Valid() && unchanged(editor.scene)
  {
    ghost var current := editor.selectedObjects.elems;
    var _ := editor.UnselectObjects(off);
    WithoutFacts(current, Members(off));
    var _ := editor.SelectObjects(on);
  }

  /** The anchors among a part of a list are among the list's anchors. */
  lemma ListedAnchorsPart(objs: seq<EObject>, current: seq<EObject>, held: bool, part: seq<EObject>)
    requires part == Part(objs, current, held)
    ensures forall i :: 0 <= i < |part| ==> part[i] in objs
    ensures ListedAnchors(part) <= ListedAnchors(objs)
  {
    forall o | o in part
      ensures o in objs
    {
      PartMembers(objs, current, held, o);
    }
  }

  /**
   * `SelectCommand`: keeps a copy of the objects to select and a snapshot
   * of the editor's selection taken at construction. It is not undoable.
   */
  class SelectCommand {
    const name: string := "SelectCommand"
    const isUndoable: bool := false
    const editor: Editor
    const multipleSelectionActive: bool
    const selection: seq<EObject>
    const lastSelection: seq<EObject>

    constructor (editor: Editor, selection: seq<EObject>, multipleSelectionActive: bool)
      ensures this.editor == editor && this.selection == selection
      ensures this.multipleSelectionActive == multipleSelectionActive
      ensures lastSelection == editor.selectedObjects.elems
    {
      this.editor := editor;
      this.selection := selection;
      this.multipleSelectionActive := multipleSelectionActive;
      this.lastSelection := editor.selectedObjects.elems;
    }

    /**
     * The objects `do` unselects from the selection `current`: in
     * multi-selection mode the given objects it holds, otherwise the snapshot.
     */
    function Unselects(current: seq<EObject>): seq<EObject> {
      if multipleSelectionActive then Part(selection, current, true) else lastSelection
    }

    /**
     * In multi-selection mode the given objects that are selected are
     * unselected and the others selected; otherwise the snapshot is
     * unselected and the given objects selected. The flag of every object
     * selected ends up true, that of every object unselected false; each
     * unselected temporary anchor gives up its chain, which the IK manager
     * drops.
     */
    method Do()
      requires editor.Valid()
      modifies editor.selectedObjects, selection`isSelected, lastSelection`isSelected
      modifies ListedAnchors(selection)`chain, ListedAnchors(lastSelection)`chain, editor.ik`chains, editor.ik.g`ik
      ensures editor.selectedObjects.elems ==
        if multipleSelectionActive then Toggled(old(editor.selectedObjects.elems), selection)
        else Reselect(old(editor.selectedObjects.elems), lastSelection, selection)
      ensures multipleSelectionActive ==>
        forall o :: o in selection ==> o.isSelected == (o !in old(editor.selectedObjects.elems))
      ensures multipleSelectionActive ==>
        forall a :: a in ListedAnchors(selection) ==>
          a.chain == if a in ListedAnchors(Part(selection, old(editor.selectedObjects.elems), true)) && a.temporary then None else old(a.chain)
      ensures multipleSelectionActive ==>
        forall o :: o in lastSelection && o !in selection ==> o.isSelected == old(o.isSelected)
      ensures multipleSelectionActive ==>
        forall a :: a in ListedAnchors(lastSelection) && a !in ListedAnchors(selection) ==> a.chain == old(a.chain)
      ensures !multipleSelectionActive ==>
        forall a :: a in ListedAnchors(selection) && a !in ListedAnchors(lastSelection) ==> a.chain == old(a.chain)
      ensures !multipleSelectionActive ==>
        forall o :: o in selection ==>
          o.isSelected == (if o in Without(old(editor.selectedObjects.elems), Members(lastSelection)) then old(o.isSelected) else true)
      ensures !multipleSelectionActive ==>
        forall o :: o in lastSelection && o !in selection ==>
          o.isSelected == (if o in old(editor.selectedObjects.elems) then false else old(o.isSelected))
      ensures !multipleSelectionActive ==>
        forall a :: a in ListedAnchors(lastSelection) ==> a.chain == if a.temporary then None else old(a.chain)
      ensures editor.ik.chains == Without(old(editor.ik.chains), old(TemporaryChains(Unselects(editor.selectedObjects.elems))))
      ensures editor.ik.g.Listed() == old(editor.ik.g.Listed()) -
        set c | c in old(editor.ik.chains) && c in old(TemporaryChains(Unselects(editor.selectedObjects.elems)))
      ensures editor.Valid() && unchanged(editor.scene)
    {
      if multipleSelectionActive {
        Toggle(editor, selection);
      } else {
        Replace(editor, lastSelection, selection);
      }
    }

    /**
     * The given objects are unselected and the snapshot selected again,
     * with the same effect on flags and chains as in `do`.
     */
    method Undo()
      requires editor.Valid()
      modifies editor.selectedObjects, selection`isSelected, lastSelection`isSelected
      modifies ListedAnchors(selection)`chain, editor.ik`chains, editor.ik.g`ik
      ensures editor.selectedObjects.elems == Reselect(old(editor.selectedObjects.elems), selection, lastSelection)
      ensures forall o :: o in lastSelection ==>
        o.isSelected == (if o in Without(old(editor.selectedObjects.elems), Members(selection)) then old(o.isSelected) else true)
      ensures forall o :: o in selection && o !in lastSelection ==>
        o.isSelected == (if o in old(editor.selectedObjects.elems) then false else old(o.isSelected))
      ensures forall a :: a in ListedAnchors(selection) ==> a.chain == if a.temporary then None else old(a.chain)
      ensures editor.ik.chains == Without(old(editor.ik.chains), old(TemporaryChains(selection)))
      ensures editor.ik.g.Listed() == old(editor.ik.g.Listed()) -
        set c | c in old(editor.ik.chains) && c in old(TemporaryChains(selection))
      ensures editor.Valid() && unchanged(editor.scene)
    {
      Replace(editor, selection, lastSelection);
    }
  }

  /** A command that is not undoable runs without touching either history stack. */
  lemma SelectLeavesHistory(c: SelectCommand, h: History.Histories, id: nat)
    ensures History.Executed(h, History.Cmd(id, c.name, c.isUndoable)) == h
    ensures History.ExecuteCalls(h, History.Cmd(id, c.name, c.isUndoable)) == [History.DoCall(History.Cmd(id, c.name, c.isUndoable))]
  {
    History.ExecuteCleansRedo(h, History.Cmd(id, c.name, c.isUndoable));
  }
}
