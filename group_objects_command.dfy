/**
 * `GroupObjectsCommand`: the constructor picks the parent for a new group
 * among the parents of the objects, then builds a command group that adds
 * the group below that parent, moves the objects into the group and selects
 * the group. Given no objects, it builds nothing and its `do` and `undo`
 * do nothing.
 *
 * The parent is meant to be the lowest common parent: of the parents that
 * can receive children and reach the scene root, the one nearest the root.
 * As written, the loop never lowers its `distance` bound, so the last such
 * parent wins; `AsWrittenGroupParent` models that and
 * `AsWrittenPicksGroupedObject` shows it choosing one of the grouped objects
 * itself. The nearest parent (`NearestParent`) is never inside the subtree
 * of a grouped object whose parent qualifies (`NearestOutsideGroup`), but
 * it can be inside the subtree of one whose parent cannot receive children
 * (`ParentInsideGroup`), and `do` would then make a cycle. The command is
 * modelled with `ChosenParent`: the nearest parent when it lies outside
 * every grouped subtree, the scene root otherwise.
 *
 * The command group's `undo` stops before its first command, so `undo`
 * undoes the select and set-parent commands and leaves the group below its
 * parent (`GroupUndoLeavesGroup`); `UndoAll` undoes the add command too.
 */
module Grouping {
  import opened Wrappers
  import opened Seqs
  import opened Trees
  import opened SceneObjects
  import opened SceneGraph
  import opened EditorCore
  import opened Selection
  import opened Reparent
  import opened Addition

  /** `o` has a parent that can receive children and from which the scene root is reached. */
  ghost predicate Qualifies(t: Tree<EObject>, rank: map<EObject, nat>, root: EObject, o: EObject)
    requires Ranked(t, rank)
  {
    o in t.parent && t.parent[o].canReceiveChildren && t.parent[o] in rank && Above(t, rank, root, t.parent[o])
  }

  /** The group parent as the constructor's loop computes it: the parent of the last qualifying object. */
  ghost function AsWrittenGroupParent(t: Tree<EObject>, rank: map<EObject, nat>, root: EObject, objs: seq<EObject>): Option<EObject>
    requires Ranked(t, rank)
    decreases |objs|
  {
    if objs == [] then None
    else
      var last := objs[|objs| - 1];
      if Qualifies(t, rank, root, last) then Some(t.parent[last]) else AsWrittenGroupParent(t, rank, root, objs[..|objs| - 1])
  }

  /**
   * The group parent the loop is meant to compute: the first qualifying
   * parent at the least distance from the root.
   */
  ghost function NearestParent(t: Tree<EObject>, rank: map<EObject, nat>, root: EObject, objs: seq<EObject>): (r: Option<EObject>)
    requires Ranked(t, rank)
    ensures r.Some? ==> r.value in rank && Above(t, rank, root, r.value)
    decreases |objs|
  {
    if objs == [] then None
    else
      var best := NearestParent(t, rank, root, objs[..|objs| - 1]);
      var last := objs[|objs| - 1];
      if Qualifies(t, rank, root, last) && (best.None? || Dist(t, rank, root, t.parent[last]) < Dist(t, rank, root, best.value))
      then Some(t.parent[last])
      else best
  }

  /** `x` lies in the subtree of a grouped object that has a parent, one the set-parent command moves into the group. */
  ghost predicate InGrouped(t: Tree<EObject>, rank: map<EObject, nat>, objs: seq<EObject>, x: EObject)
    requires Ranked(t, rank) && x in rank
  {
    exists o :: o in objs && o in t.parent && Above(t, rank, o, x)
  }

  /**
   * The group parent of the model: the nearest qualifying parent when it
   * lies outside the subtrees of the grouped objects, the scene root
   * otherwise.
   */
  ghost function ChosenParent(t: Tree<EObject>, rank: map<EObject, nat>, root: EObject, objs: seq<EObject>): EObject
    requires Ranked(t, rank)
  {
    var r := NearestParent(t, rank, root, objs);
    if r.Some? && !InGrouped(t, rank, objs, r.value) then r.value else root
  }

  /** As written, the choice is the parent of the last qualifying object, and there is one exactly when an object qualifies. */
  lemma {:induction false} AsWrittenIsLast(t: Tree<EObject>, rank: map<EObject, nat>, root: EObject, objs: seq<EObject>)
    requires Ranked(t, rank)
    ensures var r := AsWrittenGroupParent(t, rank, root, objs);
      && (r.None? <==> forall i :: 0 <= i < |objs| ==> !Qualifies(t, rank, root, objs[i]))
      && (r.Some? ==> exists i :: 0 <= i < |objs| && Qualifies(t, rank, root, objs[i]) && r.value == t.parent[objs[i]]
                                  && forall j :: i < j < |objs| ==> !Qualifies(t, rank, root, objs[j]))
    decreases |objs|
  {
    if objs != [] {
      var k := |objs| - 1;
      var init := objs[..k];
      AsWrittenIsLast(t, rank, root, init);
      if !Qualifies(t, rank, root, objs[k]) {
        var r := AsWrittenGroupParent(t, rank, root, init);
        if r.Some? {
          var i :| 0 <= i < |init| && Qualifies(t, rank, root, init[i]) && r.value == t.parent[init[i]]
                   && forall j :: i < j < |init| ==> !Qualifies(t, rank, root, init[j]);
          assert objs[i] == init[i];
          forall j | i < j < |objs|
            ensures !Qualifies(t, rank, root, objs[j])
          {
            if j < k {
              assert objs[j] == init[j];
            }
          }
        } else {
          forall i | 0 <= i < |objs|
            ensures !Qualifies(t, rank, root, objs[i])
          {
            if i < k {
              assert objs[i] == init[i];
            }
          }
        }
      }
    }
  }

  /**
   * The counterexample: with `a` below the root and `b` below `a`, grouping
   * `[a, b]` as written puts the group below `a`, one of the objects the
   * group is to receive, while the nearest parent is the root. `do` would
   * then attach `a` below a group that is itself below `a`.
   */
  lemma AsWrittenPicksGroupedObject(t: Tree<EObject>, rank: map<EObject, nat>, root: EObject, a: EObject, b: EObject)
    requires Ranked(t, rank) && root in rank
    requires ParentOf(t, a) == Some(root) && ParentOf(t, b) == Some(a)
    requires root.canReceiveChildren && a.canReceiveChildren
    ensures AsWrittenGroupParent(t, rank, root, [a, b]) == Some(a)
    ensures NearestParent(t, rank, root, [a, b]) == Some(root)
  {
    assert UpLinked(t, rank, a) && UpLinked(t, rank, b);
    assert a != root;
    assert Above(t, rank, root, a);
    assert [a, b][..1] == [a];
    assert [a][..0] == [];
    assert Qualifies(t, rank, root, a) && Qualifies(t, rank, root, b);
    assert NearestParent(t, rank, root, [a]) == Some(root);
    assert Dist(t, rank, root, root) == 0;
  }

  /**
   * The nearest parent is the parent of a qualifying object, there is one
   * exactly when an object qualifies, and no qualifying parent is nearer
   * the root.
   */
  lemma {:induction false} NearestIsNearest(t: Tree<EObject>, rank: map<EObject, nat>, root: EObject, objs: seq<EObject>)
    requires Ranked(t, rank)
    ensures var r := NearestParent(t, rank, root, objs);
      && (r.None? <==> forall o :: o in objs ==> !Qualifies(t, rank, root, o))
      && (r.Some? ==> exists o :: o in objs && Qualifies(t, rank, root, o) && t.parent[o] == r.value)
      && (r.Some? ==> forall o :: o in objs && Qualifies(t, rank, root, o) ==>
                        Dist(t, rank, root, r.value) <= Dist(t, rank, root, t.parent[o]))
    decreases |objs|
  {
    if objs != [] {
      var k := |objs| - 1;
      var init := objs[..k];
      NearestIsNearest(t, rank, root, init);
      assert objs == init + [objs[k]];
      var best := NearestParent(t, rank, root, init);
      if best.Some? {
        var w :| w in init && Qualifies(t, rank, root, w) && t.parent[w] == best.value;
        assert w in objs;
      }
    }
  }

  /** The nearest parent never lies in the subtree of a grouped object whose parent qualifies. */
  lemma NearestOutsideGroup(t: Tree<EObject>, rank: map<EObject, nat>, root: EObject, objs: seq<EObject>, o: EObject)
    requires Ranked(t, rank) && NearestParent(t, rank, root, objs).Some? && o in objs && Qualifies(t, rank, root, o)
    ensures !Above(t, rank, o, NearestParent(t, rank, root, objs).value)
  {
    var p := NearestParent(t, rank, root, objs).value;
    NearestIsNearest(t, rank, root, objs);
    if Above(t, rank, o, p) {
      DistBelow(t, rank, root, o, p);
    }
  }

  /**
   * Both loops can choose a parent inside the subtree of a grouped object
   * whose own parent cannot receive children: with `o` below `b`, `q` below
   * `o` and `c` below `q`, grouping `[o, c]` picks `q`, and `do` would attach
   * `o` below a group that is itself below `o`. The model then falls back on
   * the scene root.
   */
  lemma ParentInsideGroup(t: Tree<EObject>, rank: map<EObject, nat>, root: EObject, b: EObject, o: EObject, q: EObject, c: EObject)
    requires Ranked(t, rank) && root in rank
    requires ParentOf(t, b) == Some(root) && ParentOf(t, o) == Some(b) && ParentOf(t, q) == Some(o) && ParentOf(t, c) == Some(q)
    requires !b.canReceiveChildren && q.canReceiveChildren
    ensures AsWrittenGroupParent(t, rank, root, [o, c]) == Some(q)
    ensures NearestParent(t, rank, root, [o, c]) == Some(q)
    ensures q in rank && InGrouped(t, rank, [o, c], q)
    ensures ChosenParent(t, rank, root, [o, c]) == root
  {
    assert UpLinked(t, rank, c) && UpLinked(t, rank, q) && UpLinked(t, rank, o) && UpLinked(t, rank, b);
    assert Above(t, rank, root, b);
    assert Above(t, rank, root, o);
    assert Above(t, rank, root, q);
    assert [o, c][..1] == [o];
    assert [o][..0] == [];
    assert !Qualifies(t, rank, root, o) && Qualifies(t, rank, root, c);
    assert NearestParent(t, rank, root, [o]) == None;
    assert Above(t, rank, o, q);
  }

  /**
   * When the scene root has no parent, the chosen parent is a node outside
   * the subtree of every grouped object that has a parent, so outside the
   * subtree of every object `SetParentCommand` moves into the group.
   */
  lemma ChosenNotLifted(t: Tree<EObject>, rank: map<EObject, nat>, root: EObject, objs: seq<EObject>, n: EObject)
    requires Ranked(t, rank) && root in rank && root !in t.parent
    ensures ChosenParent(t, rank, root, objs) in rank
    ensures !InGrouped(t, rank, objs, ChosenParent(t, rank, root, objs))
    ensures !Lifted(t, rank, Movable(t, rank, objs, n), ChosenParent(t, rank, root, objs))
  {
    var kept := Movable(t, rank, objs, n);
    var p := ChosenParent(t, rank, root, objs);
    if p == root {
      forall o | o in objs && o in t.parent
        ensures !Above(t, rank, o, root)
      {
        assert o != root;
      }
    }
    forall o | o in kept
      ensures !Above(t, rank, o, p)
    {
      MovableExactly(t, rank, objs, n, o);
    }
  }

  /**
   * The constructor's loop, with its `distance` bound lowered at each new
   * choice: the nearest qualifying parent, or the scene root.
   */
  method FindGroupParent(scene: Scene, objects: seq<EObject>) returns (groupParent: EObject)
    requires scene.Valid() && forall o :: o in objects ==> o in scene.tree.children && !o.kind.Bare?
    ensures groupParent == ChosenParent(scene.tree, scene.rank, scene.root, objects) && !groupParent.kind.Bare?
  {
    var distance: Option<nat> := None;
    var found: Option<EObject> := None;
    var i := 0;
    while i < |objects|
      invariant 0 <= i <= |objects|
      invariant found == NearestParent(scene.tree, scene.rank, scene.root, objects[..i])
      invariant distance.Some? <==> found.Some?
      invariant found.Some? ==> distance.value == Dist(scene.tree, scene.rank, scene.root, found.value)
      invariant found.Some? ==> !found.value.kind.Bare?
    {
      var obj := objects[i];
      assert objects[..i + 1][..i] == objects[..i];
      var parent := scene.Parent(obj);
      if parent.Some? && parent.value.canReceiveChildren {
        assert UpLinked(scene.tree, scene.rank, obj);
        var d := scene.HierarchyDistanceTo(parent.value, scene.root);
        if d != -1 {
          ShortestClimb(scene.tree, scene.rank, scene.root, parent.value, d);
          if distance.None? || d < distance.value {
            found := parent;
            distance := Some(d);
          }
        }
      }
      i := i + 1;
    }
    assert objects[..i] == objects;
    groupParent := scene.root;
    if found.Some? {
      var inside := InsideGrouped(scene, objects, found.value);
      if !inside {
        groupParent := found.value;
      }
    }
  }

  /** Whether `x` lies in the subtree of one of the objects that has a parent. */
  method InsideGrouped(scene: Scene, objects: seq<EObject>, x: EObject) returns (inside: bool)
    requires scene.Valid() && x in scene.rank && !x.kind.Bare?
    requires forall o :: o in objects ==> o in scene.tree.children && !o.kind.Bare?
    ensures inside <==> InGrouped(scene.tree, scene.rank, objects, x)
  {
    inside := false;
    var i := 0;
    while i < |objects|
      invariant 0 <= i <= |objects|
      invariant inside <==> exists j :: 0 <= j < i && objects[j] in scene.tree.parent && Above(scene.tree, scene.rank, objects[j], x)
    {
      var parent := scene.Parent(objects[i]);
      if parent.Some? {
        var d := scene.HierarchyDistanceTo(x, objects[i]);
        if d != -1 {
          inside := true;
        }
      }
      i := i + 1;
    }
  }

  /**
   * `do` then `undo` as written, from a graph where the group has no parent
   * and is not grouped: every node but the group gets its parent back, and
   * the group stays below the parent the add command gave it.
   */
  lemma GroupUndoLeavesGroup(t: Tree<EObject>, group: EObject, gp: EObject, objs: seq<EObject>, m: map<EObject, EObject>, x: EObject)
    requires group !in t.parent && group !in objs
    requires forall o :: o in objs ==> o in m && ParentOf(t, o) == Some(m[o])
    ensures ParentOf(Reattached(AttachEach(AttachEach(t, [group], gp), objs, group), objs, m), x)
         == if x == group then Some(gp) else ParentOf(t, x)
    ensures ParentOf(t, group) == None
  {
    var t1 := AttachEach(t, [group], gp);
    forall o | o in objs
      ensures o in m && ParentOf(t1, o) == Some(m[o])
    {
      AttachEachParents(t, [group], gp, o);
    }
    SetParentUndone(t1, objs, group, m, x);
    AttachEachParents(t, [group], gp, x);
  }

  /**
   * `do` then `undo` of all three commands, from a graph where the group
   * has no parent and is not grouped: every node gets its parent back.
   */
  lemma GroupUndone(t: Tree<EObject>, group: EObject, gp: EObject, objs: seq<EObject>, m: map<EObject, EObject>, x: EObject)
    requires group !in t.parent && group !in objs
    requires forall o :: o in objs ==> o in m && ParentOf(t, o) == Some(m[o])
    ensures ParentOf(RemoveEach(Reattached(AttachEach(AttachEach(t, [group], gp), objs, group), objs, m), [group], true), x)
         == ParentOf(t, x)
  {
    var t1 := AttachEach(t, [group], gp);
    forall o | o in objs
      ensures o in m && ParentOf(t1, o) == Some(m[o])
    {
      AttachEachParents(t, [group], gp, o);
    }
    DetachedEachParents(Reattached(AttachEach(t1, objs, group), objs, m), [group], x);
    SetParentUndone(t1, objs, group, m, x);
    AttachEachParents(t, [group], gp, x);
  }

  /** The group can go below its parent: that parent is ranked above the group in an order the links follow. */
  lemma AddFirst(t: Tree<EObject>, rank: map<EObject, nat>, order: map<EObject, nat>, group: EObject, gp: EObject)
    requires Ranked(t, rank) && Descends(t, order) && gp in rank && group in rank
    requires gp in order && group in order && order[gp] < order[group]
    ensures !Above(t, rank, group, gp) && Descends(AttachEach(t, [group], gp), order)
  {
    DescendsNotAbove(t, rank, order, group, gp);
    AttachEachDescends(t, order, [group], gp);
  }

  /** A new group object named "Group". */
  method NewGroup(uuid: string) returns (group: EObject)
    ensures fresh(group) && group.kind == GroupKind && group.name == "Group" && group.uuid == uuid
  {
    group := new EObject(GroupKind, uuid);
    group.name := "Group";
  }

  /**
   * The constructor's group and three commands, built on the scene before
   * the group joins it.
   */
  method Commands(editor: Editor, gp: EObject, objects: seq<EObject>, uuid: string) returns (s: Steps)
    requires editor.Valid() && !gp.kind.Bare?
    requires forall o :: o in objects ==> o in editor.scene.tree.children && !o.kind.Bare?
    ensures editor.Valid() && unchanged(editor.scene)
    ensures fresh(s.group) && s.group.kind == GroupKind && s.group.name == "Group" && s.group.uuid == uuid
    ensures Wired(editor, s) && s.add.parent == gp
    ensures s.parent.before == editor.scene.tree && s.parent.Valid()
    ensures s.parent.objects == Movable(editor.scene.tree, editor.scene.rank, objects, s.group)
    ensures s.parent.order == Lift(editor.scene.tree, editor.scene.rank, editor.scene.bound, s.parent.objects, s.group)
    ensures s.select.lastSelection == editor.selectedObjects.elems
  {
    var group := NewGroup(uuid);
    var parentCmd := new SetParentCommand(editor, group, objects);
    var addCmd := new AddObjectsCommand(editor, [group], Some(gp));
    var selectCmd := new SelectCommand(editor, [group], false);
    s := Steps(group, addCmd, parentCmd, selectCmd);
  }

  /**
   * The constructor's last step on the scene: the new group joins the
   * graph with no parent, and when the scene root has no parent, the
   * scene can take the commands' `do` and `undo`.
   */
  method Prepare(editor: Editor, s: Steps, objects: seq<EObject>)
    requires editor.Valid() && Wired(editor, s) && s.group !in editor.scene.tree.children && s.group.kind == GroupKind
    requires forall o :: o in objects ==> o in editor.scene.tree.children && !o.kind.Bare?
    requires s.add.parent == ChosenParent(editor.scene.tree, editor.scene.rank, editor.scene.root, objects)
    requires s.parent.before == editor.scene.tree && s.parent.Valid()
    requires s.parent.objects == Movable(editor.scene.tree, editor.scene.rank, objects, s.group)
    requires s.parent.order == Lift(editor.scene.tree, editor.scene.rank, editor.scene.bound, s.parent.objects, s.group)
    modifies editor.scene
    ensures editor.scene.tree == Tree(old(editor.scene.tree).parent, old(editor.scene.tree).children[s.group := []])
    ensures editor.Valid()
    ensures editor.scene.root !in old(editor.scene.tree).parent ==> Placed(editor, s)
  {
    var scene := editor.scene;
    ReadyOnceRegistered(scene.tree, scene.rank, scene.bound, scene.root, objects, s);
    editor.Register(s.group);
  }

  /**
   * The facts `Placed` needs once the group is a node of the graph: the
   * records of the set-parent command are nodes, and when the scene root
   * has no parent, the group's parent is ranked above the group.
   */
  lemma ReadyOnceRegistered(t: Tree<EObject>, rank: map<EObject, nat>, bound: nat, root: EObject, objects: seq<EObject>, s: Steps)
    requires Ranked(t, rank) && Bounded(rank, bound) && root in rank && !root.kind.Bare? && BareHoldsBare(t)
    requires forall o :: o in objects ==> o in t.children && !o.kind.Bare?
    requires s.group !in t.children && s.add.parent == ChosenParent(t, rank, root, objects)
    requires s.parent.before == t && s.parent.Valid()
    requires s.parent.objects == Movable(t, rank, objects, s.group)
    requires s.parent.order == Lift(t, rank, bound, s.parent.objects, s.group)
    ensures var t1 := Tree(t.parent, t.children[s.group := []]);
      && s.add.parent in t1.children && s.group in t1.children
      && (forall o :: o in s.parent.oldParentMap ==> o in t1.children && s.parent.oldParentMap[o] in t1.children)
      && Descends(t1, s.parent.order)
    ensures root !in t.parent ==> s.add.parent in s.parent.order && s.group in s.parent.order && s.parent.order[s.add.parent] < s.parent.order[s.group]
  {
    GroupParentBelow(t, rank, bound, root, objects, s.group);
    forall o | o in s.parent.oldParentMap
      ensures o in t.children && s.parent.oldParentMap[o] in t.children
    {
      assert UpLinked(t, rank, o);
    }
  }

  /**
   * The chosen parent is an EObject of the graph; when the scene root has
   * no parent, it is ranked above the new group in the order
   * `SetParentCommand` builds.
   */
  lemma GroupParentBelow(t: Tree<EObject>, rank: map<EObject, nat>, bound: nat, root: EObject, objects: seq<EObject>, group: EObject)
    requires Ranked(t, rank) && Bounded(rank, bound) && root in rank && !root.kind.Bare? && BareHoldsBare(t)
    requires forall o :: o in objects ==> o in t.children && !o.kind.Bare?
    requires group !in t.children
    ensures ChosenParent(t, rank, root, objects) in t.children && !ChosenParent(t, rank, root, objects).kind.Bare?
    ensures root !in t.parent ==>
      var order := Lift(t, rank, bound, Movable(t, rank, objects, group), group);
      && ChosenParent(t, rank, root, objects) in order
      && order[ChosenParent(t, rank, root, objects)] < order[group]
  {
    var gp := ChosenParent(t, rank, root, objects);
    var kept := Movable(t, rank, objects, group);
    NearestIsNearest(t, rank, root, objects);
    if gp != root {
      var w :| w in objects && Qualifies(t, rank, root, w) && t.parent[w] == gp;
      assert UpLinked(t, rank, w);
    }
    if root !in t.parent {
      forall o | o in kept
        ensures o in rank && CanMove(t, rank, o, group)
      {
        MovableExactly(t, rank, objects, group, o);
      }
      LiftOrders(t, rank, bound, kept, group);
      ChosenNotLifted(t, rank, root, objects, group);
    }
  }

  /** The group and the three commands of its command group. */
  datatype Steps = Steps(group: EObject, add: AddObjectsCommand, parent: SetParentCommand, select: SelectCommand)

  /** The three commands act on `editor` with the group as the constructor sets them up. */
  ghost predicate Wired(editor: Editor, s: Steps) {
    && s.add.editor == editor && s.parent.editor == editor && s.select.editor == editor
    && s.add.objects == [s.group] && s.parent.newParent == s.group && !s.group.kind.Bare? && !s.add.parent.kind.Bare?
    && s.select.selection == [s.group] && !s.select.multipleSelectionActive
  }

  /**
   * The scene can take the commands' `do` and `undo`: the set-parent
   * command is ready, and the group's parent is a node ranked above the
   * group in that command's ghost order.
   */
  ghost predicate Placed(editor: Editor, s: Steps)
    reads editor.scene
  {
    && s.parent.editor == editor && s.parent.Ready()
    && s.add.parent in editor.scene.tree.children
    && s.add.parent in s.parent.order && s.group in s.parent.order && s.parent.order[s.add.parent] < s.parent.order[s.group]
  }

  /**
   * The constructor's work: without objects, no command group; otherwise
   * the group parent, a new group named "Group" that joins the scene graph
   * with no parent, and the add, set-parent and select commands. When the
   * scene root has no parent, the scene can then take `do` and `undo`.
   */
  method Build(editor: Editor, objects: seq<EObject>, uuid: string) returns (c: Option<Steps>)
    requires editor.Valid() && forall o :: o in objects ==> o in editor.scene.tree.children && !o.kind.Bare?
    modifies editor.scene
    ensures editor.Valid()
    ensures objects == [] <==> c.None?
    ensures objects == [] ==> editor.scene.tree == old(editor.scene.tree)
    ensures c.Some? ==>
      var s := c.value;
      && Wired(editor, s)
      && fresh(s.group) && s.group.kind == GroupKind && s.group.name == "Group" && s.group.uuid == uuid
      && editor.scene.tree == Tree(old(editor.scene.tree).parent, old(editor.scene.tree).children[s.group := []])
      && s.add.parent == old(ChosenParent(editor.scene.tree, editor.scene.rank, editor.scene.root, objects))
      && s.parent.objects == Movable(old(editor.scene.tree), old(editor.scene.rank), objects, s.group)
      && s.select.lastSelection == editor.selectedObjects.elems
    ensures c.Some? && editor.scene.root !in old(editor.scene.tree).parent ==> Placed(editor, c.value)
  {
    if objects == [] {
      c := None;
    } else {
      var groupParent := FindGroupParent(editor.scene, objects);
      var s := Commands(editor, groupParent, objects, uuid);
      Prepare(editor, s, objects);
      c := Some(s);
    }
  }

  /** The add and set-parent commands' `do`: the group goes below its parent, then the objects into the group. */
  method AddAndMove(editor: Editor, s: Steps)
    requires editor.Valid() && Wired(editor, s) && Placed(editor, s)
    modifies editor.scene
    ensures editor.scene.tree == AttachEach(AttachEach(old(editor.scene.tree), [s.group], s.add.parent), s.parent.objects, s.group)
    ensures editor.Valid() && Placed(editor, s)
  {
    AddFirst(editor.scene.tree, editor.scene.rank, s.parent.order, s.group, s.add.parent);
    s.add.Do();
    ghost var t := editor.scene.tree;
    s.parent.Do();
    AttachEachKeys(t, s.parent.objects, s.group);
  }

  /** The set-parent command's `undo`: the objects go back to their parents; the group stays where it is. */
  method MoveBack(editor: Editor, s: Steps)
    requires editor.Valid() && Wired(editor, s) && Placed(editor, s)
    modifies editor.scene
    ensures editor.scene.tree == Reattached(old(editor.scene.tree), s.parent.objects, s.parent.oldParentMap)
    ensures editor.Valid() && Placed(editor, s)
  {
    ghost var t0 := editor.scene.tree;
    s.parent.Undo();
    ReattachedKeys(t0, s.parent.objects, s.parent.oldParentMap);
  }

  /** The set-parent and add commands' `undo`: the objects go back to their parents, then the group leaves its own. */
  method MoveBackAndRemove(editor: Editor, s: Steps)
    requires editor.Valid() && Wired(editor, s) && Placed(editor, s)
    modifies editor.scene
    ensures editor.scene.tree == RemoveEach(Reattached(old(editor.scene.tree), s.parent.objects, s.parent.oldParentMap), [s.group], true)
    ensures editor.Valid() && Placed(editor, s)
  {
    ghost var t0 := editor.scene.tree;
    s.parent.Undo();
    ReattachedKeys(t0, s.parent.objects, s.parent.oldParentMap);
    ghost var t := editor.scene.tree;
    RankedClosed(t, editor.scene.rank);
    s.add.Undo();
    DetachedEachDescends(t, [s.group], s.parent.order);
  }

  /** The command group's `do`: the add, set-parent and select commands, in that order. */
  method DoSteps(editor: Editor, s: Steps)
    requires editor.Valid() && Wired(editor, s) && Placed(editor, s)
    modifies editor.scene, editor.selectedObjects, editor.ik`chains, editor.ik.g`ik
    modifies s.select.selection`isSelected, s.select.lastSelection`isSelected
    modifies ListedAnchors(s.select.selection)`chain, ListedAnchors(s.select.lastSelection)`chain
    ensures editor.scene.tree == AttachEach(AttachEach(old(editor.scene.tree), [s.group], s.add.parent), s.parent.objects, s.group)
    ensures editor.selectedObjects.elems == Reselect(old(editor.selectedObjects.elems), s.select.lastSelection, [s.group])
    ensures editor.Valid() && Placed(editor, s)
  {
    AddAndMove(editor, s);
    s.select.Do();
  }

  /** The command group's `undo` as written: the select and set-parent commands, in that order. */
  method UndoSteps(editor: Editor, s: Steps)
    requires editor.Valid() && Wired(editor, s) && Placed(editor, s)
    modifies editor.scene, editor.selectedObjects, editor.ik`chains, editor.ik.g`ik
    modifies s.select.selection`isSelected, s.select.lastSelection`isSelected
    modifies ListedAnchors(s.select.selection)`chain, ListedAnchors(s.select.lastSelection)`chain
    ensures editor.scene.tree == Reattached(old(editor.scene.tree), s.parent.objects, s.parent.oldParentMap)
    ensures editor.selectedObjects.elems == Reselect(old(editor.selectedObjects.elems), [s.group], s.select.lastSelection)
    ensures editor.Valid() && Placed(editor, s)
  {
    s.select.Undo();
    MoveBack(editor, s);
  }

  /** The three commands' `undo`, the select command first and the add command last. */
  method UndoAllSteps(editor: Editor, s: Steps)
    requires editor.Valid() && Wired(editor, s) && Placed(editor, s)
    modifies editor.scene, editor.selectedObjects, editor.ik`chains, editor.ik.g`ik
    modifies s.select.selection`isSelected, s.select.lastSelection`isSelected
    modifies ListedAnchors(s.select.selection)`chain, ListedAnchors(s.select.lastSelection)`chain
    ensures editor.scene.tree == RemoveEach(Reattached(old(editor.scene.tree), s.parent.objects, s.parent.oldParentMap), [s.group], true)
    ensures editor.selectedObjects.elems == Reselect(old(editor.selectedObjects.elems), [s.group], s.select.lastSelection)
    ensures editor.Valid() && Placed(editor, s)
  {
    s.select.Undo();
    MoveBackAndRemove(editor, s);
  }

  class GroupObjectsCommand {
    const name: string := "GroupObjectsCommand"
    const isUndoable: bool := true
    const editor: Editor
    /** Absent when the constructor was given no objects. */
    const cmdsGroup: Option<Steps>

    /** The objects the select command selects, none without objects. */
    function Selecting(): seq<EObject> {
      if cmdsGroup.Some? then cmdsGroup.value.select.selection else []
    }

    /** The selection the select command replaces, none without objects. */
    function Replacing(): seq<EObject> {
      if cmdsGroup.Some? then cmdsGroup.value.select.lastSelection else []
    }

    /** The commands are wired to this editor and the scene can take their `do` and `undo`. */
    ghost predicate Ready()
      reads editor.scene
    {
      cmdsGroup.Some? ==> Wired(editor, cmdsGroup.value) && Placed(editor, cmdsGroup.value)
    }

    /** Holds the editor and the command group `Build` makes from the objects to group. */
    constructor (editor: Editor, cmdsGroup: Option<Steps>)
      ensures this.editor == editor && this.cmdsGroup == cmdsGroup
    {
      this.editor := editor;
      this.cmdsGroup := cmdsGroup;
    }

    /** `do`: the group goes below its parent, the objects into the group, and the group becomes the selection. */
    method Do()
      requires editor.Valid() && Ready()
      modifies editor.scene, editor.selectedObjects, editor.ik`chains, editor.ik.g`ik
      modifies Selecting()`isSelected, Replacing()`isSelected, ListedAnchors(Selecting())`chain, ListedAnchors(Replacing())`chain
      ensures cmdsGroup.None? ==> editor.scene.tree == old(editor.scene.tree)
      ensures cmdsGroup.None? ==> editor.selectedObjects.elems == old(editor.selectedObjects.elems)
      ensures cmdsGroup.Some? ==>
        var s := cmdsGroup.value;
        && editor.scene.tree == AttachEach(AttachEach(old(editor.scene.tree), [s.group], s.add.parent), s.parent.objects, s.group)
        && editor.selectedObjects.elems == Reselect(old(editor.selectedObjects.elems), s.select.lastSelection, [s.group])
      ensures editor.Valid() && Ready()
    {
      if cmdsGroup.Some? {
        var s := cmdsGroup.value;
        DoSteps(editor, s);
      }
    }

    /**
     * `undo`: the command group undoes its commands from the last down to
     * the second, so the select and set-parent commands are undone and the
     * group stays below its parent.
     */
    method Undo()
      requires editor.Valid() && Ready()
      modifies editor.scene, editor.selectedObjects, editor.ik`chains, editor.ik.g`ik
      modifies Selecting()`isSelected, Replacing()`isSelected, ListedAnchors(Selecting())`chain, ListedAnchors(Replacing())`chain
      ensures cmdsGroup.None? ==> editor.scene.tree == old(editor.scene.tree)
      ensures cmdsGroup.None? ==> editor.selectedObjects.elems == old(editor.selectedObjects.elems)
      ensures cmdsGroup.Some? ==>
        var s := cmdsGroup.value;
        && editor.scene.tree == Reattached(old(editor.scene.tree), s.parent.objects, s.parent.oldParentMap)
        && editor.selectedObjects.elems == Reselect(old(editor.selectedObjects.elems), [s.group], s.select.lastSelection)
      ensures editor.Valid() && Ready()
    {
      if cmdsGroup.Some? {
        var s := cmdsGroup.value;
        UndoSteps(editor, s);
      }
    }

    /** `undo` of all three commands, the add command last, so the group leaves the scene graph too. */
    method UndoAll()
      requires editor.Valid() && Ready()
      modifies editor.scene, editor.selectedObjects, editor.ik`chains, editor.ik.g`ik
      modifies Selecting()`isSelected, Replacing()`isSelected, ListedAnchors(Selecting())`chain, ListedAnchors(Replacing())`chain
      ensures cmdsGroup.None? ==> editor.scene.tree == old(editor.scene.tree)
      ensures cmdsGroup.None? ==> editor.selectedObjects.elems == old(editor.selectedObjects.elems)
      ensures cmdsGroup.Some? ==>
        var s := cmdsGroup.value;
        && editor.scene.tree == RemoveEach(Reattached(old(editor.scene.tree), s.parent.objects, s.parent.oldParentMap), [s.group], true)
        && editor.selectedObjects.elems == Reselect(old(editor.selectedObjects.elems), [s.group], s.select.lastSelection)
      ensures editor.Valid() && Ready()
    {
      if cmdsGroup.Some? {
        var s := cmdsGroup.value;
        UndoAllSteps(editor, s);
      }
    }

    method Clean() {
    }
  }
}
