# esquisse core, modelled in Dafny

esquisse is a browser editor for posing rigged 3D models. This project
models its core in Dafny and proves properties of that model. The core has
four parts:

- **The inverse-kinematics engine.** An `IKChain` is a bottom-up path of
  bones, from its effector up to its tail. It grows and shrinks at the tail
  end and is solved by cyclic coordinate descent (CCD). The `IKManager`
  tracks the chains, keeps every bone a non-tail link of at most one chain,
  clamps growth requests to the bones still free, locks the tails that other
  chains continue, and solves a batch of chains in breadth-first order from
  each skeleton root. The helpers of `boneUtils` walk the skeleton, and the
  two methods `augments` adds to arrays are modelled too.
- **The undo/redo history.** The `CommandManager` keeps the undo and redo
  stacks. A `CommandGroup` runs several commands as one. The editing
  commands are `SelectCommand`, `SetParentCommand`, `DeleteObjectsCommand`,
  `AddObjectsCommand` and `GroupObjectsCommand`.
- **The `Editor`.** It holds the scene graph, the selection and the IK
  manager. Its operations select, unselect, attach and remove objects, and
  create, resize, remove and solve the chains that anchors hold.
- **The scene objects and loading.** `EObject` wraps a three.js object.
  `EAnchor` is the handle a user drags to pull a chain. `EGrid` is the
  ground grid, drawn from two fixed-size buffers. `ioUtils` converts the
  materials of a loaded file, wraps each loaded object in its EObject class
  and finds the first scene.

Each source file has its own module:

| module | file | source |
|---|---|---|
| `Wrappers`, `Seqs` | `wrappers.dfy`, `seqs.dfy` | `Option` and sequence helpers |
| `Augments` | `augments.dfy` | `src/utils/augments.ts` |
| `BoneUtils` | `bone_utils.dfy` | `src/utils/boneUtils.ts` |
| `Chains` | `ik_chain.dfy` | `src/ik/IKChain.ts` |
| `Traversal` | `bone_traversal.dfy` | `boneBFTraverse` in `src/ik/IKManager.ts` |
| `Manager` | `ik_manager.dfy` | `src/ik/IKManager.ts` |
| `History` | `history.dfy` | `src/editor/CommandManager.ts`, `src/commands/CommandGroup.ts` |
| `Trees`, `SceneGraph` | `trees.dfy`, `scene_graph.dfy` | the tree operations of `src/objects/EObject.ts` |
| `SceneObjects` | `scene_objects.dfy` | the fields, `copy` and `toJson`/`fromJson` of `src/objects/EObject.ts` |
| `Anchors` | `anchors.dfy` | `src/objects/EAnchor.ts` |
| `Colors`, `Grid` | `colors.dfy`, `grid.dfy` | `src/objects/EGrid.ts` |
| `EditorCore` | `editor.dfy` | `src/editor/Editor.ts` |
| `Selection`, `Reparent`, `Deletion`, `Addition`, `Grouping` | `select_command.dfy`, `set_parent_command.dfy`, `delete_objects_command.dfy`, `add_objects_command.dfy`, `group_objects_command.dfy` | the commands under `src/commands/` |
| `IoUtils` | `io_utils.dfy` | `src/io/ioUtils.ts` |

The model takes the source's own form. Objects whose fields the source
updates in place are classes with `modifies` frames. These include
`IKChain`, `IKManager`, `CommandManager`, `CommandGroup`, every command,
`Editor`, `EObject`, `EAnchor` and `EGrid`. Grid buffers are arrays. Loops
are methods with invariants, each proved against a function that says what
it computes. Pure helpers are functions, and their properties are lemmas.

Some choices need stating:

- **The skeleton.** The skeleton is an immutable forest. Its nodes are
  numbered so that a parent comes before its children. `EBone` refuses a
  change of parent and new children, but only the scene tree view checks
  those flags: `SetParentCommand` and `GroupObjectsCommand` can move a bone
  object in the scene graph, and the forest does not follow (see
  "## Left out").
- **Bone records.** Each bone's `ik` record lives in a map from bone to
  record. A chain is a heap object, so a bone's list of chains holds
  references.
- **The scene graph.** It is a value with a parent map and ordered child
  lists. A ghost rank witnesses that it has no cycle.
- **Command calls.** The history sees each command's `do`, `undo` and
  `clean` as calls appended to a shared log. Each command's effect on the
  scene and on the selection is proved in that command's own module.

Where the code departs from what its comments and names intend, the model follows the code:

- `IKManager.addChain` checks that a chain could be added but never inserts
  it.
- `CommandGroup.undo` stops before the first command.
- `GroupObjectsCommand` never lowers its distance bound (see
  "## Findings").
- `EEmptyObject` saves the type `"Object"`, but the load switch matches
  `"Object3D"` (`src/io/ioUtils.ts:129`). Empty objects, grids and lights
  therefore reload as empty objects through the fallback branch, which
  warns. `IoUtils.ReloadedKind` proves this.

## Model

| member | source | states |
|---|---|---|
| Augments.FirstIndex | src/utils/augments.ts:53 | the index `indexOf` finds holds the value and no earlier index does |
| Augments.FirstIndexUnique | src/utils/augments.ts:53 | that index is the only one holding the value with none before it |
| Augments.RemoveFirst | src/utils/augments.ts:52-59 | an absent value leaves the array as it was; a present one shortens it by exactly one |
| Augments.RemoveFirstMultiset | src/utils/augments.ts:57 | the splice takes exactly one occurrence of the value out of the elements |
| Augments.RemoveFirstCounts | src/utils/augments.ts:57 | every other value keeps its number of occurrences |
| Augments.RemoveFirstSplices | src/utils/augments.ts:53-57 | the splice deletes exactly index `indexOf(x)` and keeps the other elements in order |
| Augments.RemoveFirstAfter | src/utils/augments.ts:52-59 | removing `x` from `a + [x] + b` with no `x` in `a` leaves `a + b` |
| Augments.RemoveFirstWithout | src/utils/augments.ts:52-59 | in an array without repetitions, `remove` takes away every occurrence |
| Augments.IndexOf | src/utils/augments.ts:53-54 | -1 exactly when the value is absent, otherwise its first index |
| Augments.JsArray.Clear | src/utils/augments.ts:47-50 | the array is emptied in place and the same array is returned |
| Augments.JsArray.Remove | src/utils/augments.ts:52-59 | returns true exactly when the value was present; the array loses its first occurrence and nothing else |
| Augments.RemoveTwice | src/utils/augments.test.ts:17-25 | removing 2 from [1, 2, 3] succeeds and leaves [1, 3]; removing it again reports false |
| Augments.ClearExample | src/utils/augments.test.ts:27-31 | clearing [1, 2, 3] leaves length 0 on the same array |
| BoneUtils.ParentOf | src/utils/boneUtils.ts:25 | `bone.parent` is numbered before the bone and lists it as a child |
| BoneUtils.ChildLinks | src/utils/boneUtils.ts:39 | every child names the bone as its parent and no child is listed twice |
| BoneUtils.ParentBone | src/utils/boneUtils.ts:24-30 | the parent when it is a bone, otherwise None because the parent is not a bone; a parent must exist |
| BoneUtils.BoneParent | src/utils/boneUtils.ts:24-30 | the same helper with None at a node without a parent, the semantics the IK engine relies on |
| BoneUtils.ParentHelpersAgree | src/utils/boneUtils.ts:24-30 | wherever the strict helper is defined, the two parent helpers agree |
| BoneUtils.FilterBones | src/utils/boneUtils.ts:39-43 | the result holds exactly the bones of the list, in list order, each once when the list repeats none |
| BoneUtils.BoneChildrenFacts | src/utils/boneUtils.ts:37-45 | the bone children are exactly the children that are bones, in children order, without repetition |
| BoneUtils.ChildrenBones | src/utils/boneUtils.ts:37-45 | the loop returns exactly the bone children |
| BoneUtils.ParentChildInverse | src/utils/boneUtils.ts:24-45 | `p` is the parent bone of `c` exactly when `c` is among the bone children of `p` |
| BoneUtils.Ancestor | src/utils/boneUtils.ts:53-60 | the `k`-th bone ancestor exists exactly when `k` is at most the bone depth, and is a bone numbered no later |
| BoneUtils.AncestorStep | src/utils/boneUtils.ts:56-57 | one more parent-bone step from the `k`-th ancestor gives the `k+1`-th |
| BoneUtils.RootOf | src/utils/boneUtils.ts:53-60 | the root `rootBone` reaches is numbered no later than the bone |
| BoneUtils.RootBone | src/utils/boneUtils.ts:53-60 | the loop returns an ancestor-or-self with no parent bone, the value `RootOf` gives |
| BoneUtils.RootOfIsRoot | src/utils/boneUtils.ts:53-60 | the root has no parent bone, lies above the bone, and is a bone when the bone is |
| BoneUtils.RootOfIdempotent | src/utils/boneUtils.ts:53-60 | `rootBone(rootBone(b)) == rootBone(b)`, and `rootBone(b) == b` exactly when `b` has no parent bone |
| BoneUtils.SubtreeSharesRoot | src/utils/boneUtils.ts:53-60 | a bone and any of its ancestors reach the same root |
| BoneUtils.RootBones | src/utils/boneUtils.ts:68-70 | exactly the skeleton bones with no parent bone, in skeleton order |
| Chains.PathNoDup | src/ik/IKChain.ts:135-147 | a chain's bones, built by following parent bones, never repeat a bone |
| Chains.PathExtend | src/ik/IKChain.ts:139-146 | pushing the parent bone of the tail keeps the bones an ancestor path and adds a bone not yet in it |
| Chains.PathTailLeast | src/ik/IKChain.ts:79-81 | the tail is the top-most bone of the chain |
| Chains.RegisterFacts | src/ik/IKChain.ts:48-51 | a bone without `ik` gets a new unlocked record, other flags stay, and the chain is counted once more at that bone |
| Chains.RegisterListed | src/ik/IKChain.ts:141-145 | after the push the chain is listed and no other chain appears or disappears |
| Chains.RegisterCounts | src/ik/IKChain.ts:145 | the push changes only the count of this chain at this bone |
| Chains.UnregisterFacts | src/ik/IKChain.ts:158 | `remove` keeps every record and flag and counts the chain once less at the bone, never below zero |
| Chains.UnregisterListed | src/ik/IKChain.ts:60 | removing lists no new chain and can unlist only this chain |
| Chains.UnregisterCounts | src/ik/IKChain.ts:158 | the removal changes only the count of this chain at this bone |
| Chains.Lock | src/ik/IKChain.ts:100 | the tail's record becomes locked; no other record and no list changes |
| Chains.LockListed | src/ik/IKChain.ts:100 | locking lists exactly the chains listed before |
| Chains.GrowStep | src/ik/IKChain.ts:139-150 | one step of growth stops at a bone without a parent bone, otherwise registers and pushes the parent |
| Chains.Shrink | src/ik/IKChain.ts:152-159 | shrinking by `k` leaves exactly the first `|bones| - k` bones |
| Chains.GrowPrefix | src/ik/IKChain.ts:146 | growth only appends: the old bones are a prefix of the new |
| Chains.GrowLength | src/ik/IKChain.ts:137-150 | growth appends `k` bones, or as many as the tail has bone ancestors, and completes exactly when there are enough |
| Chains.GrowPath | src/ik/IKChain.ts:139-146 | growth keeps `bones[i+1]` the parent bone of `bones[i]` |
| Chains.GrowShape | src/ik/IKChain.ts:135-150 | growth appends exactly the next ancestors, as many as exist, and keeps the path |
| Chains.GrowOthers | src/ik/IKChain.ts:141-145 | growth keeps every other chain's entries and the existing flags; new records are unlocked and on appended bones |
| Chains.GrowOwn | src/ik/IKChain.ts:141-146 | growth registers the chain once with each appended bone and with nothing else |
| Chains.ShrinkOthers | src/ik/IKChain.ts:155-159 | shrinking keeps every other chain's entries |
| Chains.ShrinkOwn | src/ik/IKChain.ts:155-159 | shrinking unregisters the chain once from each popped bone and from nothing else |
| Chains.ResizeShape | src/ik/IKChain.ts:126-164 | below 1 warns `MinSizeWarning` and changes nothing; the equal size changes nothing; otherwise the new size is the request, or as much as the ancestors allow with `NotEnoughBonesWarning(size, achieved)` exactly in that case; the head never moves; growth appends, shrinking pops |
| Chains.GrowLive | src/ik/IKChain.ts:135-150 | growth keeps each chain bone listing the chain exactly once and no other bone listing it |
| Chains.ShrinkLive | src/ik/IKChain.ts:152-159 | shrinking keeps the bone lists in step with the bones |
| Chains.ResizeLive | src/ik/IKChain.ts:126-164 | every resize keeps the bone lists in step with the bones |
| Chains.ResizeOthers | src/ik/IKChain.ts:126-164 | a resize moves no other chain's entries and lists no chain but this one |
| Chains.DisposeOthers | src/ik/IKChain.ts:57-62 | `dispose` leaves every other chain's entries and every record |
| Chains.DisposeOwn | src/ik/IKChain.ts:57-62 | `dispose` unregisters the chain once from each of its bones and from nothing else |
| Chains.DisposeLive | src/ik/IKChain.ts:57-62 | disposing a live chain unlists it and only it |
| Chains.Bump | src/ik/IKChain.ts:263-264 | a rotation step turns its bone once and no other bone |
| Chains.PassTouches | src/ik/IKChain.ts:209-297 | one pass turns only unlocked bones at indices 1 to `j`, each at most once, and reports a rotation whenever it turned something |
| Chains.CCDTouches | src/ik/IKChain.ts:204-301 | only movable bones turn, each by at most one step per iteration |
| Chains.SolverSkips | src/ik/IKChain.ts:204-218 | the solver never turns the effector, a locked bone, or the tail when `lockTail` is set |
| Chains.CCDStill | src/ik/IKChain.ts:299 | after a pass that turned nothing, further iterations change nothing |
| Chains.ResizeKeepsValid | src/ik/IKChain.ts:126-164 | a resize leaves every chain of the graph live and the listed chains as before |
| Chains.DisposeKeepsValid | src/ik/IKChain.ts:57-62 | disposing leaves the other chains live and unlists only this one |
| Chains.IKChain.constructor | src/ik/IKChain.ts:44-55 | the effector gets a record if absent and lists the chain, bones start as `[effector]`, then the size is set as `Resize` says |
| Chains.IKChain.Dispose | src/ik/IKChain.ts:57-62 | the chain is removed from the list of each of its bones and is no longer listed anywhere |
| Chains.IKChain.GetChildForBone | src/ik/IKChain.ts:83-94 | a result exactly for a bone with `ik` that is a chain bone other than the head; then `bones[idx-1]`, a child of the bone |
| Chains.IKChain.CanIncrease | src/ik/IKChain.ts:106-115 | true exactly when the tail has at least `delta` bone ancestors |
| Chains.IKChain.SetSize | src/ik/IKChain.ts:126-164 | bones, records, result and warning end as `Resize` gives, and every chain stays live |
| Chains.IKChain.ApplySize | src/ik/IKChain.ts:126-164 | the branches of `setSize` produce exactly `Resize` |
| Chains.IKChain.GrowBy | src/ik/IKChain.ts:137-151 | the growing loop ends as `Grow` gives, warning at a bone without parent bone |
| Chains.IKChain.ShrinkBy | src/ik/IKChain.ts:154-159 | the popping loop ends as `Shrink` gives |
| Chains.IKChain.Solve | src/ik/IKChain.ts:96-104 | a tail that is its own root bone is locked first, then three CCD iterations run |
| Chains.SolveCCDChain | src/ik/IKChain.ts:192-303 | the rotations made are exactly `CCD`: passes from the start index down to 1, skipping locked and aligned bones, stopping after a pass that rotated nothing |
| Traversal.QueueSizeStep | src/ik/IKManager.ts:248-251 | visiting the queue head and queueing its bone children leaves one visit fewer, so the walk ends |
| Traversal.Next | src/ik/IKManager.ts:250-251 | the queue after a visit: the rest, then the head's bone children; fewer visits remain |
| Traversal.BFSSeen | src/ik/IKManager.ts:243-253 | the walk starts at the root, sees only bones of the root's subtree, and sees none twice |
| Traversal.BFSLevels | src/ik/IKManager.ts:243-253 | the walk never visits a bone after a deeper one |
| Traversal.BFSReaches | src/ik/IKManager.ts:243-253 | the walk reaches every bone of the root's subtree |
| Traversal.BFSLevelOrder | src/ik/IKManager.ts:243-253 | the walk lists the subtree once each, root first, level by level |
| Traversal.BoneBFTraverse | src/ik/IKManager.ts:243-253 | the callback is applied to exactly the bones of `BFS` from the root, in that order |
| Manager.AvailableMeaning | src/ik/IKManager.ts:96-111 | over live chains, a bone is available exactly when no tracked chain uses it as a link other than its tail |
| Manager.WalkFacts | src/ik/IKManager.ts:133-151 | the growth walk takes at most the requested steps, never more than the tail has ancestors, and every bone it leaves is available |
| Manager.WalkStops | src/ik/IKManager.ts:140-148 | a walk that falls short stops at a bone with no parent bone or an unavailable one (the case that warns) |
| Manager.AddableKeepsExclusive | src/ik/IKManager.ts:77-88 | a chain that addChain accepts (every link but the tail available) keeps the tracked chains from sharing a non-tail link |
| Manager.ClampedResize | src/ik/IKManager.ts:132-155 | resizing to the clamped size keeps the effector and the ancestor path, never exceeds a requested size of at least 1, and every new link was a link before or available |
| Manager.KeepsExclusive | src/ik/IKManager.ts:126-160 | a clamped resize of a tracked chain keeps the tracked chains exclusive |
| Manager.DecreaseMeaning | src/ik/IKManager.ts:205-207 | shrinking by `delta` succeeds, leaving exactly `delta` fewer bones, iff at least one link remains |
| Manager.SolveAllSnoc | src/ik/IKManager.ts:224-229 | solving one more chain applies its solve step to the state the earlier chains left |
| Manager.SolvedCovers | src/ik/IKManager.ts:209-234 | every chain handed to solveChains is among the chains the traversals from the distinct tail roots solve |
| Manager.CoveredAtRoot | src/ik/IKManager.ts:221-232 | a live chain whose tail's root is among the roots is listed at a bone their traversals visit |
| Manager.DistinctRootsAreBones | src/ik/IKManager.ts:211-215 | the collected roots are all bones |
| Manager.DisposeEachOthers | src/ik/IKManager.ts:58-62 | disposing a list of chains keeps every bone record and lock flag, lists no new chain, and leaves the counts of every other chain |
| Manager.DisposeChains | src/ik/IKManager.ts:59-61 | disposing each chain in order unlists exactly those chains and keeps the graph valid |
| Manager.NewChain | src/ik/IKManager.ts:44 | the new chain of size 1 starts at the effector, is listed, and is exclusive with the tracked chains |
| Manager.IKManager.constructor | src/ik/IKManager.ts:16-20 | a manager over a valid bone graph tracks no chain and starts the id counter at 0 |
| Manager.IKManager.TrackedConsistent | src/ik/IKManager.ts:14-20 | the tracked chains are live in the bone graph |
| Manager.IKManager.CanAnyChainGrowFromBone | src/ik/IKManager.ts:96-111 | true iff the bone has no `ik` record or every tracked chain listed there ends at it |
| Manager.IKManager.AddChain | src/ik/IKManager.ts:72-89 | true iff the chain is tracked or every link but the tail is available; nothing is inserted |
| Manager.IKManager.RemoveChain | src/ik/IKManager.ts:113-118 | a tracked chain leaves the set and is unregistered from its bones; an untracked one changes nothing |
| Manager.IKManager.RemoveAllChains | src/ik/IKManager.ts:58-64 | every tracked chain is disposed and unlisted, the set is emptied and the counter reset |
| Manager.IKManager.LockChainTails | src/ik/IKManager.ts:162-184 | every tracked chain's `lockTail` becomes what the lock rule says for its tail |
| Manager.IKManager.LockTail | src/ik/IKManager.ts:164-182 | locked iff the tail lists more than one chain and one of them ends elsewhere, or the tail is the skeleton root |
| Manager.IKManager.SomeEndsElsewhere | src/ik/IKManager.ts:174 | true iff some chain listed at the tail does not end there |
| Manager.IKManager.ClampSize | src/ik/IKManager.ts:133-152 | the size passed on is the requested one, or for growth the current size plus the steps of the walk |
| Manager.IKManager.SetChainSize | src/ik/IKManager.ts:126-160 | false and nothing changed for an untracked chain; otherwise the chain is resized to the clamped size, the result says whether it changed, and every tail lock is recomputed |
| Manager.IKManager.StartChain | src/ik/IKManager.ts:44-47 | a fresh chain with the next id, of size 1 at the effector, appended to the tracked chains |
| Manager.IKManager.CreateChainFromBone | src/ik/IKManager.ts:29-53 | null iff the size is below 1 or the effector is unavailable, and then nothing changes; otherwise a fresh tracked chain with the old counter as id, starting at the effector, no longer than the size, resized as the walk allows, with every tail lock recomputed |
| Manager.IKManager.CanIncreaseChain | src/ik/IKManager.ts:186-203 | true iff `delta <= 0` or the walk from the tail takes all `delta` steps |
| Manager.IKManager.CanDecreaseChain | src/ik/IKManager.ts:205-207 | true iff resizing to `delta` fewer links raises no warning |
| Manager.IKManager.SolveChains | src/ik/IKManager.ts:209-234 | the chains solved are those listed at the bones the breadth-first traversals from the distinct tail roots visit, each once in first-visit order, and the new bone state is solving them in that order |
| Manager.IKManager.CollectRoots | src/ik/IKManager.ts:211-215 | the roots of the chains' tails, each once, in first-seen order |
| Manager.IKManager.SolveAt | src/ik/IKManager.ts:223-230 | at one bone, the chains it lists and not yet solved are solved in list order |
| Manager.IKManager.Track | src/ik/IKManager.ts:47 | the chain is appended to the tracked chains and the tracked bones keep every bone in at most one chain |
| Manager.IKManager.ResizeTracked | src/ik/IKManager.ts:133-155 | bones, bone records and result end as resizing the chain to the target `setChainSize` computes, and the listed chains stay |
| Manager.IKManager.SetTrackedSize | src/ik/IKManager.ts:133-155 | the same for a tracked chain, keeping the tracked chains exclusive |
| Manager.IKManager.SolveSubset | src/ik/IKManager.ts:209-234 | the chains solved are exactly those listed at the bones visited from the distinct tail roots, once each, and the bone state is solving them in that order |
| Manager.IKManager.SolveRoots | src/ik/IKManager.ts:221-233 | the traversals from the roots in order solve each chain they reach the first time |
| Manager.IKManager.SolveTree | src/ik/IKManager.ts:222-232 | one breadth-first traversal from a root adds the chains listed at the bones it visits, not solved yet, in visit order |
| Manager.IKManager.SolveVisited | src/ik/IKManager.ts:222-232 | the callback over the visited bones in order solves the chains not solved yet |
| Manager.IKManager.SolveOne | src/ik/IKManager.ts:226-229 | solving a chain extends the solved order by that chain |
| Anchors.GeometryTellsShape | src/objects/mesh/EAnchor.ts:122-139 | each shape installs its own geometry, and only "No Shape" shows the empty one |
| Anchors.EAnchor.constructor | src/objects/mesh/EAnchor.ts:55-62 | a new anchor has no chain and no shape, and keeps the temporary flag it is given |
| Anchors.EAnchor.SetShape | src/objects/mesh/EAnchor.ts:122-141 | the shape is stored and its geometry shown; the chain and the temporary flag stay |
| Anchors.EAnchor.SetAsNonTemporary | src/objects/mesh/EAnchor.ts:111-116 | a temporary anchor becomes permanent with a sphere shape; a permanent one is left unchanged |
| Anchors.EAnchor.ApplyJson | src/objects/mesh/EAnchor.ts:84-98 | the flag and the shape come from the data; an error iff a chain was saved and its effector bone is missing; otherwise a saved chain is rebuilt as a fresh chain with the saved id on the effector, resized to the saved size |
| Anchors.PathsAgree | src/objects/mesh/EAnchor.ts:64-98 | two ancestor paths from the same bone with the same length are the same path |
| Anchors.ChainRoundTrip | src/objects/mesh/EAnchor.ts:64-98 | saving a chain (size and effector) and rebuilding it gives back exactly its bones |
| SceneObjects.EObject.constructor | src/objects/EObject.ts:60-86 | identity as given, named "Scene" for the scene (src/objects/EScene.ts:25-32) and unnamed otherwise; selectable and transformable unless a scene, movable and deletable unless a scene or a bone (src/objects/mesh/skinnedmesh/EBone.ts:32-34), receiving children unless a bone, shown, exportable, not selected |
| SceneObjects.EObject.FromJson | src/objects/EObject.ts:100-107 | saving after loading gives the data back with this object's type; the name, selection and `canBeExported` stay |
| SceneObjects.EObject.Copy | src/objects/EObject.ts:113-132 | the name and six flags come from the source; the uuid and `canBeDeleted` stay this object's own |
| SceneObjects.EObject.OnSelected | src/objects/EObject.ts:197-200 | the object is selected |
| SceneObjects.EObject.OnUnselected | src/objects/EObject.ts:201-204 | the object is no longer selected |
| SceneObjects.JsonRoundTrip | src/objects/EObject.ts:88-107 | loading what one object saved into another of the same kind reproduces the saved fields |
| SceneGraph.Carriers | src/objects/EObject.ts:220-224 | exactly the entries that carry an EObject are kept, and no more than there were |
| SceneGraph.CarriersInOrder | src/objects/EObject.ts:220-224 | the kept objects come in the order of the three.js list |
| SceneGraph.Scene.Parent | src/objects/EObject.ts:216-218 | for an EObject, its parent in the tree |
| SceneGraph.Scene.TraverseSubtree | src/objects/EObject.ts:182-186 | `traverse` visits exactly the object and its descendants that carry an EObject |
| SceneGraph.Scene.constructor | src/objects/EScene.ts:30-33 | a scene holds its root alone, with no parent links |
| SceneGraph.Scene.Insert | src/objects/EObject.ts:82-86 | a new object enters the graph without parent or children, and the graph stays ranked |
| SceneGraph.Scene.Attach | src/objects/EObject.ts:166-176 | `o` becomes the last child of `p` and the graph stays ranked |
| SceneGraph.Scene.Detach | src/objects/EObject.ts:314-316 | `o` leaves its parent's list and has no parent, the graph stays ranked |
| SceneGraph.Scene.AttachAll | src/objects/EObject.ts:134-148 | the tree is the fold of the moves, and the result lists the objects whose parent was not `p` |
| SceneGraph.Scene.AttachStep | src/objects/EObject.ts:139-143 | `o` moves iff its parent is not `p`, and the rest of the fold continues from the new tree |
| SceneGraph.Scene.DetachAll | src/objects/EObject.ts:150-164 | the tree is the fold of the unlinks, and the result lists the objects that were children of `p` |
| SceneGraph.Scene.HierarchyDistanceTo | src/objects/EObject.ts:341-352 | -1 iff `a` is not an ancestor-or-self of `x`; otherwise the least number of parent steps from `x` that reaches `a` |
| SceneGraph.Scene.FindByUuid | src/objects/EObject.ts:290-299 | none iff no traversed object has the uuid; otherwise the last traversed object with it |
| Trees.PreOrderAbove | src/objects/EObject.ts:182-186 | the pre-order from `o` visits exactly `o` and its descendants |
| Trees.AttachShape | src/objects/EObject.ts:166-176 | after a move, `o` is the last child of `p` and no other node changes parent |
| Trees.AttachRanked | src/objects/EObject.ts:166-176 | moving a node below a node outside its own subtree keeps the forest acyclic and bounded |
| Trees.AttachKeepsAbove | src/objects/EObject.ts:166-176 | the ancestors of every node outside the moved subtree are unchanged |
| Trees.DetachRanked | src/objects/EObject.ts:314-316 | unlinking a node keeps the forest acyclic |
| Trees.MovedExactly | src/objects/EObject.ts:134-148 | `add`/`attach` report exactly the listed objects that had another parent or none |
| Trees.UnlinkedExactly | src/objects/EObject.ts:150-164 | `remove` reports exactly the listed objects that were children of `p` |
| Trees.AttachEachParents | src/objects/EObject.ts:134-148 | afterwards every listed object has parent `p` and every other node keeps its parent |
| Trees.DetachEachParents | src/objects/EObject.ts:150-164 | afterwards exactly the listed children of `p` have no parent |
| Trees.DistClimb | src/objects/EObject.ts:341-352 | the distance climb reaches the ancestor and no shorter climb does |
| Anchors.AnchorJsonRoundTrip | src/objects/mesh/EAnchor.ts:64-105 | loading what an anchor with a chain saved, with its effector found again, gives the same flag, shape, chain id, bones and target bone |
| Trees.ShortestClimb | src/objects/EObject.ts:341-352 | the shortest climb from `x` that reaches `a` has as many steps as the distance says |
| Trees.DistBelow | src/objects/EObject.ts:341-352 | any object in the subtree of `o` lies farther from an ancestor of `o`'s parent than that parent does |
| History.RedoUndoes | src/editor/CommandManager.ts:28-44 | undo then redo puts both stacks back, and so does redo then undo |
| History.MovesBetweenStacks | src/editor/CommandManager.ts:28-44 | undo and redo keep the same commands across the two stacks, as a multiset |
| History.UndosMove | src/editor/CommandManager.ts:28-35 | after `k` undos, the undo stack has lost its top `k` commands and they sit on the redo stack above its old entries |
| History.RedosUndoUndos | src/editor/CommandManager.ts:28-44 | `k` undos followed by `k` redos restore both stacks |
| History.RedosSnoc | src/editor/CommandManager.ts:37-44 | redoing `k + 1` times is redoing `k` times, then once more |
| History.CleansExactly | src/editor/CommandManager.ts:46-58 | clearing a stack cleans exactly the commands on it and makes no other call |
| History.ExecuteCleansRedo | src/editor/CommandManager.ts:20-26 | an undoable command is pushed and every redo entry cleaned and dropped; any other command is only done |
| History.CallLog.constructor | src/commands/Command.ts:26-28 | no command has been called yet |
| History.CommandManager.constructor | src/editor/CommandManager.ts:17-18 | both stacks start empty |
| History.CommandManager.ExecuteCommand | src/editor/CommandManager.ts:20-26 | the stacks become those of `Executed`, and the calls are `do`, then `clean` on each redo entry for an undoable command |
| History.CommandManager.Undo | src/editor/CommandManager.ts:28-35 | nothing on an empty stack; otherwise the top command is undone and moved to the redo stack |
| History.CommandManager.Redo | src/editor/CommandManager.ts:37-44 | nothing on an empty stack; otherwise the top command is done again and moved to the undo stack |
| History.CommandManager.ClearRedoHistory | src/editor/CommandManager.ts:46-51 | every redo entry is cleaned, bottom first, and the stack is emptied |
| History.CommandManager.ClearUndoHistory | src/editor/CommandManager.ts:53-58 | every undo entry is cleaned, bottom first, and the stack is emptied |
| History.CommandManager.ClearHistory | src/editor/CommandManager.ts:60-63 | the undo entries are cleaned, then the redo entries, and both stacks are empty |
| History.CommandGroup.constructor | src/commands/CommandGroup.ts:22-25 | the group holds a copy of the given list |
| History.CommandGroup.Do | src/commands/CommandGroup.ts:27-32 | `do` is called on each command, first to last |
| History.CommandGroup.Undo | src/commands/CommandGroup.ts:34-39 | as written: `undo` on the commands from the last down to the second |
| History.CommandGroup.UndoAll | src/commands/CommandGroup.ts:34-39 | as the comment intends: `undo` on every command, last to first |
| History.CommandGroup.Clean | src/commands/CommandGroup.ts:41-43 | no call is made |
| History.UndosFromOrder | src/commands/CommandGroup.ts:34-39 | the undo loop from index `from` calls `undo` on indices `|cs| - 1` down to `from`, once each |
| History.GroupUndoSkipsFirst | src/commands/CommandGroup.ts:34-39 | the group's `undo` makes `|cs| - 1` calls, in reverse order, and never undoes a first command that does not recur |
| History.GroupUndoAllReverses | src/commands/CommandGroup.ts:34-39 | the intended `undo` makes `|cs|` calls in exact reverse order, ending with the first command |
| History.GroupCopies | src/commands/CommandGroup.ts:22-25 | pushing onto the caller's array after construction leaves the group's commands as they were |
| Selection.PartMembers | src/commands/editor/SelectCommand.ts:48-54 | the split keeps exactly the given objects whose presence in the selection is as asked |
| Selection.ToggleIsSymmetricDifference | src/commands/editor/SelectCommand.ts:42-57 | the multi-selection `do` leaves selected exactly the objects that are selected or given but not both, and repeats none |
| Selection.ReselectAll | src/commands/editor/SelectCommand.ts:59-62 | the replacing `do` from the selection it recorded leaves exactly the given objects, each once |
| Selection.ReplaceUndone | src/commands/editor/SelectCommand.ts:59-68 | replacing then `undo`, from the recorded duplicate-free selection, gives it back exactly, order included |
| Selection.ToggleUndone | src/commands/editor/SelectCommand.ts:41-68 | toggling then `undo` selects the same objects as before, possibly in another order |
| Selection.Split | src/commands/editor/SelectCommand.ts:45-54 | the given objects, in order, split into those not selected and those selected |
| Selection.Toggle | src/commands/editor/SelectCommand.ts:42-57 | the selection becomes the toggled one; each given object's flag ends up true exactly when it was not selected before; each temporary anchor among the unselected ones loses its chain, and the IK manager drops those chains and no other; the scene is untouched |
| Selection.Replace | src/commands/editor/SelectCommand.ts:55-68 | unselecting one list then selecting another (the tail of the toggle, the replacing `do`, `undo`): every object of the second ends up flagged (untouched if it stayed selected), every other formerly selected object of the first is unflagged, each temporary anchor of the first loses its chain and the IK manager drops exactly those chains |
| Selection.SelectCommand.constructor | src/commands/editor/SelectCommand.ts:25-39 | keeps the objects, the mode, and a snapshot of the current selection |
| Selection.SelectCommand.Do | src/commands/editor/SelectCommand.ts:41-63 | toggles in multi-selection mode, otherwise unselects the snapshot and selects the objects; states in each mode the resulting flags of the objects and of the snapshot, which anchors lose their chains, and that the IK manager drops exactly the chains of the unselected temporary anchors; the scene is untouched |
| Selection.SelectCommand.Undo | src/commands/editor/SelectCommand.ts:65-68 | unselects the objects and selects the snapshot again: the snapshot's objects end up flagged, the other objects unflagged if they were selected, the objects' temporary anchors lose their chains and the IK manager drops exactly those chains |
| Selection.SelectLeavesHistory | src/commands/editor/SelectCommand.ts:20 | not being undoable, running it leaves both history stacks alone and only calls `do` |
| Reparent.MovableExactly | src/commands/objects/SetParentCommand.tsx:28-44 | the constructor keeps exactly the listed objects that have an EObject parent and whose subtree does not hold the new parent |
| Reparent.LiftOrders | src/commands/objects/SetParentCommand.tsx:28-60 | in the command's ghost order every link goes down and the new parent and each recorded parent rank above the kept objects |
| Reparent.Keep | src/commands/objects/SetParentCommand.tsx:28-44 | the kept objects, in order, with their parent at that moment |
| Reparent.AttachBack | src/commands/objects/SetParentCommand.tsx:55 | one object goes back below its recorded parent and the graph stays ranked |
| Reparent.ReattachedParents | src/commands/objects/SetParentCommand.tsx:51-60 | after `undo` each kept object has its recorded parent and every other node keeps its own |
| Reparent.ReattachedKeys | src/commands/objects/SetParentCommand.tsx:51-60 | `undo` keeps the set of nodes |
| Reparent.SetParentUndone | src/commands/objects/SetParentCommand.tsx:47-60 | `do` then `undo`, from the scene the command was built on, gives every node its parent back |
| Reparent.SetParentCommand.constructor | src/commands/objects/SetParentCommand.tsx:24-45 | the kept objects are the movable ones, the map holds exactly them with their current parents, and the scene can take `do` |
| Reparent.SetParentCommand.Do | src/commands/objects/SetParentCommand.tsx:47-49 | the objects move below the new parent, in order, without a cycle |
| Reparent.SetParentCommand.Undo | src/commands/objects/SetParentCommand.tsx:51-60 | each object in turn goes back below its recorded parent, without a cycle |
| Deletion.RestoredParents | src/commands/editor/DeleteObjectsCommand.ts:44-59 | after `undo` every node it moves has its parent from the recorded scene, and every other node keeps its own |
| Deletion.DeleteUndone | src/commands/editor/DeleteObjectsCommand.ts:40-59 | `do` then `undo`, from the scene the command was built on, gives every node its parent back |
| Deletion.KidRecorded | src/commands/editor/DeleteObjectsCommand.ts:33 | every child carrying an EObject is among the recorded children |
| Deletion.RestoreStep | src/commands/editor/DeleteObjectsCommand.ts:49-56 | the recorded children come back below the object unless they went with it, then the object goes back below its parent |
| Deletion.Record | src/commands/editor/DeleteObjectsCommand.ts:30-37 | exactly the objects with an EObject parent are recorded, with that parent and their EObject children |
| Deletion.RecordsRanked | src/commands/editor/DeleteObjectsCommand.ts:30-37 | in the scene's ranks every recorded parent is above its object and every object above its recorded children |
| Deletion.RecordedStep | src/commands/editor/DeleteObjectsCommand.ts:49-56 | each turn of `undo` finds its object, parent and children in the graph, ranked as recorded |
| Deletion.DeleteObjectsCommand.constructor | src/commands/editor/DeleteObjectsCommand.ts:25-38 | the records hold exactly the objects with a parent, their parent and their EObject children, and the scene can take `do` |
| Deletion.DeleteObjectsCommand.Do | src/commands/editor/DeleteObjectsCommand.ts:40-42 | the editor's `remove` of the objects, children included or not |
| Deletion.DeleteObjectsCommand.Undo | src/commands/editor/DeleteObjectsCommand.ts:44-59 | each recorded object gets its children back unless they went with it, then goes back below its parent, without a cycle |
| Addition.DetachedEachParents | src/commands/editor/AddObjectsCommand.ts:38-40 | removing objects with their children unlinks exactly those objects |
| Addition.DetachedEachDescends | src/commands/editor/AddObjectsCommand.ts:38-40 | removing objects keeps the graph acyclic in any order it was acyclic in |
| Addition.AddUndone | src/commands/editor/AddObjectsCommand.ts:34-40 | `do` then `undo` leaves the added objects without a parent and every other node with its parent |
| Addition.AddObjectsCommand.constructor | src/commands/editor/AddObjectsCommand.ts:23-32 | the parent is the given one, or the scene root |
| Addition.AddObjectsCommand.Do | src/commands/editor/AddObjectsCommand.ts:34-36 | each object not already below the parent moves below it |
| Addition.AddObjectsCommand.Undo | src/commands/editor/AddObjectsCommand.ts:38-40 | the objects are removed with their children |
| Grouping.NearestParent | src/commands/objects/GroupObjectsCommand.ts:34-45 | a chosen parent is a node from which the scene root is reached |
| Grouping.AsWrittenIsLast | src/commands/objects/GroupObjectsCommand.ts:35-45 | as written, no parent iff no object qualifies, and otherwise the parent of the last qualifying object |
| Grouping.AsWrittenPicksGroupedObject | src/commands/objects/GroupObjectsCommand.ts:35-45 | with `a` below the root and `b` below `a`, grouping `[a, b]` as written picks `a`, a grouped object, where the nearest parent is the root |
| Grouping.NearestIsNearest | src/commands/objects/GroupObjectsCommand.ts:34-45 | no parent iff no object qualifies; otherwise the parent of a qualifying object, and no qualifying parent is nearer the root |
| Grouping.NearestOutsideGroup | src/commands/objects/GroupObjectsCommand.ts:34-45 | the nearest parent never lies in the subtree of a grouped object whose parent qualifies |
| Grouping.ParentInsideGroup | src/commands/objects/GroupObjectsCommand.ts:34-57 | with `o` below a bone-like `b`, `q` below `o` and `c` below `q`, both loops pick `q`, which lies inside the subtree of `o`; the model falls back on the root |
| Grouping.ChosenNotLifted | src/commands/objects/GroupObjectsCommand.ts:34-57 | when the root has no parent, the chosen parent lies outside the subtree of every object the set-parent command moves |
| Grouping.FindGroupParent | src/commands/objects/GroupObjectsCommand.ts:34-51 | the loop with its bound lowered, plus the fallbacks: exactly `ChosenParent`, an EObject |
| Grouping.InsideGrouped | src/commands/objects/GroupObjectsCommand.ts:57 | true iff `x` lies in the subtree of a grouped object that has a parent |
| Grouping.GroupUndoLeavesGroup | src/commands/objects/GroupObjectsCommand.ts:63-69 | `do` then `undo` as written gives every other node its parent back, and the group stays below its parent |
| Grouping.GroupUndone | src/commands/objects/GroupObjectsCommand.ts:63-69 | `do` then `undo` of all three commands gives every node its parent back |
| Grouping.AddFirst | src/commands/objects/GroupObjectsCommand.ts:56 | the group can go below its parent without a cycle |
| Grouping.NewGroup | src/commands/objects/GroupObjectsCommand.ts:53-54 | a fresh group named "Group" with the given uuid |
| Grouping.Commands | src/commands/objects/GroupObjectsCommand.ts:53-60 | a new group and the add, set-parent and select commands wired to it, built on the scene as it is |
| Grouping.Prepare | src/commands/objects/GroupObjectsCommand.ts:53-60 | the group joins the graph with no parent, and when the root has no parent the scene can take the commands |
| Grouping.GroupParentBelow | src/commands/objects/GroupObjectsCommand.ts:34-57 | the chosen parent is an EObject of the graph, ranked above the group when the root has no parent |
| Grouping.Build | src/commands/objects/GroupObjectsCommand.ts:27-61 | nothing without objects; otherwise a new group named "Group" with no parent, added below the chosen parent, receiving the movable objects, and selected |
| Grouping.AddAndMove | src/commands/objects/GroupObjectsCommand.ts:63-65 | the group goes below its parent, then the objects into the group |
| Grouping.MoveBack | src/commands/objects/GroupObjectsCommand.ts:67-69 | the objects go back to their parents; the group stays |
| Grouping.MoveBackAndRemove | src/commands/objects/GroupObjectsCommand.ts:67-69 | the objects go back to their parents, then the group leaves its own |
| Grouping.DoSteps | src/commands/objects/GroupObjectsCommand.ts:63-65 | the add, set-parent and select commands in order: the tree as above and the group alone selected |
| Grouping.UndoSteps | src/commands/objects/GroupObjectsCommand.ts:67-69 | as written, the select and set-parent commands are undone: the objects go back and the old selection returns |
| Grouping.UndoAllSteps | src/commands/objects/GroupObjectsCommand.ts:67-69 | all three commands undone: the objects go back, the group leaves the scene graph, the old selection returns |
| Grouping.GroupObjectsCommand.constructor | src/commands/objects/GroupObjectsCommand.ts:27-61 | holds the editor and the command group built for it |
| Grouping.GroupObjectsCommand.Do | src/commands/objects/GroupObjectsCommand.ts:63-65 | nothing without objects; otherwise the group receives the objects below its parent and becomes the selection |
| Grouping.GroupObjectsCommand.Undo | src/commands/objects/GroupObjectsCommand.ts:67-69 | as written: the objects go back and the selection returns, the group stays below its parent |
| Grouping.GroupObjectsCommand.UndoAll | src/commands/objects/GroupObjectsCommand.ts:67-69 | as intended: the group also leaves the scene graph |
| EditorCore.AnchorChainsHeld | src/editor/Editor.ts:334-342 | each chain gathered is held by an anchor of the list |
| EditorCore.AnchorChainsAppend | src/editor/Editor.ts:331-344 | the chains of `a + b` are those of `a`, then those of `b` |
| EditorCore.AnchorChainsHas | src/editor/Editor.ts:334-342 | an anchor of the list holding a chain puts that chain among the gathered ones |
| EditorCore.RemoveOneParents | src/editor/Editor.ts:143-148 | after removing `o`, it has no parent; unless the children go with it, each EObject child of `o` has `o`'s parent; every other node keeps its parent |
| EditorCore.RemoveOneKeys | src/editor/Editor.ts:143-148 | removing keeps the set of nodes |
| EditorCore.RemoveOneDescends | src/editor/Editor.ts:143-148 | a child only ever moves up to an ancestor, so the links still go down in any ranking they went down in |
| EditorCore.RemoveStep | src/editor/Editor.ts:143-148 | one turn of `remove`, as `RemoveOne` says, keeping the graph acyclic |
| EditorCore.RemovedFromStep | src/editor/Editor.ts:142-148 | removing one more object keeps the account of every node's parent with respect to the scene before the loop |
| EditorCore.RemoveTurn | src/editor/Editor.ts:142-148 | one turn of the loop, continuing the fold and the account of parents |
| EditorCore.RemoveFrom | src/editor/Editor.ts:139-152 | the objects are removed in order: each ends without a parent, and every other node keeps its parent or moves up to a removed object's parent |
| EditorCore.SelectInto | src/editor/Editor.ts:161-178 | each object not held yet is appended, in order, and marked selected; true iff one was |
| EditorCore.Untrack | src/ik/IKManager.ts:113-118 | the tracked list loses the chain, and the graph lists it no more when it was tracked |
| EditorCore.DropChain | src/editor/Editor.ts:382-393 | true iff the anchor held a chain; afterwards it holds none, and that chain is no longer tracked or listed |
| EditorCore.SnapTemporaryChainsAdd | src/editor/Editor.ts:190-195 | marking an anchor done adds its chain exactly when it was temporary and held one |
| EditorCore.UnselectOne | src/editor/Editor.ts:184-188 | `obj` is spliced out; found iff it was there and not seen before, and then it is unselected |
| EditorCore.DropTemporary | src/editor/Editor.ts:190-195 | a temporary anchor among the objects gives up its chain, which the manager drops |
| EditorCore.SnapshotTemporaryChains | src/editor/Editor.ts:180-203 | the chains recorded for the temporary anchors of a list are those they hold |
| EditorCore.UnselectTurn | src/editor/Editor.ts:183-196 | one turn of `unselectObjects`: the selection and the chains as the two steps say |
| EditorCore.UnselectFrom | src/editor/Editor.ts:180-203 | every listed object leaves the selection, unselected when it was there; true iff one was; each listed temporary anchor drops its chain, selected or not |
| EditorCore.TraversalsMember | src/editor/Editor.ts:331-344 | an object is visited exactly when some listed object's traversal visits it |
| EditorCore.ChainsToSolve | src/editor/Editor.ts:327-349 | the chains gathered are exactly those of the anchors in the listed subtrees, each once |
| EditorCore.GatherChains | src/editor/Editor.ts:329-345 | the traversals in order, and the chains of the anchors met, each once in first-met order |
| EditorCore.GatherList | src/editor/Editor.ts:334-343 | one object's traversal adds the chains of its anchors to those gathered before |
| EditorCore.GatherNext | src/editor/Editor.ts:335-338 | meeting one object adds its anchor's chain unless it holds none or the set has it |
| EditorCore.OfferChains | src/editor/Editor.ts:264-271 | every chain held by an anchor of the list is offered to `addChain`, in order |
| EditorCore.TraversedInTree | src/editor/Editor.ts:331-344 | the traversals visit only objects of the scene graph |
| EditorCore.SolveGathered | src/editor/Editor.ts:327-349 | the gathered chains are ancestor paths and are solved as `solveChains` says |
| EditorCore.ChainForAnchor | src/editor/Editor.ts:367-380 | as `CreateIKChainForAnchor`, on the IK manager and the anchor |
| EditorCore.ResizeHeld | src/editor/Editor.ts:351-365 | as `SetIKChainSize`, on the IK manager and the anchor's chain |
| EditorCore.NewEditorObject | src/editor/Editor.ts:62-75 | a new object of the given kind and uuid, carrying the given name, neither exported nor shown in the explorer nor selected, selectable unless a scene |
| EditorCore.EditorObjects | src/editor/Editor.ts:52-75 | four distinct new objects: an empty object named "TransformGroup", an empty object named "Anchor", an ambient light named "AmbientLight" and a grid named "Grid", none exported, shown in the explorer or selected, the grid not selectable |
| EditorCore.AddBelowRoot | src/objects/EObject.ts:134-148 | `scene.add` of an object outside the scene: its parent becomes the root, it is appended to the root's children with none of its own, and the scene stays valid |
| EditorCore.FlatBelowSnoc | src/editor/Editor.ts:81-86 | hanging one more leaf below a root that holds only leaves keeps the root holding exactly the leaves, in order |
| EditorCore.AddEditorObjects | src/editor/Editor.ts:81-86 | on a scene holding only its root, the root ends holding exactly the listed objects, in order, each a leaf whose parent is the root, and the scene stays valid |
| EditorCore.NoAnchorsBelow | src/editor/Editor.ts:81-86 | a root holding only leaves, none of them an anchor, gives a scene without anchors |
| EditorCore.EditorScene | src/editor/Editor.ts:50-86 | a valid scene named "Scene" whose root holds exactly the transform group, the pivot, the ambient light and the grid, in this order, as leaves, with their names and flags; no anchor in it |
| EditorCore.EditorParts | src/editor/Editor.ts:44-57 | the scene of `EditorScene`, grid buffers of the default size and colour, an empty selection, and an IK manager over the bones that tracks no chain |
| EditorCore.Editor.constructor | src/editor/Editor.ts:44-86 | no chain tracked and nothing selected; the scene is named "Scene", and its root holds exactly the transform group, the pivot ("Anchor"), the ambient light and the grid, in that order and as leaves, all four neither exported nor shown in the explorer, the grid not selectable; the grid's buffers have the default size and colour |
| EditorCore.Editor.SelectObjects | src/editor/Editor.ts:161-178 | the objects not selected yet are appended in order and marked selected, others keep their flag; true iff one was not selected; the scene is untouched |
| EditorCore.Editor.UnselectObjects | src/editor/Editor.ts:180-203 | every listed object leaves the selection and is unselected when it was there; true iff one was; each listed temporary anchor's chain leaves the manager and the anchor |
| EditorCore.Editor.ChangeIKChains | src/editor/Editor.ts:258-272 | every tracked chain is disposed (the bone records end as disposing each tracked chain in turn leaves them), the counter reset, and every anchor chain of the scene offered to `addChain`, so no chain is tracked afterwards |
| EditorCore.Editor.GatheredPaths | src/editor/Editor.ts:327-349 | the chains gathered are ancestor paths of bones |
| EditorCore.Editor.UpdateAnchorsChainForObjects | src/editor/Editor.ts:327-349 | the chains of the anchors in the listed subtrees, each once, are handed to one `solveChains`, whose outcome is as it says |
| EditorCore.Editor.SetIKChainSize | src/editor/Editor.ts:351-365 | nothing without a chain; otherwise the chain is resized as `setChainSize` says, and the refreshed bone is the new tail when it grew and the old tail when it shrank, none when nothing changed |
| EditorCore.Editor.CreateIKChainForAnchor | src/editor/Editor.ts:367-380 | true iff the size is at least 1 and the bone is available; then the anchor is named after the bone and holds the new tracked chain; otherwise nothing changes |
| EditorCore.Editor.Remove | src/editor/Editor.ts:139-152 | the objects are removed in order, their EObject children first moving to their parent unless they go with them; the set of nodes stays and no cycle appears |
| EditorCore.Editor.Attach | src/editor/Editor.ts:132-137 | each listed object whose parent is not `parent` moves below it, in order |
| EditorCore.Editor.MakeAnchorNonTemporary | src/editor/Editor.ts:395-399 | the anchor becomes permanent, showing a sphere if it was temporary, keeps its chain, and moves below the scene root |
| EditorCore.Editor.Register | src/objects/EObject.ts:82-86 | a newly built object joins the scene graph with no parent and no children |
| EditorCore.Editor.RemoveChainFromAnchor | src/editor/Editor.ts:382-393 | true iff the anchor held a chain; afterwards it holds none and the manager no longer tracks it |
| Grid.ClampNearest | src/objects/EGrid.ts:58 | the clamped size lies in [1, 100], is the in-range size nearest the request, and equals the request iff it is in range |
| Grid.Steps | src/objects/EGrid.ts:93-102 | `k` steps fill eight slots each |
| Grid.Layout | src/objects/EGrid.ts:87-102 | the layout of size `n` fills exactly `4 + 8n` slots |
| Grid.StepsAt | src/objects/EGrid.ts:93-102 | the eight slots from `8(i - 1)` of the steps hold step `i` |
| Grid.LayoutSlots | src/objects/EGrid.ts:35-36 | a layout of at most the largest size fits the buffer, and slots `4 + 8(i - 1)` onward hold step `i` |
| Grid.LayoutSegments | src/objects/EGrid.ts:87-102 | every segment drawn runs parallel to an axis from one edge of the grid to the opposite one |
| Grid.LayoutCovers | src/objects/EGrid.ts:87-102 | every integer offset from `-n` to `n` gets a line along each axis |
| Grid.PaletteSegments | src/objects/EGrid.ts:65-82 | the colour buffer fills the whole capacity, both ends of a segment share a colour, brighter on the two axes |
| Grid.DefaultGrid | src/objects/EGrid.ts:31-33 | `new EGrid()` has size 10 and colour 0x777777, with valid buffers |
| Grid.EGrid.constructor | src/objects/EGrid.ts:31-63 | the size is the clamped request, the buffers hold the palette and the layout, the draw range covers the layout, and the rest of the position buffer is zero |
| Grid.EGrid.UpdateColors | src/objects/EGrid.ts:65-82 | the colour buffer becomes the palette of the colour |
| Grid.EGrid.UpdateVertices | src/objects/EGrid.ts:84-106 | the first `4 + 8 * size` slots hold the layout, the draw range covers exactly them and fits the buffer, and the later slots are unchanged |
| Grid.EGrid.WriteStep | src/objects/EGrid.ts:94-101 | eight more slots hold step `i`; later slots are unchanged |
| Grid.EGrid.SetColor | src/objects/EGrid.ts:112-115 | the colour changes and the colour buffer is rewritten; the positions stay |
| Grid.EGrid.SetSize | src/objects/EGrid.ts:117-120 | the size becomes the clamped request and the vertices are rewritten; slots past the new draw range and the colours stay |
| Colors.FromHex | src/objects/EGrid.ts:59 | each channel of a colour built from a hex value lies in [0, 1] |
| IoUtils.SlotListed | src/io/ioUtils.ts:32-45 | putting a list of materials back on a mesh and reading it again gives the list; it is stored as a single material exactly when it has one element |
| IoUtils.ConvertsTwice | src/io/ioUtils.ts:59-74 | converting a converted material gives it back |
| IoUtils.ConvertMaterial | src/io/ioUtils.ts:59-74 | the result is a standard material with the input's side: the input itself when it is standard, otherwise a new material with the input's colour, or the default mesh colour when it has none |
| IoUtils.ThroughShares | src/io/ioUtils.ts:34-39 | two meshes that used the same material get the same converted material |
| IoUtils.ListedInAll | src/io/ioUtils.ts:28-47 | every material of every mesh is among the materials collected |
| IoUtils.ChangedExactly | src/io/ioUtils.ts:49-56 | the returned materials are exactly the converted ones that were not standard, each listed once |
| IoUtils.ConvertList | src/io/ioUtils.ts:32-39 | the memo gains exactly the materials met for the first time, each mapped to its conversion, old entries kept; the new list is the old one taken through the memo |
| IoUtils.ThroughSnoc | src/io/ioUtils.ts:34-39 | one more material taken through a memo that only grew extends the list by its entry |
| IoUtils.ConvertAllMaterials | src/io/ioUtils.ts:24-57 | every distinct material is converted once; each mesh gets its materials through that memo; the result is the materials that changed, in order of first use |
| IoUtils.ConvertTurn | src/io/ioUtils.ts:28-47 | after mesh `i` the memo covers the materials of meshes up to `i`, those meshes are converted and the later ones untouched |
| IoUtils.ConvertMesh | src/io/ioUtils.ts:29-46 | mesh `i` gets its materials through the grown memo; no other mesh changes |
| IoUtils.MeshesSoFar | src/io/ioUtils.ts:28-47 | converting one more mesh extends the converted prefix by that mesh |
| IoUtils.ChangedOf | src/io/ioUtils.ts:49-56 | the loop over the memo collects exactly the changed materials, in the memo's order |
| IoUtils.DispatchCases | src/io/ioUtils.ts:107-136 | each case's type string selects that case; an unknown string selects the empty object; a non-fallback choice means the string was that case's |
| IoUtils.ReloadedKind | src/io/ioUtils.ts:107-136 | scenes, groups, screens, anchors, meshes, skinned meshes and bones reload as their own class; empty objects, grids and lights go through the fallback to an empty object |
| IoUtils.SetupSize | src/io/ioUtils.ts:93-142 | every loaded object is wrapped exactly once |
| IoUtils.SetupSizeAll | src/io/ioUtils.ts:138-140 | the children, wrapped one by one, have as many nodes as before |
| IoUtils.SetupRestores | src/io/ioUtils.ts:97-105 | an object whose saved data names a case comes back in that class with the saved uuid |
| IoUtils.FirstSceneIsFirst | src/io/ioUtils.ts:160-173 | the first scene of a list is a scene with none before it, and there is none exactly when the list has no scene |
| IoUtils.FirstSceneAppend | src/io/ioUtils.ts:165-170 | the first scene of two lists joined is the first list's if it has one, else the second's |
| IoUtils.FirstSceneCarriers | src/io/ioUtils.ts:165 | dropping objects that carry no EObject keeps the first scene |
| IoUtils.NoSceneBelowBare | src/io/ioUtils.ts:165-170 | no scene lies below an object that carries no EObject |
| IoUtils.BareBelow | src/io/ioUtils.ts:165-170 | every object below a bare object is bare |
| IoUtils.FindFirstSceneInPreOrder | src/io/ioUtils.ts:160-173 | `findFirstScene` returns the first scene a pre-order traversal meets, and null when there is none |
| IoUtils.FindAmongInForest | src/io/ioUtils.ts:165-172 | the loop over the children from index `i` returns the first scene of their subtrees in order |

## Left out

- CCD numerics are not modelled: quaternions, `acos`, cross products, the axis limit and the Euler clamps (`src/ik/IKChain.ts:222-293`) are floating point over three.js. A rotation of a bone is one step counted in `BoneGraph.turns`. The test that the effector already points at the target is a caller-supplied predicate `aligned`. Only the index range, the lock skip and the early exit of `solveCCDChain` are modelled.
- Chains.SolveCCDChain: states which bones turn and when the passes stop, not where the bones end up, because rotations are abstract steps.
- Console output is not modelled. This covers the warnings of `IKManager.setChainSize` (`src/ik/IKManager.ts:128`, `147`) and `createChainFromBone` (32, 38), the `console.error` of `GroupObjectsCommand` (49) and the warning of the load fallback (`src/io/ioUtils.ts:133`). The result each of these branches returns is modelled. The warnings `IKChain.setSize` returns are modelled as a `Warning` value.
- Signals (`sceneGraphUpdated`, `selectionChanged`, `ikDataUpdated`, …) and helper objects (bone helpers, the helper refresh in `Editor`) are not modelled; they only notify the user interface.
- JavaScript `Set`s (the manager's tracked chains, `solveChains`' roots and solved chains, the chains gathered by `updateAnchorsChainForObjects`) are sequences without repetitions, in insertion order, which is the order a `Set` iterates in.
- The `do`, `undo` and `clean` of commands are `async` but never awaited. They are modelled as sequential calls; no interleaving is modelled.
- SceneObjects.EObject.Copy: models `copy` without its recursive branch (`src/objects/EObject.ts:118-122`), which clones every child; the three.js `copy` of the wrapped object is reduced to the name.
- Uuids and the wrapped three.js objects are not generated: a new object's uuid is a parameter, and bones are identified by their node in the skeleton forest with `uuidOf` giving their uuid.
- World transforms are not modelled, so three.js `add` and `attach` are the same operation on the scene graph, and `Editor.add` and `Editor.attach` coincide. The `getWorldPosition(target)` call of `updateAnchorsChainForObjects` (`src/editor/Editor.ts:337`) is left out with them.
- `DeleteObjectsCommand.clean` is not modelled: it only disposes helper objects (`src/commands/editor/DeleteObjectsCommand.ts:61-68`), which are not part of this model.
- Grouping.Build: promises that the scene can take the commands (`Placed`) only when the scene root has no parent, which holds for the editor's scene: a scene cannot change parent.
- Grouping.GroupObjectsCommand.Do: requires `Ready()`, the state `Build` leaves; an edit between construction and `do` that breaks the ghost order is not covered.
- Grouping.GroupObjectsCommand.Undo: requires `Ready()` as `Do` does.
- Grouping.FindGroupParent: lowers its `distance` bound at each nearer parent, as the comment at `src/commands/objects/GroupObjectsCommand.ts:34-51` intends, where the code never lowers it (row 1 of "## Findings"); and it falls back on the scene root when the nearest parent lies inside a grouped subtree, where the source would build a cycle (row 2).
- Reparent.SetParentCommand.Do: requires `Ready()`: the scene's links go down in the ghost `order` fixed at construction. An edit in between that moves a node above one of its old ancestors is not covered; the editor's history undoes commands in reverse order, which keeps the order.
- Reparent.SetParentCommand.Undo: requires `Ready()` as `Do` does.
- Deletion.DeleteObjectsCommand.Do: requires `Ready()`, the ghost order of `SetParentCommand`.
- Deletion.DeleteObjectsCommand.Undo: requires `Ready()` as `Do` does.
- SceneGraph.Scene.AttachAll: requires that no listed object lies above the new parent. three.js would build a cycle there; every caller in the core rules it out first.
- SceneGraph.Scene.Valid requires that an object without an EObject holds only objects without one (`BareHoldsBare`). Loaded files wrap every object, and the editor never adds a bare object, so the restriction holds for every scene the core builds.
- IoUtils.ConvertAllMaterials: states that each converted material is a standard material different from its source, not that it is newly allocated. The three.js traversal is taken as its list of meshes.
- IoUtils.ConvertAllMaterials: `dispose` of the replaced materials (`src/io/ioUtils.ts:88`) is not modelled; it frees GPU memory.
- The `fromJson` pass of `setupObjectsTree` (`src/io/ioUtils.ts:149-154`) is modelled object by object (`SceneObjects.EObject.FromJson`, `Anchors.EAnchor.ApplyJson`), not as a traversal.
- Chains.IKChain.SetSize: the requested size is an integer; a fractional JavaScript number, which the source's comparisons and loops let through, is not modelled.
- Manager.IKManager.SetChainSize: the requested size is an integer, as for `IKChain.setSize`.
- EditorCore.Editor.MakeAnchorNonTemporary: requires that the anchor does not lie above the scene root, as `Attach` does; the scene root never gets a parent in the editor.
- `Editor.setScene` (`src/editor/Editor.ts:115-123`) is not modelled: the editor's scene is fixed at construction. Its effect on the IK manager is `changeIKChains`, modelled as EditorCore.Editor.ChangeIKChains; the rest sets a background colour, hangs the transform group, the pivot, the ambient light and the grid below the new root (`addEditorObjects`, modelled for the first scene as EditorCore.AddEditorObjects) and emits signals.
- Reparenting a bone object is not followed in the skeleton: `SetParentCommand` (`src/commands/objects/SetParentCommand.tsx:28-44`) and `GroupObjectsCommand` (`src/commands/objects/GroupObjectsCommand.ts:39`) do not check `canChangeParent`, so a selected bone can move in the scene graph, while the skeleton forest that the IK code reads stays as it was.
- EditorCore.Editor.constructor: the ambient light's colour (0x999999), the render camera and the editor's other modules (shortcuts, settings, helpers, tracking) are not modelled. `setupSideEffects` (`src/editor/Editor.ts:88-108`) is left out: it ties the grid's colour and size and the scene background to the user's settings and emits signals. The grid object is an object of kind `GridKind`, and its buffers are the separate field `gridBuffers`.
- Grid.EGrid.constructor: the size is an integer; a fractional size, which the source's `Math.min`/`Math.max` let through, is not modelled.
- Grid.EGrid.UpdateVertices: positions are integers and colours real numbers; the `Float32Array` rounding of the buffers is not modelled.
- Colors.FromHex: parses only the numeric form of a colour; the named and string colours three.js also accepts are not modelled, nor is three.js colour management, which converts a hex colour from sRGB to linear channels (the model keeps the sRGB channels, each `byte / 255`).

## Findings

| source | as written | input that shows it | evidently intended | confidence | as-written member | corrected member |
|---|---|---|---|---|---|---|
| src/commands/objects/GroupObjectsCommand.ts:41-42 | `distance` is never lowered, so every later qualifying parent replaces the earlier one | `a` below the scene, `b` below `a`; grouping `[a, b]` picks `a`, one of the grouped objects, so `do` attaches `a` below a group below `a` | the qualifying parent nearest the scene | not executed; high | Grouping.AsWrittenPicksGroupedObject | Grouping.NearestIsNearest |
| src/commands/objects/GroupObjectsCommand.ts:35-57 | a grouped object whose parent cannot receive children does not take part in the choice, yet is moved into the group | `o` below a bone-like `b`, `q` below `o`, `c` below `q`; grouping `[o, c]` picks `q`, inside the subtree of `o`, so `do` attaches `o` below a group below `o` | a group parent outside every grouped subtree (the model falls back on the scene) | not executed; medium | Grouping.ParentInsideGroup | Grouping.ChosenNotLifted |
| src/commands/CommandGroup.ts:36 | the undo loop stops at `i > 0`, so the first command is never undone | a group of two commands: `undo` undoes only the second | `i >= 0`: every command undone, last first | not executed; high | History.GroupUndoSkipsFirst | History.GroupUndoAllReverses |
| src/commands/objects/GroupObjectsCommand.ts:67-69 | `undo` goes through the group's `undo`, so the add command is not undone | group `[a]` below the scene, then `do` and `undo`: an empty "Group" stays below the scene | the group leaves the scene graph | not executed; medium | Grouping.GroupUndoLeavesGroup | Grouping.GroupUndone |
