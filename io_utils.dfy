/**
 * Loading helpers: the conversion of every mesh material of a loaded tree
 * to a standard material, the wrapping of each loaded three.js object in
 * the EObject its type names, and the search for the first scene.
 */
module IoUtils {
  import opened Wrappers
  import opened Seqs
  import opened Colors
  import opened Trees
  import opened SceneObjects
  import opened SceneGraph

  // ---------------------------------------------------------------------------
  // Materials
  // ---------------------------------------------------------------------------

  /** `EMesh.defaultColor`. */
  const DefaultMeshColor: Rgb := FromHex(0x777777)

  /** Which faces a material draws. */
  datatype Side = FrontSide | BackSide | DoubleSide

  /** A three.js material: whether it is a `MeshStandardMaterial`, its colour when it has one, and its side. */
  class Material {
    const isStandard: bool
    const color: Option<Rgb>
    const side: Side

    constructor (isStandard: bool, color: Option<Rgb>, side: Side)
      ensures this.isStandard == isStandard && this.color == color && this.side == side
    {
      this.isStandard := isStandard;
      this.color := color;
      this.side := side;
    }
  }

  /** `mesh.material`: one material, or an array of them. */
  datatype MaterialSlot = One(material: Material) | Many(materials: seq<Material>)

  /** `Array.isArray(mesh.material) ? mesh.material : [mesh.material]`. */
  function Listed(slot: MaterialSlot): seq<Material> {
    match slot
    case One(m) => [m]
    case Many(ms) => ms
  }

  /** What a mesh is given back: a list of one material becomes that material, any other list stays a list. */
  function Slot(ms: seq<Material>): MaterialSlot {
    if |ms| == 1 then One(ms[0]) else Many(ms)
  }

  /**
   * Listing the slot made from a list gives the list back, and the slot is
   * a single material exactly when the list has one element.
   */
  lemma SlotListed(ms: seq<Material>)
    ensures Listed(Slot(ms)) == ms
    ensures Slot(ms).One? <==> |ms| == 1
  {
  }

  class Mesh {
    var material: MaterialSlot

    constructor (material: MaterialSlot)
      ensures this.material == material
    {
      this.material := material;
    }
  }

  /**
   * `r` is what `convertMaterial` makes of `m`: a standard material with
   * `m`'s side; `m` itself when it is standard, otherwise a different
   * material holding `m`'s colour, or the default mesh colour when `m` has
   * none.
   */
  ghost predicate Converts(m: Material, r: Material) {
    && r.isStandard && r.side == m.side
    && (m.isStandard ==> r == m)
    && (!m.isStandard ==> r != m && r.color == Some(m.color.GetOr(DefaultMeshColor)))
  }

  /** Every entry of `memo` is the conversion of its key. */
  ghost predicate Sound(memo: map<Material, Material>) {
    forall m :: m in memo ==> Converts(m, memo[m])
  }

  /** Converting a converted material gives it back: conversion is idempotent. */
  lemma ConvertsTwice(m: Material, r: Material, s: Material)
    requires Converts(m, r) && Converts(r, s)
    ensures s == r
  {
  }

  /** `convertMaterial`; setting the side of a standard material to its own side changes nothing. */
  method ConvertMaterial(material: Material) returns (r: Material)
    ensures Converts(material, r)
    ensures !material.isStandard ==> fresh(r)
  {
    if material.isStandard {
      r := material;
    } else {
      r := new Material(true, Some(material.color.GetOr(DefaultMeshColor)), material.side);
    }
  }

  /** The materials of a list of slots, slot after slot. */
  function AllMaterials(slots: seq<MaterialSlot>): seq<Material>
    decreases |slots|
  {
    if slots == [] then [] else AllMaterials(slots[..|slots| - 1]) + Listed(slots[|slots| - 1])
  }

  /** The material slots of the meshes. */
  function SlotsOf(meshes: seq<Mesh>): seq<MaterialSlot>
    reads meshes
  {
    seq(|meshes|, i requires 0 <= i < |meshes| reads meshes => meshes[i].material)
  }

  /** `memo` holds every entry of `memo0`, unchanged. */
  ghost predicate Extends(memo0: map<Material, Material>, memo: map<Material, Material>) {
    forall m :: m in memo0 ==> m in memo && memo[m] == memo0[m]
  }

  /** Every material of `ms` replaced by its entry in `memo` (where `memo` has one). */
  function Through(ms: seq<Material>, memo: map<Material, Material>): (r: seq<Material>)
    ensures |r| == |ms|
  {
    seq(|ms|, i requires 0 <= i < |ms| => if ms[i] in memo then memo[ms[i]] else ms[i])
  }

  /** Each slot given back as the list of its materials taken through `memo`. */
  function Converted(slots: seq<MaterialSlot>, memo: map<Material, Material>): (r: seq<MaterialSlot>)
    ensures |r| == |slots|
  {
    seq(|slots|, k requires 0 <= k < |slots| => Slot(Through(Listed(slots[k]), memo)))
  }

  /**
   * Two positions of two lists that held the same material hold the same
   * converted material: meshes that shared a material share its
   * conversion.
   */
  lemma ThroughShares(ms: seq<Material>, ns: seq<Material>, memo: map<Material, Material>, i: int, j: int)
    requires 0 <= i < |ms| && 0 <= j < |ns| && ms[i] == ns[j]
    ensures Through(ms, memo)[i] == Through(ns, memo)[j]
  {
  }

  /** Every material of every slot is among the slots' materials. */
  lemma {:induction false} ListedInAll(slots: seq<MaterialSlot>)
    ensures forall k, m :: 0 <= k < |slots| && m in Listed(slots[k]) ==> m in AllMaterials(slots)
    decreases |slots|
  {
    if slots != [] {
      ListedInAll(slots[..|slots| - 1]);
    }
  }

  /** The source materials whose conversion is a different material, in the order of `keys`. */
  function Changed(keys: seq<Material>, memo: map<Material, Material>): seq<Material>
    requires forall m :: m in keys ==> m in memo
    decreases |keys|
  {
    if keys == [] then []
    else
      var m := keys[|keys| - 1];
      Changed(keys[..|keys| - 1], memo) + (if memo[m] != m then [m] else [])
  }

  /**
   * When every entry of `memo` is a conversion, the changed materials are
   * exactly the keys that are not standard materials, each once when the
   * keys repeat none.
   */
  lemma {:induction false} ChangedExactly(keys: seq<Material>, memo: map<Material, Material>)
    requires forall m :: m in keys ==> m in memo && Converts(m, memo[m])
    ensures forall m :: m in Changed(keys, memo) <==> m in keys && !m.isStandard
    ensures NoDup(keys) ==> NoDup(Changed(keys, memo))
    decreases |keys|
  {
    if keys != [] {
      var n := |keys| - 1;
      var m := keys[n];
      ChangedExactly(keys[..n], memo);
      assert keys == keys[..n] + [m];
      if NoDup(keys) {
        assert m !in keys[..n];
        assert NoDup(keys[..n]) by {
          assert forall i :: 0 <= i < n ==> keys[..n][i] == keys[i];
        }
      }
    }
  }

  /**
   * The inner loop of `convertAllMaterialsInTree` for one mesh: each
   * material met for the first time is converted and remembered, and the
   * list of converted materials is built from the memo.
   */
  method ConvertList(mats: seq<Material>, memo0: map<Material, Material>, keys0: seq<Material>)
      returns (newMats: seq<Material>, memo: map<Material, Material>, keys: seq<Material>)
    requires memo0.Keys == Members(keys0) && Sound(memo0)
    ensures keys == AddNew(keys0, mats) && memo.Keys == Members(keys)
    ensures Extends(memo0, memo) && Sound(memo)
    ensures newMats == Through(mats, memo)
  {
    memo, keys := memo0, keys0;
    newMats := [];
    var j := 0;
    while j < |mats|
      invariant 0 <= j <= |mats|
      invariant keys == AddNew(keys0, mats[..j]) && memo.Keys == Members(keys)
      invariant Extends(memo0, memo) && Sound(memo)
      invariant (forall k :: 0 <= k < j ==> mats[k] in memo) && newMats == Through(mats[..j], memo)
    {
      var mat := mats[j];
      AddNewNext(keys0, mats, j);
      ghost var memo1 := memo;
      if mat !in memo {
        var r := ConvertMaterial(mat);
        memo := memo[mat := r];
        keys := keys + [mat];
      }
      ThroughSnoc(mats, j, memo1, memo);
      newMats := newMats + [memo[mat]];
      j := j + 1;
    }
    assert mats[..j] == mats;
  }

  /** One material more, through a memo that only grew. */
  lemma ThroughSnoc(ms: seq<Material>, j: nat, memo0: map<Material, Material>, memo: map<Material, Material>)
    requires j < |ms| && (forall k :: 0 <= k < j ==> ms[k] in memo0) && Extends(memo0, memo) && ms[j] in memo
    ensures Through(ms[..j + 1], memo) == Through(ms[..j], memo0) + [memo[ms[j]]]
  {
  }

  /**
   * `convertAllMaterialsInTree` over the meshes the traversal meets, in its
   * order (each once, as a traversal meets them). Every distinct material
   * is converted once, in order of first use; each mesh gets its list of
   * materials through that memo, as one material when the list has one;
   * the result lists the materials whose conversion is a different
   * material, in the order the memo met them.
   */
  method ConvertAllMaterials(meshes: seq<Mesh>) returns (changed: seq<Material>, memo: map<Material, Material>)
    requires NoDup(meshes)
    modifies meshes
    ensures memo.Keys == Members(AllMaterials(old(SlotsOf(meshes))))
    ensures Sound(memo)
    ensures SlotsOf(meshes) == Converted(old(SlotsOf(meshes)), memo)
    ensures changed == Changed(Dedup(AllMaterials(old(SlotsOf(meshes)))), memo)
  {
    ghost var slots := SlotsOf(meshes);
    memo := map[];
    var keys: seq<Material> := [];
    var i := 0;
    while i < |meshes|
      invariant 0 <= i <= |meshes| && MemoOf(slots, i, memo, keys)
      invariant SlotsOf(meshes) == Converted(slots[..i], memo) + slots[i..]
    {
      memo, keys := ConvertTurn(meshes, slots, i, memo, keys);
      i := i + 1;
    }
    assert slots[..i] == slots;
    DedupMembers(AllMaterials(slots));
    changed := ChangedOf(keys, memo);
  }

  /**
   * After the first `i` meshes: `keys` lists their materials in order of
   * first use, the memo holds exactly those, each with its conversion.
   */
  ghost predicate MemoOf(slots: seq<MaterialSlot>, i: nat, memo: map<Material, Material>, keys: seq<Material>) {
    i <= |slots| && keys == AddNew([], AllMaterials(slots[..i])) && memo.Keys == Members(keys) && Sound(memo)
  }

  /** One turn of the traversal: mesh `i` converted, the meshes after it untouched. */
  method ConvertTurn(meshes: seq<Mesh>, ghost slots: seq<MaterialSlot>, i: nat, memo0: map<Material, Material>, keys0: seq<Material>)
      returns (memo: map<Material, Material>, keys: seq<Material>)
    requires i < |meshes| && NoDup(meshes) && MemoOf(slots, i, memo0, keys0)
    requires SlotsOf(meshes) == Converted(slots[..i], memo0) + slots[i..]
    modifies meshes[i]
    ensures MemoOf(slots, i + 1, memo, keys)
    ensures SlotsOf(meshes) == Converted(slots[..i + 1], memo) + slots[i + 1..]
  {
    assert meshes[i].material == slots[i] by {
      assert SlotsOf(meshes)[i] == slots[i..][0];
    }
    DedupMembers(AllMaterials(slots[..i]));
    memo, keys := ConvertMesh(meshes, i, memo0, keys0);
    MeshesSoFar(slots, i, memo0, memo);
    AddNewAppend([], AllMaterials(slots[..i]), Listed(slots[i]));
  }

  /** The body of the traversal for mesh `i`: its materials converted through the memo, and put back. */
  method ConvertMesh(meshes: seq<Mesh>, i: nat, memo0: map<Material, Material>, keys0: seq<Material>)
      returns (memo: map<Material, Material>, keys: seq<Material>)
    requires i < |meshes| && NoDup(meshes) && memo0.Keys == Members(keys0) && Sound(memo0)
    modifies meshes[i]
    ensures keys == AddNew(keys0, Listed(old(meshes[i].material))) && memo.Keys == Members(keys)
    ensures Extends(memo0, memo) && Sound(memo)
    ensures SlotsOf(meshes) == old(SlotsOf(meshes))[i := Slot(Through(Listed(old(meshes[i].material)), memo))]
  {
    var newMats;
    newMats, memo, keys := ConvertList(Listed(meshes[i].material), memo0, keys0);
    meshes[i].material := Slot(newMats);
    assert forall k :: 0 <= k < |meshes| && k != i ==> meshes[k] != meshes[i];
  }

  /**
   * One mesh more: the materials of the first `i + 1` slots are those of
   * the first `i` then those of slot `i`, and the slots already converted
   * convert the same way through a memo that only grew.
   */
  lemma MeshesSoFar(slots: seq<MaterialSlot>, i: nat, memo0: map<Material, Material>, memo: map<Material, Material>)
    requires i < |slots| && Extends(memo0, memo)
    requires Members(AllMaterials(slots[..i])) <= memo0.Keys
    ensures AllMaterials(slots[..i + 1]) == AllMaterials(slots[..i]) + Listed(slots[i])
    ensures (Converted(slots[..i], memo0) + slots[i..])[i := Slot(Through(Listed(slots[i]), memo))]
      == Converted(slots[..i + 1], memo) + slots[i + 1..]
  {
    assert slots[..i + 1][..i] == slots[..i];
    ListedInAll(slots[..i]);
    var lhs := (Converted(slots[..i], memo0) + slots[i..])[i := Slot(Through(Listed(slots[i]), memo))];
    var rhs := Converted(slots[..i + 1], memo) + slots[i + 1..];
    forall p | 0 <= p < |rhs|
      ensures lhs[p] == rhs[p]
    {
      if p < i {
        assert slots[..i][p] == slots[p] == slots[..i + 1][p];
        assert Through(Listed(slots[p]), memo0) == Through(Listed(slots[p]), memo);
      } else if p == i {
        assert slots[..i + 1][p] == slots[i];
      } else {
        assert slots[i..][p - i] == slots[p] == slots[i + 1..][p - i - 1];
      }
    }
  }

  /** The loop over the memo's entries that collects the changed materials. */
  method ChangedOf(keys: seq<Material>, memo: map<Material, Material>) returns (changed: seq<Material>)
    requires forall m :: m in keys ==> m in memo
    ensures changed == Changed(keys, memo)
  {
    changed := [];
    var k := 0;
    while k < |keys|
      invariant 0 <= k <= |keys| && changed == Changed(keys[..k], memo)
    {
      assert keys[..k + 1][..k] == keys[..k];
      if memo[keys[k]] != keys[k] {
        changed := changed + [keys[k]];
      }
      k := k + 1;
    }
    assert keys[..k] == keys;
  }

  // ---------------------------------------------------------------------------
  // Wrapping a loaded tree
  // ---------------------------------------------------------------------------

  /** The EObject classes `setupObjectsTree` can wrap an object in. */
  datatype Wrapper = EScene | EGroup | EScreen | EAnchor | EBasicMesh | ESkinnedMesh | EBone | EEmptyObject

  /** The type string each case of the dispatch matches. */
  function CaseName(w: Wrapper): string {
    match w
    case EScene => "Scene"
    case EGroup => "Group"
    case EScreen => "Screen"
    case EAnchor => "Anchor"
    case EBasicMesh => "Mesh"
    case ESkinnedMesh => "SkinnedMesh"
    case EBone => "Bone"
    case EEmptyObject => "Object3D"
  }

  /** A type no case matches: the object is put in an `EEmptyObject` with a warning. */
  predicate Unsupported(typeName: string) {
    typeName !in {"Scene", "Group", "Screen", "Anchor", "Mesh", "SkinnedMesh", "Bone", "Object3D"}
  }

  /** The `switch` on the type. */
  function WrapperFor(typeName: string): Wrapper {
    if typeName == "Scene" then EScene
    else if typeName == "Group" then EGroup
    else if typeName == "Screen" then EScreen
    else if typeName == "Anchor" then EAnchor
    else if typeName == "Mesh" then EBasicMesh
    else if typeName == "SkinnedMesh" then ESkinnedMesh
    else if typeName == "Bone" then EBone
    else EEmptyObject
  }

  /**
   * Each case's type string selects that case, and a type string selects a
   * case other than the fallback only when it is that case's string.
   */
  lemma DispatchCases(w: Wrapper, typeName: string)
    ensures WrapperFor(CaseName(w)) == w
    ensures Unsupported(typeName) ==> WrapperFor(typeName) == EEmptyObject
    ensures WrapperFor(typeName) == w && !Unsupported(typeName) ==> typeName == CaseName(w)
  {
  }

  /**
   * The type an object saves selects its own class on reload for scenes,
   * groups, screens, anchors, meshes, skinned meshes and bones. An empty
   * object saves "Object", which no case matches, so it comes back an
   * empty object through the fallback; lights and grids come back empty
   * objects as well.
   */
  lemma ReloadedKind(k: Kind)
    ensures k.SceneKind? ==> WrapperFor(TypeName(k)) == EScene
    ensures k.GroupKind? ==> WrapperFor(TypeName(k)) == EGroup
    ensures k.ScreenKind? ==> WrapperFor(TypeName(k)) == EScreen
    ensures k.AnchorKind? ==> WrapperFor(TypeName(k)) == EAnchor
    ensures k.MeshKind? ==> WrapperFor(TypeName(k)) == EBasicMesh
    ensures k.SkinnedMeshKind? ==> WrapperFor(TypeName(k)) == ESkinnedMesh
    ensures k.BoneKind? ==> WrapperFor(TypeName(k)) == EBone
    ensures (k.EmptyKind? || k.GridKind? || k.AmbientLightKind? || k.PointLightKind? || k.SpotLightKind?) ==>
      Unsupported(TypeName(k)) && WrapperFor(TypeName(k)) == EEmptyObject
  {
  }

  /** What the editor saved in `userData.esquisse`: the type and the uuid. */
  datatype Saved = Saved(typeName: string, uuid: string)

  /** A loaded three.js object: its own type and uuid, the saved data if any, and its children. */
  datatype ThreeNode = ThreeNode(typeName: string, uuid: string, saved: Option<Saved>, children: seq<ThreeNode>)

  /** A loaded object once wrapped: its EObject class, the uuid put back, and its children wrapped. */
  datatype Wrapped = Wrapped(wrapper: Wrapper, uuid: string, children: seq<Wrapped>)

  /** Saved data with a non-empty type overrides the object's own type and uuid. */
  predicate HasSavedType(n: ThreeNode) {
    n.saved.Some? && n.saved.value.typeName != ""
  }

  /** `_setupObjectsRec`: the object and, recursively, each of its children. */
  function Setup(n: ThreeNode): Wrapped
    decreases n
  {
    var typeName := if HasSavedType(n) then n.saved.value.typeName else n.typeName;
    var uuid := if HasSavedType(n) then n.saved.value.uuid else n.uuid;
    Wrapped(WrapperFor(typeName), uuid, seq(|n.children|, i requires 0 <= i < |n.children| => Setup(n.children[i])))
  }

  /** The nodes of a loaded tree. */
  function Size(n: ThreeNode): nat
    decreases n, 1
  {
    1 + SizeAll(n.children)
  }

  function SizeAll(ns: seq<ThreeNode>): nat
    decreases ns, 0
  {
    if ns == [] then 0 else SizeAll(ns[..|ns| - 1]) + Size(ns[|ns| - 1])
  }

  /** The nodes of a wrapped tree. */
  function WrappedSize(w: Wrapped): nat
    decreases w, 1
  {
    1 + WrappedSizeAll(w.children)
  }

  function WrappedSizeAll(ws: seq<Wrapped>): nat
    decreases ws, 0
  {
    if ws == [] then 0 else WrappedSizeAll(ws[..|ws| - 1]) + WrappedSize(ws[|ws| - 1])
  }

  /** Every loaded object is wrapped exactly once: the wrapped tree has as many nodes as the loaded one. */
  lemma {:induction false} SetupSize(n: ThreeNode)
    ensures WrappedSize(Setup(n)) == Size(n)
    decreases n, 1
  {
    SetupSizeAll(n.children, Setup(n).children);
  }

  lemma {:induction false} SetupSizeAll(ns: seq<ThreeNode>, ws: seq<Wrapped>)
    requires |ws| == |ns| && forall i :: 0 <= i < |ns| ==> ws[i] == Setup(ns[i])
    ensures WrappedSizeAll(ws) == SizeAll(ns)
    decreases ns, 0
  {
    if ns != [] {
      var k := |ns| - 1;
      SetupSizeAll(ns[..k], ws[..k]);
      SetupSize(ns[k]);
    }
  }

  /**
   * Saving then loading: an object whose saved data names a case comes back
   * in that class with the saved uuid, whatever its own type and uuid.
   */
  lemma SetupRestores(n: ThreeNode, w: Wrapper, uuid: string)
    requires n.saved == Some(Saved(CaseName(w), uuid))
    ensures Setup(n).wrapper == w && Setup(n).uuid == uuid
  {
  }

  // ---------------------------------------------------------------------------
  // The first scene
  // ---------------------------------------------------------------------------

  /** The first scene of a list, if any. */
  function FirstScene(s: seq<EObject>): Option<EObject> {
    if s == [] then None
    else if s[0].kind.SceneKind? then Some(s[0])
    else FirstScene(s[1..])
  }

  /** `s[k]` is a scene and no scene comes before it. */
  ghost predicate FirstSceneAt(s: seq<EObject>, k: int) {
    0 <= k < |s| && s[k].kind.SceneKind? && forall j :: 0 <= j < k ==> !s[j].kind.SceneKind?
  }

  /**
   * The first scene is a scene of the list before which no scene comes;
   * there is none exactly when the list holds no scene.
   */
  lemma {:induction false} FirstSceneIsFirst(s: seq<EObject>)
    ensures FirstScene(s).Some? ==> exists k :: FirstSceneAt(s, k) && s[k] == FirstScene(s).value
    ensures FirstScene(s).None? <==> forall k :: 0 <= k < |s| ==> !s[k].kind.SceneKind?
  {
    if s != [] && !s[0].kind.SceneKind? {
      FirstSceneIsFirst(s[1..]);
      if FirstScene(s).Some? {
        var k :| FirstSceneAt(s[1..], k) && s[1..][k] == FirstScene(s).value;
        assert s[k + 1] == s[1..][k];
        assert forall j :: 1 <= j < k + 1 ==> s[j] == s[1..][j - 1];
        assert FirstSceneAt(s, k + 1);
      } else {
        assert forall k :: 1 <= k < |s| ==> s[k] == s[1..][k - 1];
      }
    } else if s != [] {
      assert FirstSceneAt(s, 0);
    }
  }

  lemma {:induction false} FirstSceneAppend(a: seq<EObject>, b: seq<EObject>)
    ensures FirstScene(a + b) == if FirstScene(a).Some? then FirstScene(a) else FirstScene(b)
    decreases |a|
  {
    if a != [] {
      assert (a + b)[1..] == a[1..] + b;
      FirstSceneAppend(a[1..], b);
    } else {
      assert a + b == b;
    }
  }

  /** Bare objects are never scenes, so dropping them keeps the first scene. */
  lemma {:induction false} FirstSceneCarriers(s: seq<EObject>)
    ensures FirstScene(Carriers(s)) == FirstScene(s)
    decreases |s|
  {
    if s != [] {
      FirstSceneCarriers(s[1..]);
      if !s[0].kind.Bare? {
        assert Carriers(s) == [s[0]] + Carriers(s[1..]);
      } else {
        assert Carriers(s) == Carriers(s[1..]);
      }
    }
  }

  /**
   * `findFirstScene`: the object itself when it is a scene, otherwise the
   * first scene found below its children in order; a child that carries
   * no EObject is not among `children`.
   */
  function FindFirstScene(t: Tree<EObject>, ghost rank: map<EObject, nat>, ghost bound: nat, o: EObject): Option<EObject>
    requires Ranked(t, rank) && Bounded(rank, bound) && o in t.children
    decreases bound - rank[o], |t.children[o]| + 1
  {
    if o.kind.SceneKind? then Some(o) else FindAmong(t, rank, bound, o, 0)
  }

  /** The loop over `children` from index `i`. */
  function FindAmong(t: Tree<EObject>, ghost rank: map<EObject, nat>, ghost bound: nat, o: EObject, i: nat): Option<EObject>
    requires Ranked(t, rank) && Bounded(rank, bound) && o in t.children && i <= |t.children[o]|
    decreases bound - rank[o], |t.children[o]| - i
  {
    if i == |t.children[o]| then None
    else
      var c := t.children[o][i];
      assert DownLinked(t, o, i) && UpLinked(t, rank, c);
      if c.kind.Bare? then FindAmong(t, rank, bound, o, i + 1)
      else
        var r := FindFirstScene(t, rank, bound, c);
        if r.Some? then r else FindAmong(t, rank, bound, o, i + 1)
  }

  /** Below a bare object every object is bare, so no scene is there. */
  lemma {:induction false} NoSceneBelowBare(t: Tree<EObject>, rank: map<EObject, nat>, bound: nat, c: EObject)
    requires Ranked(t, rank) && Bounded(rank, bound) && BareHoldsBare(t) && c in t.children && c.kind.Bare?
    ensures FirstScene(PreOrder(t, rank, bound, c)) == None
  {
    var s := PreOrder(t, rank, bound, c);
    forall k | 0 <= k < |s|
      ensures !s[k].kind.SceneKind?
    {
      PreOrderSound(t, rank, bound, c, s[k]);
      BareBelow(t, rank, c, s[k]);
    }
    FirstSceneIsFirst(s);
  }

  lemma {:induction false} BareBelow(t: Tree<EObject>, rank: map<EObject, nat>, c: EObject, x: EObject)
    requires Ranked(t, rank) && BareHoldsBare(t) && c.kind.Bare? && x in rank && Above(t, rank, c, x)
    ensures x.kind.Bare?
    decreases rank[x]
  {
    if x != c {
      BareBelow(t, rank, c, t.parent[x]);
    }
  }

  /**
   * In a tree where bare objects hold only bare objects, `findFirstScene`
   * returns the first scene `traverse` visits from the object: the object
   * itself when it is a scene, else the first scene in pre-order below it,
   * and null when there is none.
   */
  lemma {:induction false} FindFirstSceneInPreOrder(t: Tree<EObject>, rank: map<EObject, nat>, bound: nat, o: EObject)
    requires Ranked(t, rank) && Bounded(rank, bound) && BareHoldsBare(t) && o in t.children
    ensures FindFirstScene(t, rank, bound, o) == FirstScene(Carriers(PreOrder(t, rank, bound, o)))
    decreases bound - rank[o], |t.children[o]| + 1
  {
    FirstSceneCarriers(PreOrder(t, rank, bound, o));
    FirstSceneAppend([o], Forest(t, rank, bound, o, 0));
    FindAmongInForest(t, rank, bound, o, 0);
  }

  lemma {:induction false} FindAmongInForest(t: Tree<EObject>, rank: map<EObject, nat>, bound: nat, o: EObject, i: nat)
    requires Ranked(t, rank) && Bounded(rank, bound) && BareHoldsBare(t) && o in t.children && i <= |t.children[o]|
    ensures FindAmong(t, rank, bound, o, i) == FirstScene(Forest(t, rank, bound, o, i))
    decreases bound - rank[o], |t.children[o]| - i
  {
    if i < |t.children[o]| {
      var c := t.children[o][i];
      assert DownLinked(t, o, i) && UpLinked(t, rank, c);
      FindAmongInForest(t, rank, bound, o, i + 1);
      FirstSceneAppend(PreOrder(t, rank, bound, c), Forest(t, rank, bound, o, i + 1));
      if c.kind.Bare? {
        NoSceneBelowBare(t, rank, bound, c);
      } else {
        FindFirstSceneInPreOrder(t, rank, bound, c);
        FirstSceneCarriers(PreOrder(t, rank, bound, c));
      }
    }
  }
}
