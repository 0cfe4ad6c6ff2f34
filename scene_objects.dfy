/**
 * `EObject`: the editor's wrapper around a three.js object. It carries the
 * object's identity (uuid, name), the flags that tell the editor what the
 * user may do with it, and its selection state. Where the object sits in
 * the scene tree is kept by the scene graph.
 */
module SceneObjects {
  import opened BoneUtils
  import Anchors

  /**
   * The kinds of object. A bone knows its node in the skeleton forest and
   * an anchor its anchor state. `Bare` stands for a three.js object that
   * carries no EObject at all, such as the display helpers the editor hangs
   * in the tree.
   */
  datatype Kind =
    | SceneKind | GroupKind | BoneKind(node: NodeId) | AnchorKind(anchor: Anchors.EAnchor)
    | MeshKind | SkinnedMeshKind | ScreenKind | EmptyKind | GridKind
    | AmbientLightKind | PointLightKind | SpotLightKind | Bare

  /** The `type` string each kind saves; a bare object has none. */
  function TypeName(k: Kind): string {
    match k
    case SceneKind => "Scene"
    case GroupKind => "Group"
    case BoneKind(_) => "Bone"
    case AnchorKind(_) => "Anchor"
    case MeshKind => "Mesh"
    case SkinnedMeshKind => "SkinnedMesh"
    case ScreenKind => "Screen"
    case EmptyKind => "Object"
    case GridKind => "GridHelper"
    case AmbientLightKind => "EAmbientLight"
    case PointLightKind => "PointLight"
    case SpotLightKind => "SpotLight"
    case Bare => ""
  }

  /** The saved form of an object: its uuid, its type and five of its flags. */
  datatype ObjectJson = ObjectJson(
    uuid: string, typeName: string,
    isSelectable: bool, isTransformable: bool, showInExplorer: bool,
    canChangeParent: bool, canBeDeleted: bool)

  class EObject {
    const kind: Kind
    var uuid: string
    var name: string
    var isSelectable: bool
    var isTransformable: bool
    var showInExplorer: bool
    var canChangeParent: bool
    /** Fixed by the object's type: nothing changes it after construction. */
    const canReceiveChildren: bool
    var isSelected: bool
    var canBeDeleted: bool
    var canBeExported: bool

    /**
     * Every flag starts true except `isSelected`. The scene can be neither
     * selected, moved, reparented nor deleted; a bone cannot be reparented,
     * take children or be deleted. The scene is named "Scene"; every other
     * object starts unnamed.
     */
    constructor (kind: Kind, uuid: string)
      ensures this.kind == kind && this.uuid == uuid && name == (if kind.SceneKind? then "Scene" else "")
      ensures isSelectable == !kind.SceneKind? && isTransformable == !kind.SceneKind?
      ensures canChangeParent == !(kind.SceneKind? || kind.BoneKind?)
      ensures canBeDeleted == !(kind.SceneKind? || kind.BoneKind?)
      ensures canReceiveChildren == !kind.BoneKind?
      ensures showInExplorer && canBeExported && !isSelected
    {
      this.kind := kind;
      this.uuid := uuid;
      name := if kind.SceneKind? then "Scene" else "";
      isSelectable := !kind.SceneKind?;
      isTransformable := !kind.SceneKind?;
      showInExplorer := true;
      canChangeParent := !(kind.SceneKind? || kind.BoneKind?);
      this.canReceiveChildren := !kind.BoneKind?;
      isSelected := false;
      canBeDeleted := !(kind.SceneKind? || kind.BoneKind?);
      canBeExported := true;
    }

    function ToJson(): ObjectJson
      reads this
    {
      ObjectJson(uuid, TypeName(kind), isSelectable, isTransformable, showInExplorer, canChangeParent, canBeDeleted)
    }

    /**
     * `fromJson` takes back everything `toJson` saves except the type, which
     * belongs to the kind: saving afterwards gives the data back with this
     * object's type. The name, selection and `canBeExported` are kept.
     */
    method FromJson(data: ObjectJson)
      modifies this
      ensures ToJson() == data.(typeName := TypeName(kind))
      ensures name == old(name) && isSelected == old(isSelected)
      ensures canBeExported == old(canBeExported)
    {
      uuid := data.uuid;
      isSelectable := data.isSelectable;
      isTransformable := data.isTransformable;
      showInExplorer := data.showInExplorer;
      canChangeParent := data.canChangeParent;
      canBeDeleted := data.canBeDeleted;
    }

    /**
     * `copy` (without its recursive part): the name, as three.js copies it,
     * and six flags come from `source`; the uuid and `canBeDeleted` stay
     * this object's own.
     */
    method Copy(source: EObject)
      modifies this
      ensures name == old(source.name)
      ensures canBeExported == old(source.canBeExported) && isSelectable == old(source.isSelectable)
      ensures isTransformable == old(source.isTransformable) && showInExplorer == old(source.showInExplorer)
      ensures canChangeParent == old(source.canChangeParent) && isSelected == old(source.isSelected)
      ensures uuid == old(uuid) && canBeDeleted == old(canBeDeleted)
    {
      var n, e, s, t, x, c, sel := source.name, source.canBeExported, source.isSelectable,
        source.isTransformable, source.showInExplorer, source.canChangeParent, source.isSelected;
      name := n;
      canBeExported := e;
      isSelectable := s;
      isTransformable := t;
      showInExplorer := x;
      canChangeParent := c;
      isSelected := sel;
    }

    method OnSelected()
      modifies this`isSelected
      ensures isSelected
    {
      isSelected := true;
    }

    method OnUnselected()
      modifies this`isSelected
      ensures !isSelected
    {
      isSelected := false;
    }
  }

  /** Loading what one object saved into another gives the second the first one's saved fields. */
  method JsonRoundTrip(a: EObject, b: EObject)
    requires a.kind == b.kind
    modifies b
    ensures b.ToJson() == old(a.ToJson())
    ensures b.uuid == old(a.uuid) && b.isSelectable == old(a.isSelectable) && b.canBeDeleted == old(a.canBeDeleted)
  {
    var data := a.ToJson();
    b.FromJson(data);
  }
}
