/**
 * `EAnchor`: the scene object a user drags to pull an IK chain. It holds the
 * chain (or none), a display shape with its geometry, and whether it is a
 * temporary anchor made for one manipulation.
 *
 * The anchor's common object fields (uuid, flags) and the lookup of the
 * effector bone by uuid belong to the scene tree; here the bone found is a
 * parameter. Bones are identified by their node in the skeleton forest, and
 * `uuidOf` gives each bone's uuid.
 */
module Anchors {
  import opened Wrappers
  import opened BoneUtils
  import opened Chains
  import Manager

  datatype Shape = NoShape | Sphere | Box | Circle

  /** The shared geometries the shapes display. */
  datatype Geometry = EmptyGeometry | SphereGeometry | BoxGeometry | CircleGeometry

  /** The geometry `setShape` installs for each shape; no shape shows the empty geometry. */
  function GeometryOf(s: Shape): Geometry {
    match s
    case Sphere => SphereGeometry
    case Circle => CircleGeometry
    case Box => BoxGeometry
    case NoShape => EmptyGeometry
  }

  /** Each shape has its own geometry, so the geometry tells the shape back. */
  lemma GeometryTellsShape(a: Shape, b: Shape)
    ensures GeometryOf(a) == GeometryOf(b) <==> a == b
    ensures GeometryOf(a) == EmptyGeometry <==> a == NoShape
  {
  }

  /** The saved form of a chain: its size, the uuid of its effector and its id. */
  datatype ChainJson = ChainJson(size: int, effectorUUID: string, id: int)

  /** The anchor-specific part of the saved form. */
  datatype AnchorJson = AnchorJson(isTemporary: bool, shape: Shape, ikChain: Option<ChainJson>)

  class EAnchor {
    var chain: Option<IKChain>
    var shape: Shape
    var geometry: Geometry
    var temporary: bool

    /** A new anchor has no chain and no shape, and shows an empty geometry. */
    constructor (temporary: bool)
      ensures chain.None? && shape == NoShape && geometry == EmptyGeometry && this.temporary == temporary
    {
      chain := None;
      shape := NoShape;
      geometry := EmptyGeometry;
      this.temporary := temporary;
    }

    /** `toJson`: the flags, the shape, and the chain's record exactly when there is a chain. */
    function ToJson(uuidOf: NodeId -> string): (r: AnchorJson)
      reads this, if chain.Some? then {chain.value} else {}
    {
      AnchorJson(temporary, shape,
        match chain
        case None => None
        case Some(c) => Some(ChainJson(c.Size(), if c.bones == [] then "" else uuidOf(c.bones[0]), c.id)))
    }

    /** `targetBone`: the chain's head bone, or none without a chain. */
    function TargetBone(): (r: Option<NodeId>)
      reads this, if chain.Some? then {chain.value} else {}
    {
      if chain.Some? && chain.value.bones != [] then Some(chain.value.bones[0]) else None
    }

    /** `setShape`: stores the shape and shows its geometry. */
    method SetShape(s: Shape)
      modifies this
      ensures shape == s && geometry == GeometryOf(s)
      ensures chain == old(chain) && temporary == old(temporary)
    {
      shape := s;
      geometry := GeometryOf(s);
    }

    /** `setAsNonTemporary`: a temporary anchor becomes permanent and shows a sphere; otherwise nothing changes. */
    method SetAsNonTemporary()
      modifies this
      ensures old(temporary) ==> !temporary && shape == Sphere && geometry == SphereGeometry && chain == old(chain)
      ensures !old(temporary) ==> unchanged(this)
    {
      if temporary {
        temporary := false;
        SetShape(Sphere);
      }
    }

    /**
     * The anchor part of `fromJson`: takes the flag and the shape as saved
     * (the geometry is not refreshed), and when a chain was saved rebuilds
     * it from the effector bone found for its uuid, directly as a new
     * chain that no manager tracks. A missing bone is an error; without a
     * saved chain the current chain is kept.
     */
    method ApplyJson(g: BoneGraph, data: AnchorJson, effector: Option<NodeId>) returns (error: bool)
      requires g.Valid() && (effector.Some? ==> IsBone(g.nodes, effector.value))
      modifies this, g`ik
      ensures temporary == data.isTemporary && shape == data.shape && geometry == old(geometry)
      ensures error <==> data.ikChain.Some? && effector.None?
      ensures data.ikChain.None? ==> chain == old(chain) && g.ik == old(g.ik)
      ensures data.ikChain.Some? && effector.Some? ==>
        && chain.Some? && fresh(chain.value) && chain.value.id == data.ikChain.value.id
        && var r := Resize(g.nodes, Register(old(g.ik), effector.value, chain.value), chain.value, [effector.value], data.ikChain.value.size);
          chain.value.bones == r.bones && g.ik == r.ik
      ensures g.Valid()
    {
      temporary := data.isTemporary;
      shape := data.shape;
      error := false;
      if data.ikChain.Some? {
        if effector.Some? {
          var c := new IKChain(data.ikChain.value.id, g, effector.value, data.ikChain.value.size);
          chain := Some(c);
        } else {
          error := true;
        }
      }
    }
  }

  /** Two ancestor paths from the same bone with the same length are the same path. */
  lemma PathsAgree(f: Forest, s: seq<NodeId>, t: seq<NodeId>)
    requires WellFormed(f) && AncestorPath(f, s) && AncestorPath(f, t)
    requires s[0] == t[0] && |s| == |t|
    ensures s == t
  {
    forall k | 0 <= k < |s|
      ensures s[k] == t[k]
    {
      Manager.PathAncestor(f, s, 0, k);
      Manager.PathAncestor(f, t, 0, k);
    }
  }

  /**
   * Saving a chain and loading it back rebuilds the same bones: a new chain
   * on the saved effector, resized to the saved size, climbs exactly the
   * ancestors the saved chain held.
   */
  lemma ChainRoundTrip(f: Forest, ik: IkMap, c: IKChain, bones: seq<NodeId>)
    requires WellFormed(f) && AncestorPath(f, bones)
    ensures Resize(f, Register(ik, bones[0], c), c, [bones[0]], |bones| - 1).bones == bones
  {
    var e := bones[0];
    var ik1 := Register(ik, e, c);
    var size := |bones| - 1;
    assert AncestorPath(f, [e]);
    Manager.PathAncestor(f, bones, 0, size);
    var r := Resize(f, ik1, c, [e], size);
    if size >= 1 {
      ResizeShape(f, ik1, c, [e], size);
      GrowShape(f, ik1, c, [e], size);
      PathsAgree(f, r.bones, bones);
    }
  }

  /**
   * Saving an anchor that holds a chain and loading the record into another
   * anchor, with the effector bone found again for the saved uuid, gives
   * the second anchor the flag, the shape, and a chain with the same id and
   * bones, so the same target bone.
   */
  method AnchorJsonRoundTrip(g: BoneGraph, a: EAnchor, b: EAnchor, uuidOf: NodeId -> string)
    requires g.Valid() && a != b && a.chain.Some? && AncestorPath(g.nodes, a.chain.value.bones)
    modifies b, g`ik
    ensures b.temporary == old(a.temporary) && b.shape == old(a.shape)
    ensures b.chain.Some? && b.chain.value.id == old(a.chain.value.id)
    ensures b.chain.value.bones == old(a.chain.value.bones)
    ensures b.TargetBone() == old(a.TargetBone())
  {
    var data := a.ToJson(uuidOf);
    var bones := a.chain.value.bones;
    var error := b.ApplyJson(g, data, Some(bones[0]));
    ChainRoundTrip(g.nodes, old(g.ik), b.chain.value, bones);
  }
}
