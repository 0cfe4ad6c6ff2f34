/**
 * The bone hierarchy the IK engine works on, and the helpers that walk it.
 *
 * A skinned mesh's scene graph is an arena `Forest` of nodes numbered so
 * that a parent always has a smaller number than its children. A node is
 * either a bone or some other object (the mesh, a group); only bone-to-bone
 * links matter to the skeleton helpers.
 */
module BoneUtils {
  import opened Wrappers
  import opened Seqs

  type NodeId = nat

  datatype Node = Node(isBone: bool, parent: Option<NodeId>, children: seq<NodeId>)

  type Forest = seq<Node>

  /**
   * Parent and children links agree, every link stays inside the arena,
   * parents are numbered before their children, and no child is listed twice.
   */
  predicate WellFormed(f: Forest) {
    && (forall i :: 0 <= i < |f| ==> LinkedUp(f, i))
    && (forall i, j :: 0 <= i < |f| && 0 <= j < |f[i].children| ==> LinkedDown(f, i, j))
    && (forall i :: 0 <= i < |f| ==> ChildrenDistinct(f, i))
  }

  /** Node `i` comes after its parent, which lists it as a child. */
  predicate LinkedUp(f: Forest, i: nat)
    requires i < |f|
  {
    f[i].parent.Some? ==> f[i].parent.value < i && i in f[f[i].parent.value].children
  }

  /** The `j`-th child of node `i` exists and names `i` as its parent. */
  predicate LinkedDown(f: Forest, i: nat, j: nat)
    requires i < |f| && j < |f[i].children|
  {
    f[i].children[j] < |f| && f[f[i].children[j]].parent == Some(i)
  }

  /** Node `i` lists no child twice. */
  predicate ChildrenDistinct(f: Forest, i: nat)
    requires i < |f|
  {
    NoDup(f[i].children)
  }

  predicate IsBone(f: Forest, b: NodeId) {
    b < |f| && f[b].isBone
  }

  /** The parent of a node that has one: numbered before it, and listing it as a child. */
  function ParentOf(f: Forest, b: NodeId): (p: NodeId)
    requires WellFormed(f) && b < |f| && f[b].parent.Some?
    ensures f[b].parent == Some(p) && p < b && b in f[p].children
  {
    assert LinkedUp(f, b);
    f[b].parent.value
  }

  /** The children of `b` lie in the arena, name `b` as their parent, and are distinct. */
  lemma ChildLinks(f: Forest, b: NodeId)
    requires WellFormed(f) && b < |f|
    ensures forall x :: x in f[b].children ==> x < |f| && f[x].parent == Some(b)
    ensures NoDup(f[b].children)
  {
    forall x | x in f[b].children
      ensures x < |f| && f[x].parent == Some(b)
    {
      var j :| 0 <= j < |f[b].children| && f[b].children[j] == x;
      assert LinkedDown(f, b, j);
    }
    assert ChildrenDistinct(f, b);
  }

  /**
   * `parentBone` of the skeleton helpers: the parent if it is a bone, else
   * None. It reads the parent's bone flag without checking that there is a
   * parent, so a parent must exist.
   */
  function ParentBone(f: Forest, b: NodeId): (r: Option<NodeId>)
    requires WellFormed(f) && b < |f| && f[b].parent.Some?
    ensures r.Some? ==> IsBone(f, r.value) && b in f[r.value].children
    ensures r.None? ==> !f[ParentOf(f, b)].isBone
  {
    var p := ParentOf(f, b);
    if f[p].isBone then Some(p) else None
  }

  /**
   * The parent helper the IK engine uses: like `ParentBone`, but a node
   * without any parent has no parent bone either.
   */
  function BoneParent(f: Forest, b: NodeId): (r: Option<NodeId>)
    requires WellFormed(f) && b < |f|
    ensures r.Some? ==> r.value < b && IsBone(f, r.value) && f[b].parent == Some(r.value)
    ensures r.None? ==> f[b].parent.None? || !f[ParentOf(f, b)].isBone
  {
    if f[b].parent.None? then None else ParentBone(f, b)
  }

  /** Wherever the strict helper is defined, the two helpers agree. */
  lemma ParentHelpersAgree(f: Forest, b: NodeId)
    requires WellFormed(f) && b < |f| && f[b].parent.Some?
    ensures BoneParent(f, b) == ParentBone(f, b)
  {
  }

  /** The bones among `s`, in order. */
  function FilterBones(f: Forest, s: seq<NodeId>): (r: seq<NodeId>)
    requires forall x :: x in s ==> x < |f|
    ensures forall x :: x in r ==> x in s && f[x].isBone
    ensures forall x :: x in s && f[x].isBone ==> x in r
    ensures SubsequenceOf(r, s)
    ensures NoDup(s) ==> NoDup(r)
  {
    if s == [] then []
    else
      var init := s[..|s| - 1];
      var last := s[|s| - 1];
      assert s == init + [last];
      assert last in s && forall x :: x in init ==> x in s;
      assert forall x :: x in s ==> x in init || x == last;
      var r0 := FilterBones(f, init);
      SubsequenceAppend(r0, init, last);
      if f[last].isBone then r0 + [last] else r0
  }

  /** The direct children of `b` that are bones, in children order. */
  function BoneChildren(f: Forest, b: NodeId): seq<NodeId>
    requires WellFormed(f) && b < |f|
  {
    ChildLinks(f, b);
    FilterBones(f, f[b].children)
  }

  /** The bone children are exactly the children that are bones, in children order, each once. */
  lemma BoneChildrenFacts(f: Forest, b: NodeId)
    requires WellFormed(f) && b < |f|
    ensures forall x :: x in BoneChildren(f, b) <==> x in f[b].children && IsBone(f, x)
    ensures SubsequenceOf(BoneChildren(f, b), f[b].children) && NoDup(BoneChildren(f, b))
  {
    ChildLinks(f, b);
  }

  /**
   * `childrenBones`: scans the children list and pushes every bone.
   */
  method ChildrenBones(f: Forest, b: NodeId) returns (bones: seq<NodeId>)
    requires WellFormed(f) && b < |f|
    ensures bones == BoneChildren(f, b)
  {
    ChildLinks(f, b);
    var children := f[b].children;
    assert forall j :: 0 <= j < |children| ==> children[j] in f[b].children;
    bones := [];
    var i := 0;
    while i < |children|
      invariant 0 <= i <= |children|
      invariant forall j :: 0 <= j < |children| ==> children[j] < |f|
      invariant bones == FilterBones(f, children[..i])
    {
      assert children[..i + 1][..i] == children[..i];
      if f[children[i]].isBone {
        bones := bones + [children[i]];
      }
      i := i + 1;
    }
    assert children[..i] == children;
  }

  /** A bone and its bone parent are each other's parent and child. */
  lemma ParentChildInverse(f: Forest, p: NodeId, c: NodeId)
    requires WellFormed(f) && IsBone(f, p) && IsBone(f, c)
    ensures BoneParent(f, c) == Some(p) <==> c in BoneChildren(f, p)
  {
    ChildLinks(f, p);
    if BoneParent(f, c) == Some(p) {
      assert c in f[ParentOf(f, c)].children;
    }
  }

  /** Number of bone ancestors of `b`. */
  function BoneDepth(f: Forest, b: NodeId): nat
    requires WellFormed(f) && b < |f|
    decreases b
  {
    match BoneParent(f, b)
    case None => 0
    case Some(p) => 1 + BoneDepth(f, p)
  }

  /** The bone `k` parent-bone steps above `b`, if there is one. */
  function Ancestor(f: Forest, b: NodeId, k: nat): (r: Option<NodeId>)
    requires WellFormed(f) && b < |f|
    ensures r.Some? <==> k <= BoneDepth(f, b)
    ensures r.Some? ==> r.value <= b && r.value < |f|
    ensures r.Some? && k > 0 ==> IsBone(f, r.value)
    decreases k
  {
    if k == 0 then Some(b)
    else match BoneParent(f, b)
      case None => None
      case Some(p) => Ancestor(f, p, k - 1)
  }

  /** One more step up from the `k`-th ancestor gives the `k+1`-th. */
  lemma {:induction false} AncestorStep(f: Forest, b: NodeId, k: nat)
    requires WellFormed(f) && b < |f| && Ancestor(f, b, k).Some?
    ensures Ancestor(f, b, k + 1) == BoneParent(f, Ancestor(f, b, k).value)
    decreases k
  {
    if k > 0 {
      AncestorStep(f, BoneParent(f, b).value, k - 1);
    }
  }

  /** `a` is `x` or a bone reached from `x` by parent-bone steps. */
  predicate InSubtree(f: Forest, a: NodeId, x: NodeId)
    requires WellFormed(f) && x < |f|
    decreases x
  {
    x == a || match BoneParent(f, x)
      case None => false
      case Some(p) => InSubtree(f, a, p)
  }

  /** The top-most bone above `b` (or `b` itself): the value `rootBone` computes. */
  function RootOf(f: Forest, b: NodeId): (r: NodeId)
    requires WellFormed(f) && b < |f|
    ensures r <= b
    decreases b
  {
    match BoneParent(f, b)
    case None => b
    case Some(p) => RootOf(f, p)
  }

  /**
   * `rootBone`: climbs parent bones while there is one.
   */
  method RootBone(f: Forest, b: NodeId) returns (root: NodeId)
    requires WellFormed(f) && b < |f|
    ensures root == RootOf(f, b)
    ensures root < |f| && BoneParent(f, root).None? && InSubtree(f, root, b)
  {
    root := b;
    var parent := BoneParent(f, root);
    while parent.Some?
      invariant root < |f| && parent == BoneParent(f, root)
      invariant RootOf(f, root) == RootOf(f, b)
      decreases root
    {
      root := parent.value;
      parent := BoneParent(f, root);
    }
    RootOfIsRoot(f, b);
  }

  /** The root is an ancestor-or-self of `b` and has no parent bone. */
  lemma {:induction false} RootOfIsRoot(f: Forest, b: NodeId)
    requires WellFormed(f) && b < |f|
    ensures RootOf(f, b) < |f| && BoneParent(f, RootOf(f, b)).None?
    ensures InSubtree(f, RootOf(f, b), b)
    ensures IsBone(f, b) ==> IsBone(f, RootOf(f, b))
    decreases b
  {
    match BoneParent(f, b)
    case None =>
    case Some(p) => RootOfIsRoot(f, p);
  }

  /** `rootBone` is idempotent, and fixes exactly the bones with no parent bone. */
  lemma RootOfIdempotent(f: Forest, b: NodeId)
    requires WellFormed(f) && b < |f|
    ensures RootOf(f, RootOf(f, b)) == RootOf(f, b)
    ensures RootOf(f, b) == b <==> BoneParent(f, b).None?
  {
    RootOfIsRoot(f, b);
  }

  /** Ancestors-or-self of one node all climb to the same root. */
  lemma {:induction false} SubtreeSharesRoot(f: Forest, a: NodeId, x: NodeId)
    requires WellFormed(f) && a < |f| && x < |f| && InSubtree(f, a, x)
    ensures RootOf(f, a) == RootOf(f, x)
    decreases x
  {
    if x != a {
      SubtreeSharesRoot(f, a, BoneParent(f, x).value);
    }
  }

  /**
   * `rootBones`: the skeleton bones whose parent is not a bone, in skeleton
   * order. Every skeleton bone must have a parent (the strict helper is used).
   */
  function RootBones(f: Forest, skeleton: seq<NodeId>): (r: seq<NodeId>)
    requires WellFormed(f)
    requires forall b :: b in skeleton ==> b < |f| && f[b].parent.Some?
    ensures forall b :: b in r ==> b in skeleton && ParentBone(f, b).None?
    ensures forall b :: b in skeleton && ParentBone(f, b).None? ==> b in r
    ensures SubsequenceOf(r, skeleton)
  {
    if skeleton == [] then []
    else
      assert skeleton[0] in skeleton && forall b :: b in skeleton[1..] ==> b in skeleton;
      assert forall b :: b in skeleton ==> b == skeleton[0] || b in skeleton[1..];
      var rest := RootBones(f, skeleton[1..]);
      if ParentBone(f, skeleton[0]).None? then [skeleton[0]] + rest
      else
        assert skeleton == [skeleton[0]] + skeleton[1..];
        SubsequenceCons(rest, skeleton[1..], skeleton[0]);
        rest
  }
}
