/**
 * IK chains: a chain is a bottom-up path of bones, from its effector (the
 * head, index 0) up to its tail. Every bone of a chain lists the chain in its
 * `ik` side record, and the chain grows and shrinks one bone at a time from
 * the tail end, keeping those lists in step.
 *
 * The side records of all bones live in `BoneGraph.ik`, a map from bone to
 * `IKBoneData`; chains are heap objects, so a list of chains holds
 * references. Rotations done by the CCD solver are counted in
 * `BoneGraph.turns`, one step per rotation of a bone.
 */
module Chains {
  import opened Wrappers
  import opened Seqs
  import opened Augments
  import opened BoneUtils

  /** The `ik` record of a bone: the chains through it and its lock flag. */
  datatype IKBoneData = IKBoneData(chains: seq<IKChain>, locked: bool)

  /** The two warnings `setSize` emits. */
  datatype Warning = MinSize | NotEnoughBones(requested: int, actual: int)

  type IkMap = map<NodeId, IKBoneData>

  /** Occurrences of chain `c` in the list of bone `b` (0 for a bone without a record). */
  function CountAt(ik: IkMap, b: NodeId, c: IKChain): nat {
    if b in ik then Count(ik[b].chains, c) else 0
  }

  /** Every chain that some bone lists. */
  function ListedIn(ik: IkMap): set<IKChain> {
    set b, c | b in ik && c in ik[b].chains :: c
  }

  lemma ListedByCount(ik: IkMap, c: IKChain, b: NodeId)
    requires CountAt(ik, b, c) > 0
    ensures c in ListedIn(ik)
  {
    assert c in ik[b].chains;
  }

  lemma UnlistedCount(ik: IkMap, c: IKChain, b: NodeId)
    requires c !in ListedIn(ik)
    ensures CountAt(ik, b, c) == 0
  {
    assert b in ik && c in ik[b].chains ==> c in ListedIn(ik);
  }

  /** `s` runs from a bone upward through successive parent bones. */
  predicate AncestorPath(f: Forest, s: seq<NodeId>)
    requires WellFormed(f)
  {
    && |s| >= 1
    && (forall i :: 0 <= i < |s| ==> IsBone(f, s[i]))
    && (forall i :: 0 <= i < |s| - 1 ==> BoneParent(f, s[i]) == Some(s[i + 1]))
  }

  /** Chain `c` is listed exactly once by each bone of `s` and by no other bone. */
  ghost predicate Registered(ik: IkMap, c: IKChain, s: seq<NodeId>) {
    forall b: NodeId :: CountAt(ik, b, c) == if b in s then 1 else 0
  }

  /** A chain whose bones form an ancestor path and whose bone lists agree with it. */
  ghost predicate LiveChain(f: Forest, ik: IkMap, c: IKChain, s: seq<NodeId>)
    requires WellFormed(f)
  {
    AncestorPath(f, s) && Registered(ik, c, s)
  }

  /** Going up a path strictly lowers the node number, so a path never repeats a bone. */
  lemma {:induction false} PathDecreasing(f: Forest, s: seq<NodeId>, i: nat, j: nat)
    requires WellFormed(f) && AncestorPath(f, s) && i < j < |s|
    ensures s[j] < s[i]
    decreases j - i
  {
    if j > i + 1 {
      PathDecreasing(f, s, i + 1, j);
    }
  }

  lemma PathNoDup(f: Forest, s: seq<NodeId>)
    requires WellFormed(f) && AncestorPath(f, s)
    ensures NoDup(s)
  {
    forall i, j | 0 <= i < j < |s|
      ensures s[i] != s[j]
    {
      PathDecreasing(f, s, i, j);
    }
  }

  /** A bone of a path does not occur further up the path. */
  lemma PathFreshAbove(f: Forest, s: seq<NodeId>, i: nat)
    requires WellFormed(f) && AncestorPath(f, s) && i < |s|
    ensures s[i] !in s[i + 1..]
  {
    forall j | i < j < |s|
      ensures s[j] != s[i]
    {
      PathDecreasing(f, s, i, j);
    }
  }

  /** The tail of a path is its smallest bone. */
  lemma PathAboveTail(f: Forest, s: seq<NodeId>, p: NodeId)
    requires WellFormed(f) && AncestorPath(f, s) && p < s[|s| - 1]
    ensures p !in s
  {
    forall i | 0 <= i < |s| - 1
      ensures s[i] != p
    {
      PathDecreasing(f, s, i, |s| - 1);
    }
  }

  /** The last element of `s` is its least. */
  predicate TailIsLeast(s: seq<NodeId>) {
    |s| >= 1 && forall i :: 0 <= i < |s| ==> s[|s| - 1] <= s[i]
  }

  /** An ancestor path climbs, so its tail is its least bone. */
  lemma PathTailLeast(f: Forest, s: seq<NodeId>)
    requires WellFormed(f) && AncestorPath(f, s)
    ensures TailIsLeast(s)
  {
    forall i | 0 <= i < |s| - 1
      ensures s[|s| - 1] <= s[i]
    {
      PathDecreasing(f, s, i, |s| - 1);
    }
  }

  /** A path extends by the parent bone of its tail, which is new to it. */
  lemma PathExtend(f: Forest, s: seq<NodeId>, p: NodeId)
    requires WellFormed(f) && AncestorPath(f, s) && BoneParent(f, s[|s| - 1]) == Some(p)
    ensures AncestorPath(f, s + [p]) && p !in s
  {
    var t := s + [p];
    forall i | 0 <= i < |t|
      ensures IsBone(f, t[i])
    {
      if i < |s| {
        assert t[i] == s[i];
      }
    }
    forall i | 0 <= i < |t| - 1
      ensures BoneParent(f, t[i]) == Some(t[i + 1])
    {
      assert t[i] == s[i];
      if i < |s| - 1 {
        assert t[i + 1] == s[i + 1];
      }
    }
    PathAboveTail(f, s, p);
  }

  /**
   * Pushes `c` onto the list of `b`, first giving `b` a fresh record
   * (unlocked, empty list) when it has none.
   */
  function Register(ik: IkMap, b: NodeId, c: IKChain): IkMap {
    var data := if b in ik then ik[b] else IKBoneData([], false);
    ik[b := data.(chains := data.chains + [c])]
  }

  /** Registering gives `b` a record (a new one unlocked), keeps the other flags, and counts `c` once more at `b`. */
  lemma RegisterFacts(ik: IkMap, b: NodeId, c: IKChain)
    ensures var r := Register(ik, b, c);
      && r.Keys == ik.Keys + {b}
      && CountAt(r, b, c) == CountAt(ik, b, c) + 1
      && (forall x :: x in ik ==> r[x].locked == ik[x].locked)
      && (b !in ik ==> !r[b].locked)
  {
    var data := if b in ik then ik[b] else IKBoneData([], false);
    assert multiset(data.chains + [c]) == multiset(data.chains) + multiset{c};
  }

  /** After registering, `c` is listed and no other chain appears or disappears. */
  lemma RegisterListed(ik: IkMap, b: NodeId, c: IKChain)
    ensures ListedIn(Register(ik, b, c)) == ListedIn(ik) + {c}
  {
    var r := Register(ik, b, c);
    var data := if b in ik then ik[b] else IKBoneData([], false);
    assert multiset(data.chains + [c]) == multiset(data.chains) + multiset{c};
    assert c in r[b].chains;
    forall d | d in ListedIn(r)
      ensures d in ListedIn(ik) + {c}
    {
      var x :| x in r && d in r[x].chains;
      if x != b || d != c {
        assert CountAt(r, x, d) > 0;
        ListedByCount(ik, d, x);
      }
    }
    forall d | d in ListedIn(ik)
      ensures d in ListedIn(r)
    {
      var x :| x in ik && d in ik[x].chains;
      assert CountAt(ik, x, d) > 0;
      assert CountAt(r, x, d) >= CountAt(ik, x, d) by {
        if x == b {
          assert multiset(data.chains + [c]) == multiset(data.chains) + multiset{c};
        }
      }
      ListedByCount(r, d, x);
    }
  }

  /** Registering touches only the count of `c` at `b`. */
  lemma RegisterCount(ik: IkMap, b: NodeId, c: IKChain, x: NodeId, d: IKChain)
    requires x != b || d != c
    ensures CountAt(Register(ik, b, c), x, d) == CountAt(ik, x, d)
  {
    var data := if b in ik then ik[b] else IKBoneData([], false);
    assert multiset(data.chains + [c]) == multiset(data.chains) + multiset{c};
  }

  lemma RegisterCounts(ik: IkMap, b: NodeId, c: IKChain)
    ensures forall x, d :: (x != b || d != c) ==> CountAt(Register(ik, b, c), x, d) == CountAt(ik, x, d)
  {
    var data := if b in ik then ik[b] else IKBoneData([], false);
    assert multiset(data.chains + [c]) == multiset(data.chains) + multiset{c};
  }

  /**
   * Removes the first occurrence of `c` from the list of `b`; a bone without
   * a record is left alone.
   */
  function Unregister(ik: IkMap, b: NodeId, c: IKChain): IkMap {
    if b !in ik then ik
    else ik[b := ik[b].(chains := RemoveFirst(ik[b].chains, c))]
  }

  /** Unregistering keeps every record and flag, and counts `c` once less at `b` (never below zero). */
  lemma UnregisterFacts(ik: IkMap, b: NodeId, c: IKChain)
    ensures var r := Unregister(ik, b, c);
      && r.Keys == ik.Keys
      && CountAt(r, b, c) == (if CountAt(ik, b, c) > 0 then CountAt(ik, b, c) - 1 else 0)
      && (forall x :: x in ik ==> r[x].locked == ik[x].locked)
  {
    if b in ik {
      RemoveFirstCounts(ik[b].chains, c, c);
    }
  }

  /** Unregistering never lists a new chain and can only unlist `c` itself. */
  lemma UnregisterListed(ik: IkMap, b: NodeId, c: IKChain)
    ensures ListedIn(Unregister(ik, b, c)) <= ListedIn(ik)
    ensures ListedIn(ik) - {c} <= ListedIn(Unregister(ik, b, c))
  {
    if b in ik {
      var r := Unregister(ik, b, c);
      forall d | d in ListedIn(r)
        ensures d in ListedIn(ik)
      {
        var x :| x in r && d in r[x].chains;
        if x == b {
          RemoveFirstCounts(ik[b].chains, c, d);
        }
        assert CountAt(r, x, d) > 0;
        ListedByCount(ik, d, x);
      }
      forall d | d in ListedIn(ik) && d != c
        ensures d in ListedIn(r)
      {
        var x :| x in ik && d in ik[x].chains;
        assert CountAt(ik, x, d) > 0;
        if x == b {
          RemoveFirstCounts(ik[b].chains, c, d);
        }
        ListedByCount(r, d, x);
      }
    }
  }

  /** Unregistering touches only the count of `c` at `b`. */
  lemma UnregisterCount(ik: IkMap, b: NodeId, c: IKChain, x: NodeId, d: IKChain)
    requires x != b || d != c
    ensures CountAt(Unregister(ik, b, c), x, d) == CountAt(ik, x, d)
  {
    if b in ik {
      RemoveFirstCounts(ik[b].chains, c, d);
    }
  }

  lemma UnregisterCounts(ik: IkMap, b: NodeId, c: IKChain)
    ensures forall x, d :: (x != b || d != c) ==> CountAt(Unregister(ik, b, c), x, d) == CountAt(ik, x, d)
  {
    if b in ik {
      forall d {
        RemoveFirstCounts(ik[b].chains, c, d);
      }
    }
  }

  /** Marks the record of `b` locked (a bone without a record is left alone); lists are untouched. */
  function Lock(ik: IkMap, b: NodeId): (r: IkMap)
    ensures r.Keys == ik.Keys && (b in ik ==> r[b].locked)
    ensures forall x :: x in ik && x != b ==> r[x] == ik[x]
    ensures forall x :: x in r ==> r[x].chains == ik[x].chains
  {
    if b !in ik then ik
    else
      var r := ik[b := ik[b].(locked := true)];
      assert forall x :: x in r ==> r[x].chains == ik[x].chains;
      r
  }

  /** Locking lists exactly the chains listed before. */
  lemma LockListed(ik: IkMap, b: NodeId)
    ensures ListedIn(Lock(ik, b)) == ListedIn(ik)
  {
    var r := Lock(ik, b);
    forall d | d in ListedIn(r) ensures d in ListedIn(ik) {
      var x :| x in r && d in r[x].chains;
      assert d in ik[x].chains;
    }
    forall d | d in ListedIn(ik) ensures d in ListedIn(r) {
      var x :| x in ik && d in ik[x].chains;
      assert d in r[x].chains;
    }
  }

  /* ---------------------------------------------------------------------- */
  /* Resizing, stated on values                                             */

  /** Bones and bone records after a resize, and whether the growth completed. */
  datatype Growth = Growth(bones: seq<NodeId>, ik: IkMap, complete: bool)

  /**
   * Growth by `k` bones from the tail: each step pushes the tail's parent
   * bone onto the path and registers the chain with it, and growth stops,
   * incomplete, at a bone without a parent bone.
   */
  function Grow(f: Forest, ik: IkMap, c: IKChain, bones: seq<NodeId>, k: nat): (r: Growth)
    requires WellFormed(f) && bones != [] && bones[|bones| - 1] < |f|
    decreases k
  {
    if k == 0 then Growth(bones, ik, true)
    else match BoneParent(f, bones[|bones| - 1])
      case None => Growth(bones, ik, false)
      case Some(p) => Grow(f, Register(ik, p, c), c, bones + [p], k - 1)
  }

  /** One step of growth: stop at a bone without a parent bone, otherwise push the parent. */
  lemma GrowStep(f: Forest, ik: IkMap, c: IKChain, bones: seq<NodeId>, k: nat)
    requires WellFormed(f) && bones != [] && bones[|bones| - 1] < |f| && k > 0
    ensures match BoneParent(f, bones[|bones| - 1])
      case None => Grow(f, ik, c, bones, k) == Growth(bones, ik, false)
      case Some(p) => Grow(f, ik, c, bones, k) == Grow(f, Register(ik, p, c), c, bones + [p], k - 1)
  {
  }

  /** Shrinking by `k` bones: pops the tail and unregisters the chain from it, `k` times. */
  function Shrink(ik: IkMap, c: IKChain, bones: seq<NodeId>, k: nat): (r: Growth)
    requires k < |bones|
    ensures r.bones == bones[..|bones| - k]
    decreases k
  {
    if k == 0 then Growth(bones, ik, true)
    else Shrink(Unregister(ik, bones[|bones| - 1], c), c, bones[..|bones| - 1], k - 1)
  }

  /** The outcome of `setSize`: new bones and records, the result flag and the warning. */
  datatype Resized = Resized(changed: bool, bones: seq<NodeId>, ik: IkMap, warning: Option<Warning>)

  /**
   * `setSize(size)` on a chain with the given bones: below 1 is refused
   * with a warning; the current size changes nothing; a larger size grows
   * (warning, but still reporting a change, when the root is reached); a
   * smaller one shrinks.
   */
  function Resize(f: Forest, ik: IkMap, c: IKChain, bones: seq<NodeId>, size: int): Resized
    requires WellFormed(f) && bones != [] && bones[|bones| - 1] < |f|
  {
    var current := |bones| - 1;
    if size < 1 then Resized(false, bones, ik, Some(MinSize))
    else if size == current then Resized(false, bones, ik, None)
    else if size > current then
      var g := Grow(f, ik, c, bones, size - current);
      Resized(true, g.bones, g.ik, if g.complete then None else Some(NotEnoughBones(size, |g.bones| - 1)))
    else
      var s := Shrink(ik, c, bones, current - size);
      Resized(true, s.bones, s.ik, None)
  }

  /** Growth only appends: the old bones are a prefix of the new ones. */
  lemma {:induction false} GrowPrefix(f: Forest, ik: IkMap, c: IKChain, bones: seq<NodeId>, k: nat)
    requires WellFormed(f) && bones != [] && bones[|bones| - 1] < |f|
    ensures bones <= Grow(f, ik, c, bones, k).bones
    decreases k
  {
    if k > 0 {
      match BoneParent(f, bones[|bones| - 1])
      case None =>
      case Some(p) =>
        var s := bones + [p];
        var g := Grow(f, Register(ik, p, c), c, s, k - 1);
        GrowPrefix(f, Register(ik, p, c), c, s, k - 1);
        assert forall i :: 0 <= i < |bones| ==> g.bones[i] == s[i] == bones[i];
    }
  }

  /** Growth appends as many bones as requested, or as many as the tail has bone ancestors. */
  lemma {:induction false} GrowLength(f: Forest, ik: IkMap, c: IKChain, bones: seq<NodeId>, k: nat)
    requires WellFormed(f) && bones != [] && bones[|bones| - 1] < |f|
    ensures var g := Grow(f, ik, c, bones, k); var depth := BoneDepth(f, bones[|bones| - 1]);
      && |g.bones| == |bones| + (if k <= depth then k else depth)
      && (g.complete <==> k <= depth)
    decreases k
  {
    if k > 0 {
      var t := bones[|bones| - 1];
      match BoneParent(f, t)
      case None =>
      case Some(p) =>
        var s := bones + [p];
        assert s[|s| - 1] == p;
        GrowLength(f, Register(ik, p, c), c, s, k - 1);
    }
  }

  /** Growth extends an ancestor path along parent links, so the result is one too. */
  lemma {:induction false} GrowPath(f: Forest, ik: IkMap, c: IKChain, bones: seq<NodeId>, k: nat)
    requires WellFormed(f) && AncestorPath(f, bones)
    ensures AncestorPath(f, Grow(f, ik, c, bones, k).bones)
    decreases k
  {
    if k > 0 {
      match BoneParent(f, bones[|bones| - 1])
      case None =>
      case Some(p) =>
        PathExtend(f, bones, p);
        GrowPath(f, Register(ik, p, c), c, bones + [p], k - 1);
    }
  }

  /** The bones growth appends are exactly the next ancestors, as many as exist. */
  lemma GrowShape(f: Forest, ik: IkMap, c: IKChain, bones: seq<NodeId>, k: nat)
    requires WellFormed(f) && AncestorPath(f, bones)
    ensures var g := Grow(f, ik, c, bones, k);
      && bones <= g.bones
      && AncestorPath(f, g.bones)
      && |g.bones| == |bones| + (if k <= BoneDepth(f, bones[|bones| - 1]) then k else BoneDepth(f, bones[|bones| - 1]))
      && (g.complete <==> k <= BoneDepth(f, bones[|bones| - 1]))
  {
    GrowPrefix(f, ik, c, bones, k);
    GrowLength(f, ik, c, bones, k);
    GrowPath(f, ik, c, bones, k);
  }

  /** Growth leaves the entries of every other chain where they were, and keeps existing records' flags. */
  lemma {:induction false} GrowOthers(f: Forest, ik: IkMap, c: IKChain, bones: seq<NodeId>, k: nat)
    requires WellFormed(f) && bones != [] && bones[|bones| - 1] < |f|
    ensures var g := Grow(f, ik, c, bones, k);
      && ik.Keys <= g.ik.Keys
      && (forall x :: x in ik ==> g.ik[x].locked == ik[x].locked)
      && (forall x :: x in g.ik && x !in ik ==> !g.ik[x].locked && x in g.bones)
      && ListedIn(g.ik) <= ListedIn(ik) + {c}
      && (forall x, d :: d != c ==> CountAt(g.ik, x, d) == CountAt(ik, x, d))
    decreases k
  {
    if k > 0 {
      match BoneParent(f, bones[|bones| - 1])
      case None =>
      case Some(p) =>
        RegisterFacts(ik, p, c);
        RegisterCounts(ik, p, c);
        RegisterListed(ik, p, c);
        GrowOthers(f, Register(ik, p, c), c, bones + [p], k - 1);
        GrowPrefix(f, Register(ik, p, c), c, bones + [p], k - 1);
        var g := Grow(f, ik, c, bones, k);
        assert bones + [p] <= g.bones;
        assert p in g.bones by {
          assert g.bones[|bones|] == p;
        }
    }
  }

  /** Growth registers the chain once with each appended bone and with nothing else. */
  lemma {:induction false} GrowOwn(f: Forest, ik: IkMap, c: IKChain, bones: seq<NodeId>, k: nat, x: NodeId)
    requires WellFormed(f) && TailIsLeast(bones) && bones[|bones| - 1] < |f|
    ensures var g := Grow(f, ik, c, bones, k);
      CountAt(g.ik, x, c) == CountAt(ik, x, c) + (if x in g.bones && x !in bones then 1 else 0)
    decreases k
  {
    var g := Grow(f, ik, c, bones, k);
    if k == 0 {
      assert g.bones == bones && g.ik == ik;
    } else {
      match BoneParent(f, bones[|bones| - 1])
      case None =>
        assert g.bones == bones && g.ik == ik;
      case Some(p) =>
        var s := bones + [p];
        assert p !in bones by {
          forall i | 0 <= i < |bones|
            ensures bones[i] != p
          {
          }
        }
        assert TailIsLeast(s) by {
          forall i | 0 <= i < |s|
            ensures s[|s| - 1] <= s[i]
          {
            if i < |bones| {
              assert s[i] == bones[i];
            }
          }
        }
        var ik1 := Register(ik, p, c);
        var g1 := Grow(f, ik1, c, s, k - 1);
        GrowStep(f, ik, c, bones, k);
        GrowOwn(f, ik1, c, s, k - 1, x);
        GrowPrefix(f, ik1, c, s, k - 1);
        GrowOwnStep(ik, c, bones, p, g1.bones, g1.ik, x);
    }
  }

  /** The count bookkeeping of one growth step: pushing `p` registers the chain there once. */
  lemma GrowOwnStep(ik: IkMap, c: IKChain, bones: seq<NodeId>, p: NodeId, gBones: seq<NodeId>, gIk: IkMap, x: NodeId)
    requires p !in bones && bones + [p] <= gBones
    requires CountAt(gIk, x, c) ==
      CountAt(Register(ik, p, c), x, c) + (if x in gBones && x !in bones + [p] then 1 else 0)
    ensures CountAt(gIk, x, c) == CountAt(ik, x, c) + (if x in gBones && x !in bones then 1 else 0)
  {
    var s := bones + [p];
    RegisterFacts(ik, p, c);
    if x != p {
      RegisterCount(ik, p, c, x, c);
      assert x in s <==> x in bones;
    } else {
      assert s[|s| - 1] == p && gBones[|s| - 1] == p;
    }
  }

  /** Shrinking leaves the entries of every other chain where they were. */
  lemma {:induction false} ShrinkOthers(ik: IkMap, c: IKChain, bones: seq<NodeId>, k: nat)
    requires k < |bones|
    ensures var s := Shrink(ik, c, bones, k);
      && s.ik.Keys == ik.Keys
      && (forall x :: x in ik ==> s.ik[x].locked == ik[x].locked)
      && ListedIn(s.ik) <= ListedIn(ik)
      && (forall x, d :: d != c ==> CountAt(s.ik, x, d) == CountAt(ik, x, d))
    decreases k
  {
    if k > 0 {
      UnregisterFacts(ik, bones[|bones| - 1], c);
      UnregisterCounts(ik, bones[|bones| - 1], c);
      UnregisterListed(ik, bones[|bones| - 1], c);
      ShrinkOthers(Unregister(ik, bones[|bones| - 1], c), c, bones[..|bones| - 1], k - 1);
    }
  }

  /** Shrinking unregisters the chain once from each popped bone and from nothing else. */
  lemma {:induction false} ShrinkOwn(ik: IkMap, c: IKChain, bones: seq<NodeId>, k: nat, x: NodeId)
    requires k < |bones| && NoDup(bones)
    ensures var s := Shrink(ik, c, bones, k);
      CountAt(s.ik, x, c) ==
        if x in bones[|bones| - k..] && CountAt(ik, x, c) > 0 then CountAt(ik, x, c) - 1 else CountAt(ik, x, c)
    decreases k
  {
    if k > 0 {
      var t := bones[|bones| - 1];
      var init := bones[..|bones| - 1];
      var ik1 := Unregister(ik, t, c);
      assert NoDup(init) by {
        assert forall i :: 0 <= i < |init| ==> init[i] == bones[i];
      }
      ShrinkOwn(ik1, c, init, k - 1, x);
      UnregisterFacts(ik, t, c);
      if x != t {
        UnregisterCount(ik, t, c, x, c);
      }
      assert bones[|bones| - k..] == init[|init| - (k - 1)..] + [t];
      assert t !in init[|init| - (k - 1)..] by {
        forall i | |init| - (k - 1) <= i < |init|
          ensures init[i] != t
        {
          assert init[i] == bones[i];
        }
      }
    }
  }

  /**
   * The properties `setSize` promises: refusal and the equal size change
   * nothing; otherwise the size becomes the request, or as much of it as
   * there are ancestors, with the warning exactly in the short case; the
   * head never moves; growth only appends and shrinking only pops.
   */
  lemma ResizeShape(f: Forest, ik: IkMap, c: IKChain, bones: seq<NodeId>, size: int)
    requires WellFormed(f) && AncestorPath(f, bones)
    ensures var r := Resize(f, ik, c, bones, size);
      var current := |bones| - 1;
      var depth := BoneDepth(f, bones[|bones| - 1]);
      && (r.changed <==> size >= 1 && size != current)
      && (!r.changed ==> r.bones == bones && r.ik == ik)
      && (size < 1 ==> r.warning == Some(MinSize))
      && (size >= 1 ==> |r.bones| - 1 == (if size <= current + depth then size else current + depth))
      && (size >= 1 && r.warning.Some? <==> size > current + depth)
      && (r.warning.Some? && size >= 1 ==> r.warning == Some(NotEnoughBones(size, |r.bones| - 1)))
      && (size >= current ==> bones <= r.bones)
      && (size < current ==> r.bones <= bones)
      && AncestorPath(f, r.bones) && r.bones[0] == bones[0]
  {
    var current := |bones| - 1;
    if size > current {
      GrowShape(f, ik, c, bones, size - current);
    } else if 1 <= size < current {
      var r := Resize(f, ik, c, bones, size);
      assert AncestorPath(f, r.bones) by {
        assert forall i :: 0 <= i < |r.bones| ==> r.bones[i] == bones[i];
      }
    }
  }

  /** Growing a live chain keeps it live. */
  lemma GrowLive(f: Forest, ik: IkMap, c: IKChain, bones: seq<NodeId>, k: nat)
    requires WellFormed(f) && LiveChain(f, ik, c, bones)
    ensures var g := Grow(f, ik, c, bones, k);
      LiveChain(f, g.ik, c, g.bones)
  {
    var g := Grow(f, ik, c, bones, k);
    GrowShape(f, ik, c, bones, k);
    PathTailLeast(f, bones);
    forall x
      ensures CountAt(g.ik, x, c) == if x in g.bones then 1 else 0
    {
      GrowOwn(f, ik, c, bones, k, x);
      assert CountAt(ik, x, c) == if x in bones then 1 else 0;
      if x in bones {
        var i :| 0 <= i < |bones| && bones[i] == x;
        assert g.bones[i] == x;
      }
    }
  }

  /** After shrinking, a bone that carried the chain once exactly when it was a chain bone still does so. */
  lemma ShrinkLiveAt(ik: IkMap, c: IKChain, bones: seq<NodeId>, k: nat, x: NodeId)
    requires k < |bones| && NoDup(bones)
    requires CountAt(ik, x, c) == if x in bones then 1 else 0
    ensures var s := Shrink(ik, c, bones, k);
      CountAt(s.ik, x, c) == if x in s.bones then 1 else 0
  {
    var s := Shrink(ik, c, bones, k);
    var popped := bones[|bones| - k..];
    assert bones == s.bones + popped;
    ShrinkOwn(ik, c, bones, k, x);
    if x in popped {
      var i :| |bones| - k <= i < |bones| && bones[i] == x;
      forall j | 0 <= j < |s.bones|
        ensures s.bones[j] != x
      {
        assert bones[j] == s.bones[j];
      }
    }
  }

  /** Shrinking a live chain keeps it live. */
  lemma ShrinkLive(f: Forest, ik: IkMap, c: IKChain, bones: seq<NodeId>, k: nat)
    requires WellFormed(f) && LiveChain(f, ik, c, bones) && k < |bones|
    ensures var s := Shrink(ik, c, bones, k);
      LiveChain(f, s.ik, c, s.bones)
  {
    var s := Shrink(ik, c, bones, k);
    assert AncestorPath(f, s.bones) by {
      assert forall i :: 0 <= i < |s.bones| ==> s.bones[i] == bones[i];
    }
    PathNoDup(f, bones);
    forall x
      ensures CountAt(s.ik, x, c) == if x in s.bones then 1 else 0
    {
      ShrinkLiveAt(ik, c, bones, k, x);
    }
  }

  /** A live chain stays live through a resize. */
  lemma ResizeLive(f: Forest, ik: IkMap, c: IKChain, bones: seq<NodeId>, size: int)
    requires WellFormed(f) && LiveChain(f, ik, c, bones)
    ensures var r := Resize(f, ik, c, bones, size);
      LiveChain(f, r.ik, c, r.bones)
  {
    var current := |bones| - 1;
    if size > current {
      GrowLive(f, ik, c, bones, size - current);
    } else if 1 <= size < current {
      ShrinkLive(f, ik, c, bones, current - size);
    }
  }

  /** A resize moves no other chain's entries and lists no new chain but this one. */
  lemma ResizeOthers(f: Forest, ik: IkMap, c: IKChain, bones: seq<NodeId>, size: int)
    requires WellFormed(f) && bones != [] && bones[|bones| - 1] < |f|
    ensures var r := Resize(f, ik, c, bones, size);
      && (forall x, d :: d != c ==> CountAt(r.ik, x, d) == CountAt(ik, x, d))
      && ListedIn(r.ik) <= ListedIn(ik) + {c}
      && ik.Keys <= r.ik.Keys
      && (forall x :: x in r.ik && x !in ik ==> x in r.bones)
  {
    var current := |bones| - 1;
    if size > current {
      GrowOthers(f, ik, c, bones, size - current);
    } else if 1 <= size < current {
      ShrinkOthers(ik, c, bones, current - size);
    }
  }

  /** Bone records after unregistering `c` from every bone of `s`, first to last. */
  function UnregisterAll(ik: IkMap, c: IKChain, s: seq<NodeId>): IkMap
    decreases |s|
  {
    if s == [] then ik else Unregister(UnregisterAll(ik, c, s[..|s| - 1]), s[|s| - 1], c)
  }

  /** `dispose` leaves the entries of every other chain where they were. */
  lemma {:induction false} DisposeOthers(ik: IkMap, c: IKChain, s: seq<NodeId>)
    ensures var r := UnregisterAll(ik, c, s);
      && r.Keys == ik.Keys
      && (forall x :: x in ik ==> r[x].locked == ik[x].locked)
      && ListedIn(r) <= ListedIn(ik)
      && (forall x, d :: d != c ==> CountAt(r, x, d) == CountAt(ik, x, d))
    decreases |s|
  {
    if s != [] {
      DisposeOthers(ik, c, s[..|s| - 1]);
      UnregisterFacts(UnregisterAll(ik, c, s[..|s| - 1]), s[|s| - 1], c);
      UnregisterCounts(UnregisterAll(ik, c, s[..|s| - 1]), s[|s| - 1], c);
      UnregisterListed(UnregisterAll(ik, c, s[..|s| - 1]), s[|s| - 1], c);
    }
  }

  /** `dispose` unregisters the chain once from each of its bones and from nothing else. */
  lemma {:induction false} DisposeOwn(ik: IkMap, c: IKChain, s: seq<NodeId>)
    requires NoDup(s)
    ensures var r := UnregisterAll(ik, c, s);
      forall x :: CountAt(r, x, c) == if x in s && CountAt(ik, x, c) > 0 then CountAt(ik, x, c) - 1 else CountAt(ik, x, c)
    decreases |s|
  {
    if s != [] {
      var init := s[..|s| - 1];
      assert NoDup(init) by {
        assert forall i :: 0 <= i < |init| ==> init[i] == s[i];
      }
      DisposeOwn(ik, c, init);
      UnregisterFacts(UnregisterAll(ik, c, init), s[|s| - 1], c);
      UnregisterCounts(UnregisterAll(ik, c, init), s[|s| - 1], c);
      assert s == init + [s[|s| - 1]];
      assert s[|s| - 1] !in init;
    }
  }

  /** Disposing a live chain unlists it and only it. */
  lemma DisposeLive(f: Forest, ik: IkMap, c: IKChain, s: seq<NodeId>)
    requires WellFormed(f) && LiveChain(f, ik, c, s)
    ensures ListedIn(UnregisterAll(ik, c, s)) == ListedIn(ik) - {c}
  {
    PathNoDup(f, s);
    DisposeOwn(ik, c, s);
    DisposeOthers(ik, c, s);
    var r := UnregisterAll(ik, c, s);
    forall x | x in r
      ensures c !in r[x].chains
    {
      assert CountAt(r, x, c) == 0;
    }
    forall d | d in ListedIn(ik) && d != c
      ensures d in ListedIn(r)
    {
      var x :| x in ik && d in ik[x].chains;
      assert CountAt(ik, x, d) > 0;
      ListedByCount(r, d, x);
    }
  }

  /* ---------------------------------------------------------------------- */
  /* CCD control skeleton                                                   */

  /** Whether the record of `b` is locked; a missing flag reads as unlocked. */
  function Locked(ik: IkMap, b: NodeId): bool {
    b in ik && ik[b].locked
  }

  /** The highest index the solver rotates: the tail is skipped when locked. */
  function StartIndex(bones: seq<NodeId>, lockTail: bool): int {
    if lockTail then |bones| - 2 else |bones| - 1
  }

  /** One rotation step applied to bone `b`. */
  function Bump(turns: seq<nat>, b: NodeId): (r: seq<nat>)
    requires b < |turns|
    ensures |r| == |turns| && r[b] == turns[b] + 1
    ensures forall x :: 0 <= x < |turns| && x != b ==> r[x] == turns[x]
  {
    turns[b := turns[b] + 1]
  }

  datatype PassResult = PassResult(turns: seq<nat>, rotated: bool)

  /**
   * One CCD pass over indices `j` down to 1: a bone that is locked, or whose
   * correction angle is negligible (`aligned`), is skipped; any other bone
   * is rotated one step.
   */
  function Pass(ik: IkMap, c: IKChain, bones: seq<NodeId>, j: int, turns: seq<nat>,
                aligned: (IKChain, seq<nat>, NodeId) -> bool): (r: PassResult)
    requires j < |bones| && forall i :: 0 <= i < |bones| ==> bones[i] < |turns|
    ensures |r.turns| == |turns|
    decreases j
  {
    if j <= 0 then PassResult(turns, false)
    else
      var b := bones[j];
      if Locked(ik, b) || aligned(c, turns, b) then Pass(ik, c, bones, j - 1, turns, aligned)
      else PassResult(Pass(ik, c, bones, j - 1, Bump(turns, b), aligned).turns, true)
  }

  /** `iterations` passes from the start index, stopping early after a pass that rotates nothing. */
  function CCD(ik: IkMap, c: IKChain, bones: seq<NodeId>, lockTail: bool, turns: seq<nat>,
               iterations: int, aligned: (IKChain, seq<nat>, NodeId) -> bool): (r: seq<nat>)
    requires forall i :: 0 <= i < |bones| ==> bones[i] < |turns|
    ensures |r| == |turns|
    decreases if iterations < 0 then 0 else iterations
  {
    if iterations <= 0 then turns
    else
      var p := Pass(ik, c, bones, StartIndex(bones, lockTail), turns, aligned);
      if !p.rotated then p.turns
      else CCD(ik, c, bones, lockTail, p.turns, iterations - 1, aligned)
  }

  /**
   * What `solve` does to the graph: a chain whose tail is a skeleton root
   * locks that tail's record, then three CCD iterations run on the result.
   */
  function SolveEffect(f: Forest, ik: IkMap, turns: seq<nat>, c: IKChain, bones: seq<NodeId>, lockTail: bool,
                       aligned: (IKChain, seq<nat>, NodeId) -> bool): (IkMap, seq<nat>)
    requires WellFormed(f) && AncestorPath(f, bones) && |turns| == |f|
  {
    var t := bones[|bones| - 1];
    var ik1 := if RootOf(f, t) == t then Lock(ik, t) else ik;
    (ik1, CCD(ik1, c, bones, lockTail, turns, 3, aligned))
  }

  /** The bones the solver may rotate: unlocked bones at indices 1 to the start index. */
  function Movable(ik: IkMap, bones: seq<NodeId>, lockTail: bool): set<NodeId> {
    set j | 1 <= j <= StartIndex(bones, lockTail) && j < |bones| && !Locked(ik, bones[j]) :: bones[j]
  }

  /** A pass rotates each movable bone at most once and touches nothing else; it reports a rotation iff it made one. */
  lemma {:induction false} PassTouches(ik: IkMap, c: IKChain, bones: seq<NodeId>, j: int, turns: seq<nat>,
                                       aligned: (IKChain, seq<nat>, NodeId) -> bool, x: NodeId)
    requires j < |bones| && NoDup(bones) && forall i :: 0 <= i < |bones| ==> bones[i] < |turns|
    requires x < |turns|
    ensures var r := Pass(ik, c, bones, j, turns, aligned);
      && (x !in (set i | 1 <= i <= j :: bones[i]) || Locked(ik, x) ==> r.turns[x] == turns[x])
      && turns[x] <= r.turns[x] <= turns[x] + 1
      && (!r.rotated ==> r.turns == turns)
    decreases j
  {
    if j > 0 {
      var b := bones[j];
      var s := set i | 1 <= i <= j - 1 :: bones[i];
      assert (set i | 1 <= i <= j :: bones[i]) == s + {b};
      assert b !in s by {
        forall i | 1 <= i <= j - 1
          ensures bones[i] != b
        {
        }
      }
      if Locked(ik, b) || aligned(c, turns, b) {
        PassTouches(ik, c, bones, j - 1, turns, aligned, x);
      } else {
        var t := Bump(turns, b);
        PassTouches(ik, c, bones, j - 1, t, aligned, x);
        if x == b {
          // b is rotated here and sits at no lower index, so the rest of the pass leaves it
          assert x !in s;
        }
      }
    }
  }

  /** Only movable bones turn, each by at most one step per iteration. */
  lemma {:induction false} CCDTouches(ik: IkMap, c: IKChain, bones: seq<NodeId>, lockTail: bool, turns: seq<nat>,
                                      iterations: int, aligned: (IKChain, seq<nat>, NodeId) -> bool, x: NodeId)
    requires NoDup(bones) && forall i :: 0 <= i < |bones| ==> bones[i] < |turns|
    requires x < |turns|
    ensures var r := CCD(ik, c, bones, lockTail, turns, iterations, aligned);
      && (x !in Movable(ik, bones, lockTail) ==> r[x] == turns[x])
      && turns[x] <= r[x] <= turns[x] + (if iterations < 0 then 0 else iterations)
    decreases if iterations < 0 then 0 else iterations
  {
    if iterations > 0 {
      var start := StartIndex(bones, lockTail);
      var p := Pass(ik, c, bones, start, turns, aligned);
      PassTouches(ik, c, bones, start, turns, aligned, x);
      forall i | 1 <= i <= start && !Locked(ik, bones[i])
        ensures bones[i] in Movable(ik, bones, lockTail)
      {
      }
      if p.rotated {
        CCDTouches(ik, c, bones, lockTail, p.turns, iterations - 1, aligned, x);
      }
    }
  }

  /** The solver never rotates the effector, a locked bone, or a locked tail. */
  lemma SolverSkips(f: Forest, ik: IkMap, c: IKChain, bones: seq<NodeId>, lockTail: bool, turns: seq<nat>,
                    iterations: int, aligned: (IKChain, seq<nat>, NodeId) -> bool)
    requires WellFormed(f) && AncestorPath(f, bones) && forall i :: 0 <= i < |bones| ==> bones[i] < |turns|
    ensures var r := CCD(ik, c, bones, lockTail, turns, iterations, aligned);
      && r[bones[0]] == turns[bones[0]]
      && (forall x :: x in bones && Locked(ik, x) ==> r[x] == turns[x])
      && (lockTail ==> r[bones[|bones| - 1]] == turns[bones[|bones| - 1]])
  {
    PathNoDup(f, bones);
    var r := CCD(ik, c, bones, lockTail, turns, iterations, aligned);
    CCDTouches(ik, c, bones, lockTail, turns, iterations, aligned, bones[0]);
    assert bones[0] !in Movable(ik, bones, lockTail) by {
      forall j | 1 <= j < |bones|
        ensures bones[j] != bones[0]
      {
      }
    }
    forall x | x in bones && Locked(ik, x)
      ensures r[x] == turns[x]
    {
      CCDTouches(ik, c, bones, lockTail, turns, iterations, aligned, x);
    }
    if lockTail {
      var t := bones[|bones| - 1];
      CCDTouches(ik, c, bones, lockTail, turns, iterations, aligned, t);
      assert t !in Movable(ik, bones, lockTail) by {
        forall j | 0 <= j < |bones| - 1
          ensures bones[j] != t
        {
        }
      }
    }
  }

  /** Once a pass rotates nothing, solving again (any number of iterations) changes nothing. */
  lemma CCDStill(ik: IkMap, c: IKChain, bones: seq<NodeId>, lockTail: bool, turns: seq<nat>,
                 iterations: int, aligned: (IKChain, seq<nat>, NodeId) -> bool)
    requires NoDup(bones) && forall i :: 0 <= i < |bones| ==> bones[i] < |turns|
    requires !Pass(ik, c, bones, StartIndex(bones, lockTail), turns, aligned).rotated
    ensures CCD(ik, c, bones, lockTail, turns, iterations, aligned) == turns
  {
    if iterations > 0 && |turns| > 0 {
      PassTouches(ik, c, bones, StartIndex(bones, lockTail), turns, aligned, 0);
    }
  }

  /* ---------------------------------------------------------------------- */
  /* Heap state                                                             */

  /**
   * The bones of a skinned mesh together with their `ik` records and the
   * rotation counters the solver advances.
   */
  class BoneGraph {
    const nodes: Forest
    var ik: IkMap
    var turns: seq<nat>

    constructor (nodes: Forest)
      requires WellFormed(nodes)
      ensures this.nodes == nodes && ik == map[] && |turns| == |nodes|
      ensures Valid() && Listed() == {}
    {
      this.nodes := nodes;
      ik := map[];
      turns := seq(|nodes|, _ => 0);
    }

    /** Every chain some bone lists. */
    function Listed(): set<IKChain>
      reads this
    {
      ListedIn(ik)
    }

    /** Records sit on bones only, and every listed chain is live. */
    ghost predicate Valid()
      reads this, Listed()`bones
    {
      && WellFormed(nodes)
      && |turns| == |nodes|
      && (forall b :: b in ik ==> IsBone(nodes, b))
      && (forall c :: c in Listed() ==> LiveChain(nodes, ik, c, c.bones))
    }
  }

  /** A live chain is listed (on its head, at least). */
  lemma LiveIsListed(f: Forest, ik: IkMap, c: IKChain, s: seq<NodeId>)
    requires WellFormed(f) && LiveChain(f, ik, c, s)
    ensures c in ListedIn(ik)
  {
    assert CountAt(ik, s[0], c) == 1;
    ListedByCount(ik, c, s[0]);
  }

  /**
   * The graph is valid again after its records changed from `ik0` in ways
   * that touch only the entries of `c`, when `c` is live or unlisted.
   */
  lemma ValidAfter(g: BoneGraph, ik0: IkMap, c: IKChain)
    requires WellFormed(g.nodes) && |g.turns| == |g.nodes|
    requires forall b :: b in g.ik ==> IsBone(g.nodes, b)
    requires ListedIn(g.ik) <= ListedIn(ik0) + {c}
    requires forall d :: d in ListedIn(ik0) && d != c ==> LiveChain(g.nodes, ik0, d, d.bones)
    requires forall x, d :: d != c ==> CountAt(g.ik, x, d) == CountAt(ik0, x, d)
    requires c in ListedIn(g.ik) ==> LiveChain(g.nodes, g.ik, c, c.bones)
    ensures g.Valid()
  {
    forall d | d in g.Listed() && d != c
      ensures LiveChain(g.nodes, g.ik, d, d.bones)
    {
      assert LiveChain(g.nodes, ik0, d, d.bones);
      forall x ensures CountAt(g.ik, x, d) == CountAt(ik0, x, d) {
      }
    }
  }

  /** A resize of a live chain `c` of a valid graph leaves the graph valid, with `c` listed. */
  lemma ResizeKeepsValid(g: BoneGraph, ik0: IkMap, c: IKChain, bones0: seq<NodeId>, size: int)
    requires WellFormed(g.nodes) && |g.turns| == |g.nodes|
    requires forall b :: b in ik0 ==> IsBone(g.nodes, b)
    requires LiveChain(g.nodes, ik0, c, bones0)
    requires forall d :: d in ListedIn(ik0) && d != c ==> LiveChain(g.nodes, ik0, d, d.bones)
    requires var r := Resize(g.nodes, ik0, c, bones0, size); g.ik == r.ik && c.bones == r.bones
    ensures g.Valid() && g.Listed() == ListedIn(ik0) + {c}
  {
    var r := Resize(g.nodes, ik0, c, bones0, size);
    ResizeLive(g.nodes, ik0, c, bones0, size);
    LiveIsListed(g.nodes, r.ik, c, r.bones);
    ResizeOthers(g.nodes, ik0, c, bones0, size);
    ResizeShape(g.nodes, ik0, c, bones0, size);
    ValidAfter(g, ik0, c);
    forall d | d in ListedIn(ik0) && d != c
      ensures d in g.Listed()
    {
      var x :| x in ik0 && d in ik0[x].chains;
      assert CountAt(ik0, x, d) > 0;
      ListedByCount(g.ik, d, x);
    }
  }

  /** Disposing a live chain `c` of a valid graph leaves the graph valid, with `c` unlisted. */
  lemma DisposeKeepsValid(g: BoneGraph, ik0: IkMap, c: IKChain, s: seq<NodeId>)
    requires WellFormed(g.nodes) && |g.turns| == |g.nodes|
    requires forall b :: b in ik0 ==> IsBone(g.nodes, b)
    requires LiveChain(g.nodes, ik0, c, s)
    requires forall d :: d in ListedIn(ik0) && d != c ==> LiveChain(g.nodes, ik0, d, d.bones)
    requires g.ik == UnregisterAll(ik0, c, s)
    ensures g.Valid() && g.Listed() == ListedIn(ik0) - {c}
  {
    DisposeLive(g.nodes, ik0, c, s);
    DisposeOthers(ik0, c, s);
    ValidAfter(g, ik0, c);
  }

  /** A bottom-up chain of bones: `bones[0]` is the effector (head), the last bone the tail. */
  class IKChain {
    const id: int
    var bones: seq<NodeId>
    var lockTail: bool

    /**
     * Lists the new chain on the effector (creating its record when
     * missing), starts from `[effector]`, then applies `SetSize(size)`.
     */
    constructor (id: int, g: BoneGraph, effector: NodeId, size: int)
      requires g.Valid() && IsBone(g.nodes, effector)
      modifies g`ik
      ensures this.id == id && !lockTail
      ensures var r := Resize(g.nodes, Register(old(g.ik), effector, this), this, [effector], size);
        bones == r.bones && g.ik == r.ik
      ensures g.Valid() && g.Listed() == old(g.Listed()) + {this}
    {
      this.id := id;
      bones := [effector];
      lockTail := false;
      new;
      ghost var ik0 := g.ik;
      assert this !in ListedIn(ik0);
      forall x ensures CountAt(ik0, x, this) == 0 {
        UnlistedCount(ik0, this, x);
      }
      RegisterListed(ik0, effector, this);
      RegisterCounts(ik0, effector, this);
      g.ik := Register(g.ik, effector, this);
      forall x ensures CountAt(g.ik, x, this) == if x in bones then 1 else 0 {
        if x != effector {
          RegisterCount(ik0, effector, this, x, this);
        }
      }
      ValidAfter(g, ik0, this);
      var changed, warning := SetSize(g, size);
    }

    function Size(): int
      reads this
    {
      |bones| - 1
    }

    function Head(): NodeId
      requires bones != []
      reads this
    {
      bones[0]
    }

    function Tail(): NodeId
      requires bones != []
      reads this
    {
      bones[|bones| - 1]
    }

    /** `dispose`: removes this chain from the list of each of its bones. */
    method Dispose(g: BoneGraph)
      requires g.Valid() && this in g.Listed()
      modifies g`ik
      ensures g.ik == UnregisterAll(old(g.ik), this, bones)
      ensures g.Valid() && g.Listed() == old(g.Listed()) - {this}
    {
      ghost var ik0 := g.ik;
      assert LiveChain(g.nodes, ik0, this, bones);
      var i := 0;
      while i < |bones|
        invariant 0 <= i <= |bones|
        invariant g.ik == UnregisterAll(ik0, this, bones[..i])
      {
        assert bones[..i + 1][..i] == bones[..i];
        g.ik := Unregister(g.ik, bones[i], this);
        i := i + 1;
      }
      assert bones[..i] == bones;
      DisposeKeepsValid(g, ik0, this, bones);
    }

    /**
     * `getChildForBone`: the chain bone just below `b` (towards the
     * effector), or None for a bone without a record, a non-member, or the head.
     */
    method GetChildForBone(g: BoneGraph, b: NodeId) returns (r: Option<NodeId>)
      ensures r.Some? <==> b in g.ik && b in bones && bones[0] != b
      ensures r.Some? ==> 0 < FirstIndex(bones, b) && r.value == bones[FirstIndex(bones, b) - 1]
      ensures r.Some? && WellFormed(g.nodes) && AncestorPath(g.nodes, bones) ==> BoneParent(g.nodes, r.value) == Some(b)
    {
      if b !in g.ik {
        return None;
      }
      var idx := IndexOf(bones, b);
      if idx == -1 || idx == 0 {
        return None;
      }
      FirstIndexUnique(bones, b, idx);
      r := Some(bones[idx - 1]);
    }

    /** `canIncrease(delta)`: whether the tail has `delta` bone ancestors. */
    method CanIncrease(g: BoneGraph, delta: int) returns (r: bool)
      requires WellFormed(g.nodes) && bones != [] && Tail() < |g.nodes|
      ensures r <==> delta <= BoneDepth(g.nodes, Tail())
    {
      var f := g.nodes;
      var bone := Tail();
      var i := 0;
      while i < delta
        invariant 0 <= i && (i <= delta || delta <= 0)
        invariant bone < |f| && Ancestor(f, Tail(), i) == Some(bone)
      {
        AncestorStep(f, Tail(), i);
        var parent := BoneParent(f, bone);
        if parent.None? {
          return false;
        }
        bone := parent.value;
        i := i + 1;
      }
      return true;
    }

    /** `canDecrease(delta)`: whether at least one link would remain. */
    function CanDecrease(delta: int): bool
      reads this
    {
      Size() - delta >= 1
    }

    /**
     * `setSize(size)` on a valid graph: the bones and the bone records end
     * as `Resize` describes, and all chains stay live.
     */
    method SetSize(g: BoneGraph, size: int) returns (changed: bool, warning: Option<Warning>)
      requires g.Valid() && this in g.Listed()
      modifies this`bones, g`ik
      ensures var r := Resize(g.nodes, old(g.ik), this, old(bones), size);
        changed == r.changed && warning == r.warning && bones == r.bones && g.ik == r.ik
      ensures g.Valid() && g.Listed() == old(g.Listed())
    {
      ghost var ik0 := g.ik;
      ghost var bones0 := bones;
      assert LiveChain(g.nodes, ik0, this, bones0);
      changed, warning := ApplySize(g, size);
      forall d | d in ListedIn(ik0) && d != this
        ensures LiveChain(g.nodes, ik0, d, d.bones)
      {
        assert d in old(g.Listed());
      }
      ResizeKeepsValid(g, ik0, this, bones0, size);
    }

    /**
     * The body of `setSize`: below 1 warns and refuses; the current size
     * changes nothing; otherwise grows or shrinks the chain in place.
     */
    method ApplySize(g: BoneGraph, size: int) returns (changed: bool, warning: Option<Warning>)
      requires WellFormed(g.nodes) && bones != [] && bones[|bones| - 1] < |g.nodes|
      modifies this`bones, g`ik
      ensures var r := Resize(g.nodes, old(g.ik), this, old(bones), size);
        changed == r.changed && warning == r.warning && bones == r.bones && g.ik == r.ik
    {
      var current := |bones| - 1;
      if size < 1 {
        return false, Some(MinSize);
      }
      if size == current {
        return false, None;
      }
      if size > current {
        warning := GrowBy(g, size, size - current);
      } else {
        ShrinkBy(g, current - size);
        warning := None;
      }
      changed := true;
    }

    /**
     * The growing loop of `setSize`: up to `n` steps, each pushing the tail's
     * parent bone; at a bone without one it warns and stops.
     */
    method GrowBy(g: BoneGraph, size: int, n: nat) returns (warning: Option<Warning>)
      requires WellFormed(g.nodes) && bones != [] && bones[|bones| - 1] < |g.nodes|
      modifies this`bones, g`ik
      ensures var r := Grow(g.nodes, old(g.ik), this, old(bones), n);
        bones == r.bones && g.ik == r.ik
        && warning == if r.complete then None else Some(NotEnoughBones(size, |r.bones| - 1))
    {
      var f := g.nodes;
      ghost var ik0 := g.ik;
      ghost var bones0 := bones;
      warning := None;
      var i := 0;
      while i < n
        invariant 0 <= i <= n
        invariant bones != [] && bones[|bones| - 1] < |f|
        invariant Grow(f, g.ik, this, bones, n - i) == Grow(f, ik0, this, bones0, n)
      {
        var parent := BoneParent(f, bones[|bones| - 1]);
        GrowStep(f, g.ik, this, bones, n - i);
        if parent.None? {
          warning := Some(NotEnoughBones(size, |bones| - 1));
          break;
        }
        g.ik := Register(g.ik, parent.value, this);
        bones := bones + [parent.value];
        i := i + 1;
      }
    }

    /** The shrinking loop of `setSize`: pops the tail `n` times, unregistering from each. */
    method ShrinkBy(g: BoneGraph, n: nat)
      requires n < |bones|
      modifies this`bones, g`ik
      ensures var r := Shrink(old(g.ik), this, old(bones), n);
        bones == r.bones && g.ik == r.ik
    {
      ghost var ik0 := g.ik;
      ghost var bones0 := bones;
      var i := 0;
      while i < n
        invariant 0 <= i <= n && |bones| == |bones0| - i
        invariant Shrink(g.ik, this, bones, n - i) == Shrink(ik0, this, bones0, n)
      {
        var bone := bones[|bones| - 1];
        bones := bones[..|bones| - 1];
        g.ik := Unregister(g.ik, bone, this);
        i := i + 1;
      }
    }

    /**
     * `solve`: a chain whose tail is a skeleton root first locks that tail's
     * record, then three CCD iterations run.
     */
    method Solve(g: BoneGraph, aligned: (IKChain, seq<nat>, NodeId) -> bool)
      requires g.Valid() && this in g.Listed()
      modifies g`ik, g`turns
      ensures g.Valid() && g.Listed() == old(g.Listed())
      ensures (g.ik, g.turns) == SolveEffect(g.nodes, old(g.ik), old(g.turns), this, bones, lockTail, aligned)
    {
      assert LiveChain(g.nodes, g.ik, this, bones);
      var tail := Tail();
      var root := RootBone(g.nodes, tail);
      if tail == root {
        assert CountAt(g.ik, tail, this) == 1;
        LockListed(g.ik, tail);
        g.ik := Lock(g.ik, tail);
      }
      assert forall d :: d in g.Listed() ==> d in old(g.Listed());
      SolveCCDChain(this, g, 3, aligned);
    }
  }

  /**
   * `solveCCDChain`: up to `iterations` passes over the indices from the
   * start index down to 1, leaving early after a pass that rotated nothing.
   */
  method SolveCCDChain(chain: IKChain, g: BoneGraph, iterations: int, aligned: (IKChain, seq<nat>, NodeId) -> bool)
    requires forall i :: 0 <= i < |chain.bones| ==> chain.bones[i] < |g.turns|
    modifies g`turns
    ensures g.turns == CCD(g.ik, chain, chain.bones, chain.lockTail, old(g.turns), iterations, aligned)
  {
    var bones := chain.bones;
    var startIndex := if chain.lockTail then |bones| - 2 else |bones| - 1;
    var ite := 0;
    while ite < iterations
      invariant forall i :: 0 <= i < |bones| ==> bones[i] < |g.turns|
      invariant 0 <= ite && (ite <= iterations || iterations <= 0)
      invariant CCD(g.ik, chain, bones, chain.lockTail, g.turns, iterations - ite, aligned)
             == CCD(g.ik, chain, bones, chain.lockTail, old(g.turns), iterations, aligned)
    {
      var rotated := false;
      ghost var before := g.turns;
      ghost var pass := Pass(g.ik, chain, bones, startIndex, before, aligned);
      var j := startIndex;
      while j > 0
        invariant j <= startIndex && j < |bones|
        invariant forall i :: 0 <= i < |bones| ==> bones[i] < |g.turns|
        invariant pass.turns == Pass(g.ik, chain, bones, j, g.turns, aligned).turns
        invariant pass.rotated == (rotated || Pass(g.ik, chain, bones, j, g.turns, aligned).rotated)
      {
        var bone := bones[j];
        var locked := Locked(g.ik, bone);
        if !locked {
          if !aligned(chain, g.turns, bone) {
            g.turns := Bump(g.turns, bone);
            rotated := true;
          }
        }
        j := j - 1;
      }
      if !rotated {
        break;
      }
      ite := ite + 1;
    }
  }
}
