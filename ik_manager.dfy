/**
 * The registry of tracked IK chains. It hands out chain ids from a counter,
 * keeps every bone a non-tail link of at most one tracked chain, clamps
 * growth requests to the bones that are still available, recomputes the
 * `lockTail` flags and orders a batch solve by a breadth-first walk from
 * each skeleton root.
 *
 * The tracked set is a JavaScript `Set`, which iterates in insertion order;
 * it is a sequence without repetitions here.
 */
module Manager {
  import opened Wrappers
  import opened Seqs
  import opened BoneUtils
  import opened Chains
  import opened Traversal

  /** The chains listed by the `ik` record of `b` (none for a bone without one). */
  function ChainsAt(ik: IkMap, b: NodeId): seq<IKChain> {
    if b in ik then ik[b].chains else []
  }

  /** `b` is the last bone of `s`: what `chain.tail === b` tests. */
  predicate IsTail(s: seq<NodeId>, b: NodeId) {
    |s| > 0 && s[|s| - 1] == b
  }

  /** `b` is a link of `s` other than its last one. */
  predicate IsInner(s: seq<NodeId>, b: NodeId) {
    |s| > 0 && b in s[..|s| - 1]
  }

  /** The bones of some chains, by chain. */
  type Snapshot = map<IKChain, seq<NodeId>>

  function BonesOf(cs: seq<IKChain>): Snapshot
    reads cs`bones
  {
    map c | c in cs :: c.bones
  }

  /** Appending a chain adds its bones to the snapshot. */
  lemma BonesOfAppend(cs: seq<IKChain>, c: IKChain)
    ensures BonesOf(cs + [c]) == BonesOf(cs)[c := c.bones]
  {
    assert BonesOf(cs + [c]).Keys == BonesOf(cs).Keys + {c};
  }

  /** Chains whose bones did not change have the same snapshot. */
  lemma BonesOfSame(cs: seq<IKChain>, before: Snapshot)
    requires (forall d :: d in before <==> d in cs) && forall d :: d in cs ==> d.bones == before[d]
    ensures BonesOf(cs) == before
  {
    assert BonesOf(cs).Keys == before.Keys;
  }

  /** Changing the bones of one listed chain changes that entry of the snapshot only. */
  lemma BonesOfChange(cs: seq<IKChain>, c: IKChain, before: Snapshot)
    requires c in cs && (forall d :: d in before <==> d in cs)
    requires forall d :: d in cs && d != c ==> d.bones == before[d]
    ensures BonesOf(cs) == before[c := c.bones]
  {
    assert BonesOf(cs).Keys == before.Keys;
  }

  /**
   * `canAnyChainGrowFromBone`: a bone without a record is free; otherwise
   * every tracked chain it lists must end at it. Untracked chains are ignored.
   */
  predicate Available(ik: IkMap, tracked: Snapshot, b: NodeId) {
    forall c :: c in ChainsAt(ik, b) && c in tracked ==> IsTail(tracked[c], b)
  }

  /** No bone is a non-tail link of two different chains. */
  ghost predicate Exclusive(tracked: Snapshot) {
    forall c, d, b :: c in tracked && d in tracked && c != d && IsInner(tracked[c], b) ==> !IsInner(tracked[d], b)
  }

  /** Every chain of the snapshot is live: an ancestor path whose bones list it once each. */
  ghost predicate Consistent(f: Forest, ik: IkMap, tracked: Snapshot)
    requires WellFormed(f)
  {
    forall c :: c in tracked ==> LiveChain(f, ik, c, tracked[c])
  }

  /** In a live chain, the tail is not an inner link and every other bone is. */
  lemma TailOrInner(f: Forest, s: seq<NodeId>, b: NodeId)
    requires WellFormed(f) && AncestorPath(f, s)
    ensures IsInner(s, b) <==> b in s && !IsTail(s, b)
  {
    var t := s[|s| - 1];
    assert s == s[..|s| - 1] + [t];
    PathFreshAbove(f, s, |s| - 1);
    if IsInner(s, b) && IsTail(s, b) {
      var i :| 0 <= i < |s| - 1 && s[i] == b;
      PathDecreasing(f, s, i, |s| - 1);
    }
  }

  /**
   * Over live chains, a bone is available exactly when no tracked chain
   * uses it as a non-tail link.
   */
  lemma AvailableMeaning(f: Forest, ik: IkMap, tracked: Snapshot, b: NodeId)
    requires WellFormed(f) && Consistent(f, ik, tracked)
    ensures Available(ik, tracked, b) <==> forall c :: c in tracked ==> !IsInner(tracked[c], b)
  {
    forall c | c in tracked
      ensures c in ChainsAt(ik, b) <==> b in tracked[c]
      ensures IsInner(tracked[c], b) <==> b in tracked[c] && !IsTail(tracked[c], b)
    {
      assert LiveChain(f, ik, c, tracked[c]);
      assert CountAt(ik, b, c) == if b in tracked[c] then 1 else 0;
      if b in ik {
        assert Count(ik[b].chains, c) > 0 <==> c in ik[b].chains;
      }
      TailOrInner(f, tracked[c], b);
    }
  }

  /**
   * The number of upward steps the growth loop of `setChainSize` takes from
   * `cur`, up to `n`: each needs a parent bone and an available current bone.
   */
  function Walk(f: Forest, ik: IkMap, tracked: Snapshot, cur: NodeId, n: nat): nat
    requires WellFormed(f) && cur < |f|
    decreases n
  {
    if n == 0 then 0
    else match BoneParent(f, cur)
      case None => 0
      case Some(p) => if Available(ik, tracked, cur) then 1 + Walk(f, ik, tracked, p, n - 1) else 0
  }

  /** The walk takes at most `n` steps, at most as many as there are ancestors, all from available bones. */
  lemma {:induction false} WalkFacts(f: Forest, ik: IkMap, tracked: Snapshot, cur: NodeId, n: nat)
    requires WellFormed(f) && cur < |f|
    ensures var w := Walk(f, ik, tracked, cur, n);
      && w <= n && w <= BoneDepth(f, cur)
      && forall k :: 0 <= k < w ==> Ancestor(f, cur, k).Some? && Available(ik, tracked, Ancestor(f, cur, k).value)
    decreases n
  {
    if n > 0 {
      match BoneParent(f, cur)
      case None =>
      case Some(p) =>
        if Available(ik, tracked, cur) {
          WalkFacts(f, ik, tracked, p, n - 1);
          var w := Walk(f, ik, tracked, cur, n);
          forall k | 0 < k < w
            ensures Ancestor(f, cur, k) == Ancestor(f, p, k - 1)
          {
          }
        }
    }
  }

  /** The walk stops short of `n` exactly at a bone without a parent bone or an unavailable one. */
  lemma {:induction false} WalkStops(f: Forest, ik: IkMap, tracked: Snapshot, cur: NodeId, n: nat)
    requires WellFormed(f) && cur < |f|
    requires Walk(f, ik, tracked, cur, n) < n
    ensures var a := Ancestor(f, cur, Walk(f, ik, tracked, cur, n));
      a.Some? && (BoneParent(f, a.value).None? || !Available(ik, tracked, a.value))
    decreases n
  {
    match BoneParent(f, cur)
    case None =>
    case Some(p) =>
      if Available(ik, tracked, cur) {
        WalkStops(f, ik, tracked, p, n - 1);
      }
  }

  /** Along an ancestor path, the bone `j` places above `s[i]` is its `j`-th ancestor. */
  lemma {:induction false} PathAncestor(f: Forest, s: seq<NodeId>, i: nat, j: nat)
    requires WellFormed(f) && AncestorPath(f, s) && i + j < |s|
    ensures Ancestor(f, s[i], j) == Some(s[i + j])
    decreases j
  {
    if j > 0 {
      PathAncestor(f, s, i + 1, j - 1);
    }
  }

  /**
   * Replacing the bones of tracked chain `c` keeps the chains exclusive when
   * every new non-tail link of `c` was a non-tail link of `c` before or was
   * used as one by no tracked chain.
   */
  lemma ExclusiveUpdate(tracked: Snapshot, c: IKChain, s: seq<NodeId>)
    requires Exclusive(tracked)
    requires forall b :: IsInner(s, b) ==> (c in tracked && IsInner(tracked[c], b)) || forall d :: d in tracked ==> !IsInner(tracked[d], b)
    ensures Exclusive(tracked[c := s])
  {
  }

  /** Dropping chains keeps the others exclusive. */
  lemma ExclusiveSubset(tracked: Snapshot, sub: Snapshot)
    requires Exclusive(tracked)
    requires forall c :: c in sub ==> c in tracked && sub[c] == tracked[c]
    ensures Exclusive(sub)
  {
  }

  /**
   * A chain with these bones would be accepted by `addChain` (every link but
   * the tail available): adding it would keep the tracked chains exclusive.
   */
  lemma AddableKeepsExclusive(f: Forest, ik: IkMap, tracked: Snapshot, c: IKChain, s: seq<NodeId>)
    requires WellFormed(f) && Consistent(f, ik, tracked) && Exclusive(tracked) && c !in tracked
    requires forall i :: 0 <= i < |s| - 1 ==> Available(ik, tracked, s[i])
    ensures Exclusive(tracked[c := s])
  {
    forall b | IsInner(s, b)
      ensures forall d :: d in tracked ==> !IsInner(tracked[d], b)
    {
      var i :| 0 <= i < |s| - 1 && s[..|s| - 1][i] == b;
      AvailableMeaning(f, ik, tracked, b);
    }
    ExclusiveUpdate(tracked, c, s);
  }

  /**
   * The size `setChainSize` passes on to `setSize`: a larger size is cut
   * down to the current size plus the steps of the walk from the tail.
   */
  function Target(f: Forest, ik: IkMap, tracked: Snapshot, bones: seq<NodeId>, size: int): int
    requires WellFormed(f) && bones != [] && bones[|bones| - 1] < |f|
  {
    var current := |bones| - 1;
    if size > current then current + Walk(f, ik, tracked, bones[|bones| - 1], size - current) else size
  }

  /**
   * What `createChainFromBone` makes of chain `c` at `effector`: listed on
   * the effector and sized 1, then, tracked beside the chains of `tracked`,
   * resized to the size the walk from its tail allows.
   */
  function Created(f: Forest, ik: IkMap, tracked: Snapshot, c: IKChain, effector: NodeId, size: int): Resized
    requires WellFormed(f) && IsBone(f, effector)
  {
    var start := Resize(f, Register(ik, effector, c), c, [effector], 1);
    ResizeShape(f, Register(ik, effector, c), c, [effector], 1);
    Resize(f, start.ik, c, start.bones, Target(f, start.ik, tracked[c := start.bones], start.bones, size))
  }

  /**
   * Resizing to the clamped size keeps the head and the ancestor path, never
   * exceeds a requested size of at least 1, and every new non-tail link was
   * one before or is available.
   */
  lemma ClampedResize(f: Forest, ik: IkMap, tracked: Snapshot, c: IKChain, bones: seq<NodeId>, size: int)
    requires WellFormed(f) && AncestorPath(f, bones)
    ensures var r := Resize(f, ik, c, bones, Target(f, ik, tracked, bones, size));
      && AncestorPath(f, r.bones) && r.bones[0] == bones[0]
      && (size >= 1 ==> |r.bones| - 1 <= size)
      && forall b :: IsInner(r.bones, b) ==> IsInner(bones, b) || Available(ik, tracked, b)
  {
    ResizeShape(f, ik, c, bones, Target(f, ik, tracked, bones, size));
    if size > |bones| - 1 {
      ClampedGrow(f, ik, tracked, c, bones, size);
    } else {
      ClampedKeep(f, ik, c, bones, size);
    }
  }

  /** Growing: the links past the old tail were found available by the walk. */
  lemma ClampedGrow(f: Forest, ik: IkMap, tracked: Snapshot, c: IKChain, bones: seq<NodeId>, size: int)
    requires WellFormed(f) && AncestorPath(f, bones) && size > |bones| - 1
    ensures var r := Resize(f, ik, c, bones, Target(f, ik, tracked, bones, size));
      && |r.bones| - 1 <= size
      && forall b :: IsInner(r.bones, b) ==> IsInner(bones, b) || Available(ik, tracked, b)
  {
    var current := |bones| - 1;
    var t := Target(f, ik, tracked, bones, size);
    var r := Resize(f, ik, c, bones, t);
    ResizeShape(f, ik, c, bones, t);
    WalkFacts(f, ik, tracked, bones[current], size - current);
    forall b | IsInner(r.bones, b)
      ensures IsInner(bones, b) || Available(ik, tracked, b)
    {
      var m :| 0 <= m < |r.bones| - 1 && r.bones[..|r.bones| - 1][m] == b;
      if m < current {
        assert r.bones[m] == bones[m] && bones[..current][m] == bones[m];
      } else {
        GrownLink(f, ik, tracked, c, bones, size, m);
      }
    }
  }

  /** A link of the grown chain at or past the old tail is an available bone. */
  lemma GrownLink(f: Forest, ik: IkMap, tracked: Snapshot, c: IKChain, bones: seq<NodeId>, size: int, m: nat)
    requires WellFormed(f) && AncestorPath(f, bones) && size > |bones| - 1
    requires var r := Resize(f, ik, c, bones, Target(f, ik, tracked, bones, size));
      |bones| - 1 <= m < |r.bones| - 1
    ensures var r := Resize(f, ik, c, bones, Target(f, ik, tracked, bones, size));
      Available(ik, tracked, r.bones[m])
  {
    var current := |bones| - 1;
    var t := Target(f, ik, tracked, bones, size);
    var r := Resize(f, ik, c, bones, t);
    ResizeShape(f, ik, c, bones, t);
    WalkFacts(f, ik, tracked, bones[current], size - current);
    PathAncestor(f, r.bones, current, m - current);
    assert r.bones[current] == bones[current];
  }

  /** Shrinking or keeping the size: the new links are a prefix of the old ones. */
  lemma ClampedKeep(f: Forest, ik: IkMap, c: IKChain, bones: seq<NodeId>, size: int)
    requires WellFormed(f) && AncestorPath(f, bones) && size <= |bones| - 1
    ensures var r := Resize(f, ik, c, bones, size);
      forall b :: IsInner(r.bones, b) ==> IsInner(bones, b)
  {
    var r := Resize(f, ik, c, bones, size);
    ResizeShape(f, ik, c, bones, size);
    forall b | IsInner(r.bones, b)
      ensures IsInner(bones, b)
    {
      var m :| 0 <= m < |r.bones| - 1 && r.bones[..|r.bones| - 1][m] == b;
      assert r.bones[m] == bones[m] && bones[..|bones| - 1][m] == bones[m];
    }
  }

  /**
   * Resizing a tracked chain to the clamped size keeps the tracked chains
   * exclusive.
   */
  lemma KeepsExclusive(f: Forest, ik: IkMap, tracked: Snapshot, c: IKChain, size: int)
    requires WellFormed(f) && Consistent(f, ik, tracked) && Exclusive(tracked) && c in tracked
    ensures var r := Resize(f, ik, c, tracked[c], Target(f, ik, tracked, tracked[c], size));
      Exclusive(tracked[c := r.bones])
  {
    var r := Resize(f, ik, c, tracked[c], Target(f, ik, tracked, tracked[c], size));
    ClampedResize(f, ik, tracked, c, tracked[c], size);
    forall b | IsInner(r.bones, b) && !IsInner(tracked[c], b)
      ensures forall d :: d in tracked ==> !IsInner(tracked[d], b)
    {
      AvailableMeaning(f, ik, tracked, b);
    }
    ExclusiveUpdate(tracked, c, r.bones);
  }

  /** Asking for `delta` fewer links succeeds, with exactly that many fewer, iff at least one link would remain. */
  lemma DecreaseMeaning(f: Forest, ik: IkMap, c: IKChain, bones: seq<NodeId>, delta: int)
    requires WellFormed(f) && AncestorPath(f, bones)
    ensures delta >= 0 ==>
      var r := Resize(f, ik, c, bones, |bones| - 1 - delta);
      && (|bones| - 1 - delta >= 1 <==> r.warning.None?)
      && (|bones| - 1 - delta >= 1 ==> |r.bones| == |bones| - delta)
  {
    ResizeShape(f, ik, c, bones, |bones| - 1 - delta);
  }

  /** The root of each chain's tail, in chain order. */
  function TailRoots(f: Forest, cs: seq<IKChain>): (r: seq<NodeId>)
    reads cs`bones
    requires WellFormed(f) && forall i :: 0 <= i < |cs| ==> AncestorPath(f, cs[i].bones)
    ensures |r| == |cs| && forall x :: x in r ==> IsBone(f, x)
    decreases |cs|
  {
    if cs == [] then []
    else
      var c := cs[|cs| - 1];
      assert AncestorPath(f, c.bones);
      var t := c.bones[|c.bones| - 1];
      RootOfIsRoot(f, t);
      TailRoots(f, cs[..|cs| - 1]) + [RootOf(f, t)]
  }

  /** Entry `i` of `TailRoots` is the root of chain `i`'s tail. */
  lemma {:induction false} TailRootsAt(f: Forest, cs: seq<IKChain>, i: nat)
    requires WellFormed(f) && (forall j :: 0 <= j < |cs| ==> AncestorPath(f, cs[j].bones)) && i < |cs|
    ensures AncestorPath(f, cs[i].bones) && TailRoots(f, cs)[i] == RootOf(f, cs[i].bones[|cs[i].bones| - 1])
    decreases |cs|
  {
    if i < |cs| - 1 {
      TailRootsAt(f, cs[..|cs| - 1], i);
    }
  }

  /** Every bone the breadth-first traversals from `roots` visit, root after root. */
  function Visits(f: Forest, roots: seq<NodeId>): seq<NodeId>
    requires WellFormed(f) && forall i :: 0 <= i < |roots| ==> IsBone(f, roots[i])
    decreases |roots|
  {
    if roots == [] then []
    else
      var last := roots[|roots| - 1];
      assert IsBone(f, last);
      assert Bounded(f, [last]);
      Visits(f, roots[..|roots| - 1]) + BFS(f, [last])
  }

  /** The chain lists of the bones, bone after bone. */
  function ListsAt(ik: IkMap, bones: seq<NodeId>): seq<IKChain>
    decreases |bones|
  {
    if bones == [] then [] else ListsAt(ik, bones[..|bones| - 1]) + ChainsAt(ik, bones[|bones| - 1])
  }

  /** Two record maps list the same chains at every bone. */
  ghost predicate SameLists(ik: IkMap, ik0: IkMap) {
    forall b :: ChainsAt(ik, b) == ChainsAt(ik0, b)
  }

  /**
   * The graph after solving the chains one after another. Every chain the
   * manager solves is live, so an ancestor path; a chain that is not one
   * (which cannot occur) leaves the graph as it is.
   */
  function SolveAll(f: Forest, ik: IkMap, turns: seq<nat>, cs: seq<IKChain>,
                    aligned: (IKChain, seq<nat>, NodeId) -> bool): (r: (IkMap, seq<nat>))
    reads cs`bones, cs`lockTail
    requires WellFormed(f) && |turns| == |f|
    ensures |r.1| == |f|
    decreases |cs|
  {
    if cs == [] then (ik, turns)
    else
      var p := SolveAll(f, ik, turns, cs[..|cs| - 1], aligned);
      var c := cs[|cs| - 1];
      if AncestorPath(f, c.bones) then SolveEffect(f, p.0, p.1, c, c.bones, c.lockTail, aligned) else p
  }

  /** Record maps with the same chain lists list the same chains. */
  lemma SameListsListed(ik: IkMap, ik0: IkMap)
    requires SameLists(ik, ik0)
    ensures ListedIn(ik) == ListedIn(ik0)
  {
    forall c | c in ListedIn(ik)
      ensures c in ListedIn(ik0)
    {
      var b :| b in ik && c in ik[b].chains;
      assert c in ChainsAt(ik, b);
    }
    forall c | c in ListedIn(ik0)
      ensures c in ListedIn(ik)
    {
      var b :| b in ik0 && c in ik0[b].chains;
      assert c in ChainsAt(ik0, b);
    }
  }

  /** The chain lists of a concatenation are the concatenated chain lists. */
  lemma {:induction false} ListsAtAppend(ik: IkMap, a: seq<NodeId>, b: seq<NodeId>)
    ensures ListsAt(ik, a + b) == ListsAt(ik, a) + ListsAt(ik, b)
    decreases |b|
  {
    if b == [] {
      assert a + b == a;
    } else {
      var n := |b| - 1;
      assert (a + b)[..|a + b| - 1] == a + b[..n] && (a + b)[|a + b| - 1] == b[n];
      ListsAtAppend(ik, a, b[..n]);
      calc {
        ListsAt(ik, a + b);
        ListsAt(ik, a + b[..n]) + ChainsAt(ik, b[n]);
        (ListsAt(ik, a) + ListsAt(ik, b[..n])) + ChainsAt(ik, b[n]);
        ListsAt(ik, a) + (ListsAt(ik, b[..n]) + ChainsAt(ik, b[n]));
        ListsAt(ik, a) + ListsAt(ik, b);
      }
    }
  }

  /** A chain listed at a bone of `bones` occurs in their chain lists. */
  lemma {:induction false} ListsAtMember(ik: IkMap, bones: seq<NodeId>, b: NodeId, c: IKChain)
    requires b in bones && c in ChainsAt(ik, b)
    ensures c in ListsAt(ik, bones)
    decreases |bones|
  {
    if bones[|bones| - 1] != b {
      assert b in bones[..|bones| - 1];
      ListsAtMember(ik, bones[..|bones| - 1], b, c);
    }
  }

  /** Every chain of the chain lists is listed by some bone. */
  lemma {:induction false} ListsAtListed(ik: IkMap, bones: seq<NodeId>)
    ensures forall c :: c in ListsAt(ik, bones) ==> c in ListedIn(ik)
    decreases |bones|
  {
    if bones != [] {
      var b := bones[|bones| - 1];
      ListsAtListed(ik, bones[..|bones| - 1]);
      forall c | c in ChainsAt(ik, b)
        ensures c in ListedIn(ik)
      {
        assert b in ik && c in ik[b].chains;
      }
    }
  }

  /** A bone the traversal from one of the roots reaches is visited. */
  lemma {:induction false} VisitsMember(f: Forest, roots: seq<NodeId>, r: NodeId, x: NodeId)
    requires WellFormed(f) && (forall i :: 0 <= i < |roots| ==> IsBone(f, roots[i])) && r in roots
    requires Bounded(f, [r]) && x in BFS(f, [r])
    ensures x in Visits(f, roots)
    decreases |roots|
  {
    if roots[|roots| - 1] != r {
      var front := roots[..|roots| - 1];
      assert r in front;
      VisitsMember(f, front, r, x);
    }
  }

  /** One more chain's root. */
  lemma TailRootsSnoc(f: Forest, cs: seq<IKChain>, i: nat)
    requires WellFormed(f) && (forall j :: 0 <= j < |cs| ==> AncestorPath(f, cs[j].bones)) && i < |cs|
    ensures AncestorPath(f, cs[i].bones)
    ensures TailRoots(f, cs[..i + 1]) == TailRoots(f, cs[..i]) + [RootOf(f, cs[i].bones[|cs[i].bones| - 1])]
  {
    assert cs[..i + 1][..i] == cs[..i];
  }

  /** The distinct roots after one more chain: its tail's root `r` is added unless already there. */
  lemma CollectStep(f: Forest, cs: seq<IKChain>, i: nat, roots: seq<NodeId>, r: NodeId)
    requires WellFormed(f) && (forall j :: 0 <= j < |cs| ==> AncestorPath(f, cs[j].bones)) && i < |cs|
    requires AncestorPath(f, cs[i].bones) && r == RootOf(f, cs[i].bones[|cs[i].bones| - 1])
    requires roots == AddNew([], TailRoots(f, cs[..i]))
    ensures AddNew([], TailRoots(f, cs[..i + 1])) == if r in roots then roots else roots + [r]
  {
    TailRootsSnoc(f, cs, i);
    AddNewSnoc([], TailRoots(f, cs[..i]), r);
  }

  /** One step of `solveChains`' root collection: the root of chain `i`'s tail, added unless already listed. */
  method AddTailRoot(f: Forest, cs: seq<IKChain>, i: nat, roots: seq<NodeId>) returns (next: seq<NodeId>)
    requires WellFormed(f) && (forall j :: 0 <= j < |cs| ==> AncestorPath(f, cs[j].bones)) && i < |cs|
    requires roots == AddNew([], TailRoots(f, cs[..i]))
    ensures next == AddNew([], TailRoots(f, cs[..i + 1]))
  {
    var c := cs[i];
    assert AncestorPath(f, c.bones);
    var r := RootBone(f, c.bones[|c.bones| - 1]);
    CollectStep(f, cs, i, roots, r);
    next := roots;
    if r !in roots {
      next := roots + [r];
    }
  }

  /** One more bone's chain list. */
  lemma ListsAtSnoc(ik: IkMap, bones: seq<NodeId>, i: nat)
    requires i < |bones|
    ensures ListsAt(ik, bones[..i + 1]) == ListsAt(ik, bones[..i]) + ChainsAt(ik, bones[i])
  {
    assert bones[..i + 1][..i] == bones[..i];
  }

  /** One more root's traversal. */
  lemma VisitsSnoc(f: Forest, roots: seq<NodeId>, k: nat)
    requires WellFormed(f) && (forall i :: 0 <= i < |roots| ==> IsBone(f, roots[i])) && k < |roots|
    ensures Bounded(f, [roots[k]])
    ensures Visits(f, roots[..k + 1]) == Visits(f, roots[..k]) + BFS(f, [roots[k]])
  {
    assert roots[..k + 1][..k] == roots[..k];
  }

  /** The chains reached from one more root, added to those reached from the earlier ones. */
  lemma RootsStep(f: Forest, ik: IkMap, roots: seq<NodeId>, k: nat)
    requires WellFormed(f) && (forall i :: 0 <= i < |roots| ==> IsBone(f, roots[i])) && k < |roots|
    ensures Bounded(f, [roots[k]])
    ensures AddNew([], ListsAt(ik, Visits(f, roots[..k + 1])))
         == AddNew(AddNew([], ListsAt(ik, Visits(f, roots[..k]))), ListsAt(ik, BFS(f, [roots[k]])))
  {
    VisitsSnoc(f, roots, k);
    ListsAtAppend(ik, Visits(f, roots[..k]), BFS(f, [roots[k]]));
    AddNewAppend([], ListsAt(ik, Visits(f, roots[..k])), ListsAt(ik, BFS(f, [roots[k]])));
  }

  /** One more chain solved. */
  lemma SolveAllSnoc(f: Forest, ik: IkMap, turns: seq<nat>, cs: seq<IKChain>, c: IKChain,
                     aligned: (IKChain, seq<nat>, NodeId) -> bool)
    requires WellFormed(f) && |turns| == |f| && AncestorPath(f, c.bones)
    ensures var p := SolveAll(f, ik, turns, cs, aligned);
      SolveAll(f, ik, turns, cs + [c], aligned) == SolveEffect(f, p.0, p.1, c, c.bones, c.lockTail, aligned)
  {
    assert (cs + [c])[..|cs|] == cs;
  }

  /**
   * `solveChains` reaches every chain it is given: each live chain is listed
   * at its tail, and its tail is in the tree of the root it contributes.
   */
  lemma SolvedCovers(f: Forest, ik: IkMap, cs: seq<IKChain>)
    requires WellFormed(f) && forall i :: 0 <= i < |cs| ==> AncestorPath(f, cs[i].bones)
    requires forall i :: 0 <= i < |cs| ==> Registered(ik, cs[i], cs[i].bones)
    ensures forall c :: c in cs ==> c in Dedup(ListsAt(ik, Visits(f, Dedup(TailRoots(f, cs)))))
  {
    forall c | c in cs
      ensures c in Dedup(ListsAt(ik, Visits(f, Dedup(TailRoots(f, cs)))))
    {
      var i :| 0 <= i < |cs| && cs[i] == c;
      CoveredChain(f, ik, cs, i);
      DedupFacts(ListsAt(ik, Visits(f, Dedup(TailRoots(f, cs)))));
    }
  }

  /** Chain `i` of `cs` is listed at a bone the traversals from the distinct tail roots visit. */
  lemma CoveredChain(f: Forest, ik: IkMap, cs: seq<IKChain>, i: nat)
    requires WellFormed(f) && forall j :: 0 <= j < |cs| ==> AncestorPath(f, cs[j].bones)
    requires forall j :: 0 <= j < |cs| ==> Registered(ik, cs[j], cs[j].bones)
    requires i < |cs|
    ensures cs[i] in ListsAt(ik, Visits(f, Dedup(TailRoots(f, cs))))
  {
    var roots := Dedup(TailRoots(f, cs));
    DedupFacts(TailRoots(f, cs));
    TailRootsAt(f, cs, i);
    assert TailRoots(f, cs)[i] in TailRoots(f, cs);
    CoveredAtRoot(f, ik, roots, cs[i], RootOf(f, cs[i].bones[|cs[i].bones| - 1]));
  }

  /** A live chain whose tail's root is among `roots` is listed at a bone their traversals visit. */
  lemma CoveredAtRoot(f: Forest, ik: IkMap, roots: seq<NodeId>, c: IKChain, r: NodeId)
    requires WellFormed(f) && (forall k :: 0 <= k < |roots| ==> IsBone(f, roots[k]))
    requires AncestorPath(f, c.bones) && Registered(ik, c, c.bones)
    requires r == RootOf(f, c.bones[|c.bones| - 1]) && r in roots
    ensures c in ListsAt(ik, Visits(f, roots))
  {
    var t := c.bones[|c.bones| - 1];
    RootOfIsRoot(f, t);
    BFSLevelOrder(f, r);
    assert CountAt(ik, t, c) == 1;
    VisitsMember(f, roots, r, t);
    ListsAtMember(ik, Visits(f, roots), t, c);
  }

  /**
   * Whether a chain ending at the last of `bones` has its tail locked: when
   * the tail lists more than one chain and one of them does not end there,
   * or when the tail is a skeleton root. `all` holds the bones of every
   * listed chain, tracked or not.
   */
  predicate LockRule(f: Forest, ik: IkMap, all: Snapshot, bones: seq<NodeId>)
    requires WellFormed(f)
  {
    && bones != [] && bones[|bones| - 1] < |f|
    && var t := bones[|bones| - 1];
      || (|ChainsAt(ik, t)| > 1 && exists c :: c in ChainsAt(ik, t) && c in all && !IsTail(all[c], t))
      || RootOf(f, t) == t
  }

  /** The distinct roots of the chains' tails are bones. */
  lemma DistinctRootsAreBones(f: Forest, cs: seq<IKChain>)
    requires WellFormed(f) && forall i :: 0 <= i < |cs| ==> AncestorPath(f, cs[i].bones)
    ensures forall i :: 0 <= i < |Dedup(TailRoots(f, cs))| ==> IsBone(f, Dedup(TailRoots(f, cs))[i])
  {
    var roots := Dedup(TailRoots(f, cs));
    assert forall i :: 0 <= i < |roots| ==> roots[i] in TailRoots(f, cs);
  }

  /** Chains a valid graph lists are ancestor paths. */
  lemma ListedPaths(g: BoneGraph, cs: seq<IKChain>)
    requires g.Valid() && forall c :: c in cs ==> c in g.Listed()
    ensures forall i :: 0 <= i < |cs| ==> AncestorPath(g.nodes, cs[i].bones)
  {
    forall i | 0 <= i < |cs|
      ensures AncestorPath(g.nodes, cs[i].bones)
    {
      assert cs[i] in g.Listed();
    }
  }

  /** After solving, the same chains are listed, and every chain solved from the chain lists is one of them. */
  lemma SolvedListed(ik: IkMap, ik0: IkMap, lists: seq<IKChain>)
    requires SameLists(ik, ik0) && forall c :: c in lists ==> c in ListedIn(ik0)
    ensures ListedIn(ik) == ListedIn(ik0)
    ensures forall c :: c in AddNew([], lists) ==> c in ListedIn(ik)
  {
    SameListsListed(ik, ik0);
    AddNewFacts([], lists);
  }

  /** The elements of a sequence, as a set. */
  function Elements(cs: seq<IKChain>): set<IKChain> {
    set c | c in cs
  }

  /** Bone records after disposing each chain of `cs` in order, its bones as `bones` records them. */
  function DisposeEach(ik: IkMap, cs: seq<IKChain>, bones: Snapshot): IkMap
    requires forall c :: c in cs ==> c in bones
    decreases |cs|
  {
    if cs == [] then ik
    else UnregisterAll(DisposeEach(ik, cs[..|cs| - 1], bones), cs[|cs| - 1], bones[cs[|cs| - 1]])
  }

  /**
   * Disposing a list of chains keeps every bone record and lock flag, lists
   * no new chain, and leaves the entries of every chain outside the list.
   */
  lemma {:induction false} DisposeEachOthers(ik: IkMap, cs: seq<IKChain>, bones: Snapshot)
    requires forall c :: c in cs ==> c in bones
    ensures var r := DisposeEach(ik, cs, bones);
      && r.Keys == ik.Keys
      && (forall x :: x in ik ==> r[x].locked == ik[x].locked)
      && ListedIn(r) <= ListedIn(ik)
      && (forall x, d :: d !in cs ==> CountAt(r, x, d) == CountAt(ik, x, d))
    decreases |cs|
  {
    if cs != [] {
      var init := cs[..|cs| - 1];
      DisposeEachOthers(ik, init, bones);
      DisposeOthers(DisposeEach(ik, init, bones), cs[|cs| - 1], bones[cs[|cs| - 1]]);
      assert forall d :: d !in cs ==> d !in init && d != cs[|cs| - 1];
    }
  }

  /** Disposing one more chain of `cs` unregisters it from its bones. */
  lemma DisposeEachStep(ik: IkMap, ik0: IkMap, cs: seq<IKChain>, i: nat, bones: Snapshot)
    requires i < |cs| && (forall c :: c in cs ==> c in bones) && ik == DisposeEach(ik0, cs[..i], bones)
    ensures DisposeEach(ik0, cs[..i + 1], bones) == UnregisterAll(ik, cs[i], bones[cs[i]])
  {
    assert cs[..i + 1][..i] == cs[..i];
  }

  /** Disposes each chain of `cs` in order: they, and only they, are no longer listed. */
  method DisposeChains(g: BoneGraph, cs: seq<IKChain>)
    requires g.Valid() && NoDup(cs) && forall c :: c in cs ==> c in g.Listed()
    modifies g`ik
    ensures g.Listed() == old(g.Listed()) - Elements(cs)
    ensures g.ik == DisposeEach(old(g.ik), cs, BonesOf(cs))
    ensures g.Valid()
  {
    ghost var bones := BonesOf(cs);
    var i := 0;
    while i < |cs|
      invariant 0 <= i <= |cs|
      invariant g.Valid()
      invariant forall j :: i <= j < |cs| ==> cs[j] in g.Listed()
      invariant g.Listed() == old(g.Listed()) - Elements(cs[..i])
      invariant g.ik == DisposeEach(old(g.ik), cs[..i], bones)
    {
      DisposeEachStep(g.ik, old(g.ik), cs, i, bones);
      cs[i].Dispose(g);
      DisposeStep(cs, i);
      i := i + 1;
    }
    assert cs[..i] == cs;
  }

  /** Disposing chain `i` removes it; the later chains, all different from it, stay. */
  lemma DisposeStep(cs: seq<IKChain>, i: nat)
    requires NoDup(cs) && i < |cs|
    ensures Elements(cs[..i + 1]) == Elements(cs[..i]) + {cs[i]}
    ensures forall j :: i < j < |cs| ==> cs[j] != cs[i]
  {
    assert cs[..i + 1] == cs[..i] + [cs[i]];
  }

  /**
   * A new chain of size 1 from an available effector: listed in the graph,
   * and exclusive with the chains of `tracked`.
   */
  method NewChain(g: BoneGraph, id: int, effector: NodeId, ghost tracked: Snapshot) returns (c: IKChain)
    requires g.Valid() && IsBone(g.nodes, effector)
    requires Consistent(g.nodes, g.ik, tracked) && Exclusive(tracked) && Available(g.ik, tracked, effector)
    modifies g`ik
    ensures fresh(c) && c.id == id && AncestorPath(g.nodes, c.bones) && c.bones[0] == effector
    ensures var r := Resize(g.nodes, Register(old(g.ik), effector, c), c, [effector], 1);
      c.bones == r.bones && g.ik == r.ik
    ensures g.Valid() && g.Listed() == old(g.Listed()) + {c}
    ensures Exclusive(tracked[c := c.bones])
  {
    ghost var ik0 := g.ik;
    c := new IKChain(id, g, effector, 1);
    ResizeShape(g.nodes, Register(ik0, effector, c), c, [effector], 1);
    assert forall i :: 0 <= i < |c.bones| - 1 ==> c.bones[i] == effector;
    AddableKeepsExclusive(g.nodes, ik0, tracked, c, c.bones);
  }

  /** The registry: the tracked chains and the id counter, over one bone graph. */
  class IKManager {
    const g: BoneGraph
    var chains: seq<IKChain>
    var chainIdCounter: int

    constructor (g: BoneGraph)
      requires g.Valid()
      ensures this.g == g && chains == [] && chainIdCounter == 0
      ensures Valid()
    {
      this.g := g;
      chains := [];
      chainIdCounter := 0;
    }

    /** The bones of every chain some bone lists. */
    function AllBones(): Snapshot
      reads g, g.Listed()`bones
    {
      map c | c in g.Listed() :: c.bones
    }

    /**
     * The graph is valid, the tracked chains are distinct and listed, and no
     * bone is a non-tail link of two tracked chains.
     */
    ghost predicate Valid()
      reads this, g, g.Listed()`bones, chains`bones
    {
      && g.Valid()
      && NoDup(chains)
      && (forall i :: 0 <= i < |chains| ==> chains[i] in g.Listed())
      && Exclusive(BonesOf(chains))
    }

    /** Every tracked chain's `lockTail` is what `LockRule` says for it. */
    predicate TailsLocked()
      reads this, chains, g, g.Listed()`bones
    {
      WellFormed(g.nodes) && forall i :: 0 <= i < |chains| ==> chains[i].lockTail == LockRule(g.nodes, g.ik, AllBones(), chains[i].bones)
    }

    /** The tracked chains are live in the graph. */
    lemma TrackedConsistent()
      requires Valid()
      ensures Consistent(g.nodes, g.ik, BonesOf(chains))
    {
      forall c | c in BonesOf(chains)
        ensures LiveChain(g.nodes, g.ik, c, BonesOf(chains)[c])
      {
        assert c in chains;
      }
    }

    /** `canAnyChainGrowFromBone`: filters the bone's chains to tracked ones, then checks each ends at the bone. */
    method CanAnyChainGrowFromBone(bone: NodeId) returns (r: bool)
      ensures r == Available(g.ik, BonesOf(chains), bone)
    {
      if bone !in g.ik {
        return true;
      }
      var list := g.ik[bone].chains;
      var i := 0;
      while i < |list|
        invariant 0 <= i <= |list|
        invariant forall j :: 0 <= j < i && list[j] in chains ==> IsTail(list[j].bones, bone)
      {
        var c := list[i];
        if c in chains && !(|c.bones| > 0 && c.bones[|c.bones| - 1] == bone) {
          assert c in ChainsAt(g.ik, bone) && c in BonesOf(chains) && BonesOf(chains)[c] == c.bones;
          return false;
        }
        i := i + 1;
      }
      return true;
    }

    /**
     * `addChain`: true for a tracked chain; otherwise true exactly when every
     * link but the tail is available. The chain is never inserted.
     */
    method AddChain(chain: IKChain) returns (r: bool)
      ensures r <==> chain in chains || forall i :: 0 <= i < |chain.bones| - 1 ==> Available(g.ik, BonesOf(chains), chain.bones[i])
    {
      if chain in chains {
        return true;
      }
      var i := 0;
      while i < |chain.bones| - 1
        invariant 0 <= i <= |chain.bones|
        invariant forall j :: 0 <= j < i ==> Available(g.ik, BonesOf(chains), chain.bones[j])
      {
        var ok := CanAnyChainGrowFromBone(chain.bones[i]);
        if !ok {
          return false;
        }
        i := i + 1;
      }
      return true;
    }

    /** `removeChain`: a tracked chain leaves the set and is disposed; any other chain is ignored. */
    method RemoveChain(chain: IKChain)
      requires Valid()
      modifies this`chains, g`ik
      ensures chain in old(chains) ==>
        && chains == Without(old(chains), {chain})
        && g.ik == UnregisterAll(old(g.ik), chain, chain.bones)
        && g.Listed() == old(g.Listed()) - {chain}
      ensures chain !in old(chains) ==> chains == old(chains) && g.ik == old(g.ik)
      ensures Valid()
    {
      if chain in chains {
        ghost var tracked := BonesOf(chains);
        ghost var listed := g.Listed();
        ghost var chains0 := chains;
        WithoutNoDup(chains, {chain});
        WithoutFacts(chains, {chain});
        chains := Without(chains, {chain});
        chain.Dispose(g);
        forall i | 0 <= i < |chains|
          ensures chains[i] in g.Listed()
        {
          assert chains[i] in chains0 && chains[i] != chain;
        }
        ExclusiveSubset(tracked, BonesOf(chains));
      }
    }

    /** `removeAllChains`: disposes every tracked chain, then empties the set and resets the counter. */
    method RemoveAllChains()
      requires Valid()
      modifies this`chains, this`chainIdCounter, g`ik
      ensures chains == [] && chainIdCounter == 0
      ensures g.Listed() == old(g.Listed()) - set c | c in old(chains)
      ensures g.ik == DisposeEach(old(g.ik), old(chains), old(BonesOf(chains)))
      ensures Valid()
    {
      DisposeChains(g, chains);
      chains := [];
      chainIdCounter := 0;
    }

    /**
     * `lockChainTails`: for every tracked chain, recomputes `lockTail` from
     * the chains its tail lists and from whether the tail is a root.
     */
    method LockChainTails()
      requires Valid()
      modifies chains`lockTail
      ensures TailsLocked()
    {
      var i := 0;
      while i < |chains|
        invariant 0 <= i <= |chains|
        invariant Valid()
        invariant forall j :: 0 <= j < i ==> chains[j].lockTail == LockRule(g.nodes, g.ik, AllBones(), chains[j].bones)
      {
        assert LiveChain(g.nodes, g.ik, chains[i], chains[i].bones);
        LockTail(chains[i]);
        assert forall j :: 0 <= j < i ==> chains[j] != chains[i];
        i := i + 1;
      }
    }

    /** The body of the `lockChainTails` loop, for one chain. */
    method LockTail(chain: IKChain)
      requires WellFormed(g.nodes) && chain.bones != [] && chain.bones[|chain.bones| - 1] < |g.nodes|
      modifies chain`lockTail
      ensures chain.lockTail == LockRule(g.nodes, g.ik, AllBones(), chain.bones)
    {
      var tail := chain.bones[|chain.bones| - 1];
      chain.lockTail := false;
      var list := ChainsAt(g.ik, tail);
      assert forall c :: c in list ==> c in g.Listed();
      if |list| > 1 {
        var some := SomeEndsElsewhere(list, tail);
        if some {
          chain.lockTail := true;
        }
      }
      var root := RootBone(g.nodes, tail);
      if root == tail {
        chain.lockTail := true;
      }
    }

    /** The `some` test of `lockChainTails`: whether a chain of `list` does not end at `tail`. */
    method SomeEndsElsewhere(list: seq<IKChain>, tail: NodeId) returns (r: bool)
      requires forall c :: c in list ==> c in g.Listed()
      ensures r <==> exists c :: c in list && c in AllBones() && !IsTail(AllBones()[c], tail)
    {
      var i := 0;
      while i < |list|
        invariant 0 <= i <= |list|
        invariant forall j :: 0 <= j < i ==> IsTail(list[j].bones, tail)
      {
        var c := list[i];
        if !(|c.bones| > 0 && c.bones[|c.bones| - 1] == tail) {
          assert c in AllBones();
          return true;
        }
        i := i + 1;
      }
      return false;
    }

    /**
     * The walk of `setChainSize`: a size above the current one is cut down to
     * the current size plus the steps up from the tail that stay on
     * available bones.
     */
    method ClampSize(chain: IKChain, size: int) returns (target: int)
      requires WellFormed(g.nodes) && AncestorPath(g.nodes, chain.bones)
      ensures target == Target(g.nodes, g.ik, BonesOf(chains), chain.bones, size)
    {
      var f := g.nodes;
      var current := |chain.bones| - 1;
      if size <= current {
        return size;
      }
      ghost var ik := g.ik;
      ghost var tracked := BonesOf(chains);
      var n := size - current;
      var i := 0;
      var cur: NodeId := chain.bones[current];
      var parent := BoneParent(f, cur);
      var ok := CanAnyChainGrowFromBone(cur);
      while i < n && parent.Some? && ok
        invariant 0 <= i <= n && cur < |f|
        invariant parent == BoneParent(f, cur) && ok == Available(ik, tracked, cur)
        invariant i + Walk(f, ik, tracked, cur, n - i) == Walk(f, ik, tracked, chain.bones[current], n)
        decreases n - i
      {
        i := i + 1;
        cur := parent.value;
        parent := BoneParent(f, cur);
        ok := CanAnyChainGrowFromBone(cur);
      }
      return current + i;
    }

    /**
     * `setChainSize`: ignored, with a false result, for an untracked chain.
     * Otherwise a larger size is clamped by the walk from the tail, the
     * chain is resized, and every tracked chain's tail lock is recomputed.
     */
    method SetChainSize(chain: IKChain, size: int) returns (success: bool)
      requires Valid()
      modifies chain`bones, g`ik, chains`lockTail
      ensures chain !in chains ==> !success && unchanged(chain, g) && unchanged(chains)
      ensures chain in chains ==>
        var r := Resize(g.nodes, old(g.ik), chain, old(chain.bones), Target(g.nodes, old(g.ik), old(BonesOf(chains)), old(chain.bones), size));
        success == r.changed && chain.bones == r.bones && g.ik == r.ik && TailsLocked()
      ensures Valid() && g.Listed() == old(g.Listed())
    {
      if chain !in chains {
        return false;
      }
      success := SetTrackedSize(chain, size);
      LockChainTails();
    }

    /** `setChainSize` for a tracked chain, before the tails are locked again. */
    method SetTrackedSize(chain: IKChain, size: int) returns (success: bool)
      requires Valid() && chain in chains
      modifies chain`bones, g`ik
      ensures var r := Resize(g.nodes, old(g.ik), chain, old(chain.bones), Target(g.nodes, old(g.ik), old(BonesOf(chains)), old(chain.bones), size));
        success == r.changed && chain.bones == r.bones && g.ik == r.ik
      ensures Valid() && g.Listed() == old(g.Listed())
    {
      ghost var tracked := BonesOf(chains);
      TrackedConsistent();
      KeepsExclusive(g.nodes, g.ik, tracked, chain, size);
      success := ResizeTracked(chain, size);
      BonesOfChange(chains, chain, tracked);
    }

    /** The resizing step of `setChainSize`, for a chain some bone lists. */
    method ResizeTracked(chain: IKChain, size: int) returns (success: bool)
      requires g.Valid() && chain in g.Listed()
      modifies chain`bones, g`ik
      ensures var r := Resize(g.nodes, old(g.ik), chain, old(chain.bones), Target(g.nodes, old(g.ik), old(BonesOf(chains)), old(chain.bones), size));
        success == r.changed && chain.bones == r.bones && g.ik == r.ik
      ensures g.Valid() && g.Listed() == old(g.Listed())
    {
      assert LiveChain(g.nodes, g.ik, chain, chain.bones);
      var target := ClampSize(chain, size);
      var warning;
      success, warning := chain.SetSize(g, target);
    }

    /**
     * The first half of `createChainFromBone`: a new chain of size 1 at an
     * available effector, with the next id, appended to the tracked chains.
     */
    method StartChain(effector: NodeId) returns (c: IKChain)
      requires Valid() && IsBone(g.nodes, effector) && Available(g.ik, BonesOf(chains), effector)
      modifies this`chains, this`chainIdCounter, g`ik
      ensures fresh(c) && c.id == old(chainIdCounter) && chainIdCounter == old(chainIdCounter) + 1
      ensures chains == old(chains) + [c]
      ensures AncestorPath(g.nodes, c.bones) && c.bones[0] == effector
      ensures var r := Resize(g.nodes, Register(old(g.ik), effector, c), c, [effector], 1);
        c.bones == r.bones && g.ik == r.ik
      ensures BonesOf(chains) == old(BonesOf(chains))[c := c.bones]
      ensures Valid()
    {
      ghost var tracked := BonesOf(chains);
      TrackedConsistent();
      c := NewChain(g, chainIdCounter, effector, tracked);
      chainIdCounter := chainIdCounter + 1;
      BonesOfSame(chains, tracked);
      Track(c);
    }

    /** Appends a listed, untracked chain whose bones keep the chains exclusive. */
    method Track(c: IKChain)
      requires g.Valid() && NoDup(chains) && (forall i :: 0 <= i < |chains| ==> chains[i] in g.Listed())
      requires c in g.Listed() && c !in chains && Exclusive(BonesOf(chains)[c := c.bones])
      modifies this`chains
      ensures chains == old(chains) + [c] && BonesOf(chains) == old(BonesOf(chains))[c := c.bones] && Valid()
    {
      BonesOfAppend(chains, c);
      chains := chains + [c];
    }

    /**
     * `createChainFromBone`: refuses a size below 1 and an effector that is
     * not available; otherwise creates a chain of size 1 with the next id,
     * tracks it, and sets its size.
     */
    method CreateChainFromBone(effector: NodeId, size: int) returns (chain: Option<IKChain>)
      requires Valid() && IsBone(g.nodes, effector)
      modifies this`chains, this`chainIdCounter, g`ik, chains`lockTail
      ensures chain.None? <==> size < 1 || !Available(old(g.ik), old(BonesOf(chains)), effector)
      ensures chain.None? ==> chains == old(chains) && chainIdCounter == old(chainIdCounter) && g.ik == old(g.ik)
      ensures chain.Some? ==>
        && fresh(chain.value) && chain.value.id == old(chainIdCounter)
        && chainIdCounter == old(chainIdCounter) + 1
        && chains == old(chains) + [chain.value]
        && AncestorPath(g.nodes, chain.value.bones) && chain.value.bones[0] == effector
        && |chain.value.bones| - 1 <= size
        && TailsLocked()
      ensures chain.Some? ==>
        var r := Created(g.nodes, old(g.ik), old(BonesOf(chains)), chain.value, effector, size);
        chain.value.bones == r.bones && g.ik == r.ik
      ensures Valid()
    {
      if size < 1 {
        return None;
      }
      var ok := CanAnyChainGrowFromBone(effector);
      if !ok {
        return None;
      }
      var c := StartChain(effector);
      ghost var ik1 := g.ik;
      ghost var bones1 := c.bones;
      ghost var tracked1 := BonesOf(chains);
      var sized := SetChainSize(c, size);
      ClampedResize(g.nodes, ik1, tracked1, c, bones1, size);
      chain := Some(c);
    }

    /**
     * `canIncreaseChain`: each of the `delta` steps up from the tail needs a
     * parent bone and an available bone; then the chain itself must agree.
     */
    method CanIncreaseChain(chain: IKChain, delta: int) returns (r: bool)
      requires WellFormed(g.nodes) && AncestorPath(g.nodes, chain.bones)
      ensures r <==> delta <= 0 || Walk(g.nodes, g.ik, BonesOf(chains), chain.bones[|chain.bones| - 1], delta) == delta
    {
      var f := g.nodes;
      ghost var ik := g.ik;
      ghost var tracked := BonesOf(chains);
      var tail := chain.bones[|chain.bones| - 1];
      ghost var m: nat := if delta > 0 then delta else 0;
      var current: NodeId := tail;
      var i := 0;
      while i < delta
        invariant 0 <= i <= m && current < |f|
        invariant i + Walk(f, ik, tracked, current, m - i) == Walk(f, ik, tracked, tail, m)
      {
        var parent := BoneParent(f, current);
        var ok := CanAnyChainGrowFromBone(current);
        if parent.None? || !ok {
          return false;
        }
        current := parent.value;
        i := i + 1;
      }
      WalkFacts(f, ik, tracked, tail, m);
      r := chain.CanIncrease(g, delta);
    }

    /** `canDecreaseChain`: the chain's own test, which holds iff shrinking by `delta` leaves at least one link. */
    function CanDecreaseChain(chain: IKChain, delta: int): (r: bool)
      reads this, g, chain
      ensures WellFormed(g.nodes) && AncestorPath(g.nodes, chain.bones) && delta >= 0 ==>
        (r <==> Resize(g.nodes, g.ik, chain, chain.bones, chain.Size() - delta).warning.None?)
    {
      if WellFormed(g.nodes) && AncestorPath(g.nodes, chain.bones) then
        DecreaseMeaning(g.nodes, g.ik, chain, chain.bones, delta);
        chain.CanDecrease(delta)
      else
        chain.CanDecrease(delta)
    }

    /**
     * `solveChains`: the roots of the given chains' tails, each once; a
     * breadth-first traversal from each root; every chain listed at a
     * visited bone and not solved yet is solved, in that order.
     */
    method SolveChains(subset: seq<IKChain>, aligned: (IKChain, seq<nat>, NodeId) -> bool) returns (solved: seq<IKChain>)
      requires Valid() && forall i :: 0 <= i < |subset| ==> AncestorPath(g.nodes, subset[i].bones)
      modifies g`ik, g`turns
      ensures Valid() && g.Listed() == old(g.Listed())
      ensures forall c :: c in solved ==> c in g.Listed()
      ensures solved == Dedup(ListsAt(old(g.ik), Visits(g.nodes, old(Dedup(TailRoots(g.nodes, subset))))))
      ensures (g.ik, g.turns) == SolveAll(g.nodes, old(g.ik), old(g.turns), solved, aligned)
    {
      ghost var tracked := BonesOf(chains);
      solved := SolveSubset(subset, aligned);
      assert forall c :: c in chains ==> c.bones == tracked[c];
      BonesOfSame(chains, tracked);
    }

    /** The work of `solveChains` on the bone graph, for chains it lists. */
    method SolveSubset(subset: seq<IKChain>, aligned: (IKChain, seq<nat>, NodeId) -> bool) returns (solved: seq<IKChain>)
      requires g.Valid() && forall i :: 0 <= i < |subset| ==> AncestorPath(g.nodes, subset[i].bones)
      modifies g`ik, g`turns
      ensures g.Valid() && g.Listed() == old(g.Listed())
      ensures forall c :: c in solved ==> c in g.Listed()
      ensures solved == Dedup(ListsAt(old(g.ik), Visits(g.nodes, old(Dedup(TailRoots(g.nodes, subset))))))
      ensures (g.ik, g.turns) == SolveAll(g.nodes, old(g.ik), old(g.turns), solved, aligned)
    {
      var roots := CollectRoots(subset);
      DistinctRootsAreBones(g.nodes, subset);
      ghost var ik0 := g.ik;
      solved := SolveRoots(roots, aligned);
      ListsAtListed(ik0, Visits(g.nodes, roots));
      SolvedListed(g.ik, ik0, ListsAt(ik0, Visits(g.nodes, roots)));
    }

    /** The traversals from `roots`, in order, each solving the chains it reaches for the first time. */
    method SolveRoots(roots: seq<NodeId>, aligned: (IKChain, seq<nat>, NodeId) -> bool) returns (solved: seq<IKChain>)
      requires g.Valid() && forall i :: 0 <= i < |roots| ==> IsBone(g.nodes, roots[i])
      modifies g`ik, g`turns
      ensures g.Valid() && SameLists(g.ik, old(g.ik))
      ensures solved == AddNew([], ListsAt(old(g.ik), Visits(g.nodes, roots)))
      ensures (g.ik, g.turns) == SolveAll(g.nodes, old(g.ik), old(g.turns), solved, aligned)
    {
      var f := g.nodes;
      ghost var ik0 := g.ik;
      ghost var turns0 := g.turns;
      solved := [];
      var k := 0;
      while k < |roots|
        invariant 0 <= k <= |roots|
        invariant g.Valid() && SameLists(g.ik, ik0)
        invariant solved == AddNew([], ListsAt(ik0, Visits(f, roots[..k])))
        invariant (g.ik, g.turns) == SolveAll(f, ik0, turns0, solved, aligned)
      {
        RootsStep(f, ik0, roots, k);
        solved := SolveTree(roots[k], solved, ik0, turns0, aligned);
        k := k + 1;
      }
      assert roots[..k] == roots;
    }

    /** The traversal from one root bone, solving the chains it reaches for the first time. */
    method SolveTree(root: NodeId, solved0: seq<IKChain>, ghost ik0: IkMap, ghost turns0: seq<nat>,
                     aligned: (IKChain, seq<nat>, NodeId) -> bool)
      returns (solved: seq<IKChain>)
      requires g.Valid() && IsBone(g.nodes, root) && SameLists(g.ik, ik0) && |turns0| == |g.nodes|
      requires (g.ik, g.turns) == SolveAll(g.nodes, ik0, turns0, solved0, aligned)
      modifies g`ik, g`turns
      ensures g.Valid() && SameLists(g.ik, ik0)
      ensures Bounded(g.nodes, [root]) && solved == AddNew(solved0, ListsAt(ik0, BFS(g.nodes, [root])))
      ensures (g.ik, g.turns) == SolveAll(g.nodes, ik0, turns0, solved, aligned)
    {
      var visited := BoneBFTraverse(g.nodes, root);
      solved := SolveVisited(visited, solved0, ik0, turns0, aligned);
    }

    /** The roots of the chains' tails, each once, in first-seen order. */
    method CollectRoots(subset: seq<IKChain>) returns (roots: seq<NodeId>)
      requires WellFormed(g.nodes) && forall i :: 0 <= i < |subset| ==> AncestorPath(g.nodes, subset[i].bones)
      ensures roots == Dedup(TailRoots(g.nodes, subset))
    {
      var f := g.nodes;
      roots := [];
      var i := 0;
      assert subset[..0] == [];
      while i < |subset|
        invariant 0 <= i <= |subset|
        invariant roots == AddNew([], TailRoots(f, subset[..i]))
      {
        roots := AddTailRoot(f, subset, i, roots);
        i := i + 1;
      }
      assert subset[..i] == subset;
    }

    /** The traversal callback of `solveChains`, over the visited bones in order. */
    method SolveVisited(visited: seq<NodeId>, solved0: seq<IKChain>, ghost ik0: IkMap, ghost turns0: seq<nat>,
                        aligned: (IKChain, seq<nat>, NodeId) -> bool)
      returns (solved: seq<IKChain>)
      requires g.Valid() && SameLists(g.ik, ik0) && |turns0| == |g.nodes|
      requires (g.ik, g.turns) == SolveAll(g.nodes, ik0, turns0, solved0, aligned)
      modifies g`ik, g`turns
      ensures g.Valid() && SameLists(g.ik, ik0)
      ensures solved == AddNew(solved0, ListsAt(ik0, visited))
      ensures (g.ik, g.turns) == SolveAll(g.nodes, ik0, turns0, solved, aligned)
    {
      solved := solved0;
      var i := 0;
      while i < |visited|
        invariant 0 <= i <= |visited|
        invariant g.Valid() && SameLists(g.ik, ik0)
        invariant solved == AddNew(solved0, ListsAt(ik0, visited[..i]))
        invariant (g.ik, g.turns) == SolveAll(g.nodes, ik0, turns0, solved, aligned)
      {
        ListsAtSnoc(ik0, visited, i);
        AddNewAppend(solved0, ListsAt(ik0, visited[..i]), ChainsAt(ik0, visited[i]));
        solved := SolveAt(visited[i], solved, ik0, turns0, aligned);
        i := i + 1;
      }
      assert visited[..i] == visited;
    }

    /** One bone of the traversal: solves, in list order, each chain it lists that is not solved yet. */
    method SolveAt(bone: NodeId, solved0: seq<IKChain>, ghost ik0: IkMap, ghost turns0: seq<nat>,
                   aligned: (IKChain, seq<nat>, NodeId) -> bool)
      returns (solved: seq<IKChain>)
      requires g.Valid() && SameLists(g.ik, ik0) && |turns0| == |g.nodes|
      requires (g.ik, g.turns) == SolveAll(g.nodes, ik0, turns0, solved0, aligned)
      modifies g`ik, g`turns
      ensures g.Valid() && SameLists(g.ik, ik0)
      ensures solved == AddNew(solved0, ChainsAt(ik0, bone))
      ensures (g.ik, g.turns) == SolveAll(g.nodes, ik0, turns0, solved, aligned)
    {
      solved := solved0;
      if bone !in g.ik {
        assert ChainsAt(ik0, bone) == [];
        return;
      }
      var list := g.ik[bone].chains;
      var j := 0;
      while j < |list|
        invariant 0 <= j <= |list| && list == ChainsAt(ik0, bone)
        invariant g.Valid() && SameLists(g.ik, ik0)
        invariant solved == AddNew(solved0, list[..j])
        invariant (g.ik, g.turns) == SolveAll(g.nodes, ik0, turns0, solved, aligned)
      {
        var chain := list[j];
        AddNewNext(solved0, list, j);
        if chain !in solved {
          SolveOne(bone, chain, solved, ik0, turns0, aligned);
          solved := solved + [chain];
        }
        j := j + 1;
      }
      assert list[..j] == list;
    }

    /** Solves one chain listed at `bone`, extending the solved order by it. */
    method SolveOne(bone: NodeId, chain: IKChain, solved: seq<IKChain>, ghost ik0: IkMap, ghost turns0: seq<nat>,
                    aligned: (IKChain, seq<nat>, NodeId) -> bool)
      requires g.Valid() && SameLists(g.ik, ik0) && |turns0| == |g.nodes|
      requires chain in ChainsAt(g.ik, bone)
      requires (g.ik, g.turns) == SolveAll(g.nodes, ik0, turns0, solved, aligned)
      modifies g`ik, g`turns
      ensures g.Valid() && SameLists(g.ik, ik0)
      ensures (g.ik, g.turns) == SolveAll(g.nodes, ik0, turns0, solved + [chain], aligned)
    {
      assert bone in g.ik && chain in g.ik[bone].chains;
      assert AncestorPath(g.nodes, chain.bones);
      ghost var before := SolveAll(g.nodes, ik0, turns0, solved, aligned);
      chain.Solve(g, aligned);
      SolveAllSnoc(g.nodes, ik0, turns0, solved, chain, aligned);
      assert SolveAll(g.nodes, ik0, turns0, solved, aligned) == before;
    }
  }
}
