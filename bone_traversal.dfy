/**
 * Breadth-first traversal of a bone tree: the root is visited first, then
 * every bone of the next level in queue order, the bone children of each
 * visited bone being appended to the queue. A bone has one parent, so the
 * walk needs no visited set.
 */
module Traversal {
  import opened Wrappers
  import opened Seqs
  import opened BoneUtils

  /** Bones in the subtree of `b`, `b` included. */
  function SubtreeSize(f: Forest, b: NodeId): nat
    requires WellFormed(f) && b < |f|
    decreases |f| - b, 1
  {
    ChildrenAbove(f, b);
    1 + SumSizes(f, b, BoneChildren(f, b))
  }

  /** Total subtree size of the nodes of `s`, all numbered above `lo`. */
  function SumSizes(f: Forest, lo: int, s: seq<NodeId>): nat
    requires WellFormed(f) && forall i :: 0 <= i < |s| ==> lo < s[i] < |f|
    decreases |f| - lo, 0, |s|
  {
    if s == [] then 0
    else
      SubtreeSize(f, s[0]) + SumSizes(f, lo, s[1..])
  }

  /** Total subtree size of the nodes of a queue: the number of visits left. */
  function QueueSize(f: Forest, q: seq<NodeId>): nat
    requires WellFormed(f) && Bounded(f, q)
  {
    SumSizes(f, -1, q)
  }

  /** The bone children of `b` lie above it in the arena and have `b` as parent. */
  lemma ChildrenAbove(f: Forest, b: NodeId)
    requires WellFormed(f) && b < |f|
    ensures forall c :: c in BoneChildren(f, b) ==> b < c < |f| && f[c].isBone && f[c].parent == Some(b)
    ensures forall i :: 0 <= i < |BoneChildren(f, b)| ==> b < BoneChildren(f, b)[i] < |f|
    ensures NoDup(BoneChildren(f, b))
  {
    ChildLinks(f, b);
    forall c | c in BoneChildren(f, b)
      ensures b < c
    {
      assert LinkedUp(f, c);
    }
    forall i | 0 <= i < |BoneChildren(f, b)|
      ensures b < BoneChildren(f, b)[i] < |f|
    {
      assert BoneChildren(f, b)[i] in BoneChildren(f, b);
    }
  }

  /** The bound used for termination does not change the sum. */
  lemma {:induction false} SumSizesBound(f: Forest, lo: int, lo': int, s: seq<NodeId>)
    requires WellFormed(f) && forall i :: 0 <= i < |s| ==> lo < s[i] < |f| && lo' < s[i]
    ensures SumSizes(f, lo, s) == SumSizes(f, lo', s)
    decreases |s|
  {
    if s != [] {
      SumSizesBound(f, lo, lo', s[1..]);
    }
  }

  /** Sizes add up over a concatenation. */
  lemma {:induction false} QueueSizeAppend(f: Forest, a: seq<NodeId>, b: seq<NodeId>)
    requires WellFormed(f) && (forall i :: 0 <= i < |a| ==> a[i] < |f|) && (forall i :: 0 <= i < |b| ==> b[i] < |f|)
    ensures QueueSize(f, a + b) == QueueSize(f, a) + QueueSize(f, b)
    decreases |a|
  {
    if a == [] {
      assert a + b == b;
    } else {
      assert (a + b)[0] == a[0] && (a + b)[1..] == a[1..] + b;
      QueueSizeAppend(f, a[1..], b);
      assert QueueSize(f, a + b) == SubtreeSize(f, a[0]) + QueueSize(f, a[1..] + b);
      assert QueueSize(f, a) == SubtreeSize(f, a[0]) + QueueSize(f, a[1..]);
    }
  }

  /** Visiting the head of a queue and queueing its bone children leaves one visit fewer. */
  lemma QueueSizeStep(f: Forest, q: seq<NodeId>)
    requires WellFormed(f) && q != [] && forall i :: 0 <= i < |q| ==> q[i] < |f|
    ensures forall i :: 0 <= i < |BoneChildren(f, q[0])| ==> BoneChildren(f, q[0])[i] < |f|
    ensures QueueSize(f, q[1..] + BoneChildren(f, q[0])) + 1 == QueueSize(f, q)
  {
    var c := BoneChildren(f, q[0]);
    ChildrenAbove(f, q[0]);
    QueueSizeAppend(f, q[1..], c);
    SumSizesBound(f, q[0], -1, c);
    assert SubtreeSize(f, q[0]) == 1 + SumSizes(f, q[0], c);
    assert QueueSize(f, q) == SubtreeSize(f, q[0]) + QueueSize(f, q[1..]);
  }

  /** Every queued node lies in the arena. */
  predicate Bounded(f: Forest, q: seq<NodeId>) {
    forall i :: 0 <= i < |q| ==> q[i] < |f|
  }

  /** The queue after visiting its head: the rest, then the head's bone children. */
  function Next(f: Forest, q: seq<NodeId>): (r: seq<NodeId>)
    requires WellFormed(f) && q != [] && Bounded(f, q)
    ensures Bounded(f, r) && QueueSize(f, r) < QueueSize(f, q)
  {
    QueueSizeStep(f, q);
    q[1..] + BoneChildren(f, q[0])
  }

  /** The order `boneBFTraverse` visits bones in, starting from queue `q`. */
  function BFS(f: Forest, q: seq<NodeId>): seq<NodeId>
    requires WellFormed(f) && Bounded(f, q)
    decreases QueueSize(f, q)
  {
    if q == [] then [] else [q[0]] + BFS(f, Next(f, q))
  }

  /**
   * `order` lists every bone of the subtree of `root` exactly once, the root
   * first, and level by level: a bone is never visited after a deeper one.
   */
  ghost predicate IsLevelOrder(f: Forest, root: NodeId, order: seq<NodeId>)
    requires WellFormed(f)
  {
    && |order| > 0 && order[0] == root
    && NoDup(order)
    && (forall i :: 0 <= i < |order| ==> IsBone(f, order[i]))
    && (forall x :: x in order <==> IsBone(f, x) && InSubtree(f, root, x))
    && (forall i, j :: 0 <= i < j < |order| ==> BoneDepth(f, order[i]) <= BoneDepth(f, order[j]))
  }

  /** A node of the subtree of `a` is numbered no lower than `a`. */
  lemma {:induction false} SubtreeAbove(f: Forest, a: NodeId, x: NodeId)
    requires WellFormed(f) && x < |f| && InSubtree(f, a, x)
    ensures a <= x
    decreases x
  {
    if x != a {
      SubtreeAbove(f, a, BoneParent(f, x).value);
    }
  }

  /** Every node seen is a bone of the subtree of `root`, the root first. */
  predicate Seen(f: Forest, root: NodeId, w: seq<NodeId>)
    requires WellFormed(f)
  {
    |w| > 0 && w[0] == root && forall i :: 0 <= i < |w| ==> IsBone(f, w[i]) && InSubtree(f, root, w[i])
  }

  /** Every node seen after the root was reached from a visited parent. */
  predicate ParentsVisited(f: Forest, w: seq<NodeId>, done: seq<NodeId>)
    requires WellFormed(f)
  {
    forall i :: 0 < i < |w| ==> IsBone(f, w[i]) && BoneParent(f, w[i]).Some? && BoneParent(f, w[i]).value in done
  }

  /** Every bone child of a visited node has been seen. */
  predicate Closed(f: Forest, done: seq<NodeId>, w: seq<NodeId>)
    requires WellFormed(f)
  {
    forall y, c :: y in done && y < |f| && c in BoneChildren(f, y) ==> c in w
  }

  /** Depths never decrease along `w`. */
  predicate Levels(f: Forest, w: seq<NodeId>)
    requires WellFormed(f)
  {
    forall i, j :: 0 <= i < j < |w| ==> IsBone(f, w[i]) && IsBone(f, w[j]) && BoneDepth(f, w[i]) <= BoneDepth(f, w[j])
  }

  /** The last node seen is at most one level below the head of the queue. */
  predicate Frontier(f: Forest, w: seq<NodeId>, queue: seq<NodeId>)
    requires WellFormed(f)
  {
    queue != [] ==> |w| > 0 && IsBone(f, w[|w| - 1]) && IsBone(f, queue[0]) && BoneDepth(f, w[|w| - 1]) <= BoneDepth(f, queue[0]) + 1
  }

  /** `cs` are distinct bone children of `b`, numbered above it. */
  predicate ChildrenOf(f: Forest, b: NodeId, cs: seq<NodeId>)
    requires WellFormed(f)
  {
    NoDup(cs) && forall i :: 0 <= i < |cs| ==> b < cs[i] && IsBone(f, cs[i]) && BoneParent(f, cs[i]) == Some(b)
  }

  lemma BoneChildrenOf(f: Forest, b: NodeId)
    requires WellFormed(f) && IsBone(f, b)
    ensures ChildrenOf(f, b, BoneChildren(f, b))
  {
    var cs := BoneChildren(f, b);
    ChildrenAbove(f, b);
    forall i | 0 <= i < |cs|
      ensures b < cs[i] && IsBone(f, cs[i]) && BoneParent(f, cs[i]) == Some(b)
    {
      assert cs[i] in cs;
    }
  }

  lemma SeenStep(f: Forest, root: NodeId, w: seq<NodeId>, b: NodeId, cs: seq<NodeId>)
    requires WellFormed(f) && Seen(f, root, w) && b in w && ChildrenOf(f, b, cs)
    ensures Seen(f, root, w + cs)
  {
    var w' := w + cs;
    forall i | 0 <= i < |w'|
      ensures IsBone(f, w'[i]) && InSubtree(f, root, w'[i])
    {
      if i >= |w| {
        assert w'[i] == cs[i - |w|];
      } else {
        assert w'[i] == w[i];
      }
    }
  }

  lemma ParentsStep(f: Forest, w: seq<NodeId>, done: seq<NodeId>, b: NodeId, cs: seq<NodeId>)
    requires WellFormed(f) && ParentsVisited(f, w, done) && ChildrenOf(f, b, cs)
    ensures ParentsVisited(f, w + cs, done + [b])
  {
    var w' := w + cs;
    forall i | 0 < i < |w'|
      ensures IsBone(f, w'[i]) && BoneParent(f, w'[i]).Some? && BoneParent(f, w'[i]).value in done + [b]
    {
      if i >= |w| {
        assert w'[i] == cs[i - |w|];
      } else {
        assert w'[i] == w[i];
      }
    }
  }

  /** The children of the visited head are new: no seen node has the not yet visited `b` as parent. */
  lemma NoDupStep(f: Forest, root: NodeId, w: seq<NodeId>, done: seq<NodeId>, b: NodeId, cs: seq<NodeId>)
    requires WellFormed(f) && Seen(f, root, w) && ParentsVisited(f, w, done) && NoDup(w) && ChildrenOf(f, b, cs)
    requires b !in done && b < |f| && InSubtree(f, root, b)
    ensures NoDup(w + cs)
  {
    var w' := w + cs;
    SubtreeAbove(f, root, b);
    forall i, k | 0 <= i < |w| && 0 <= k < |cs|
      ensures w[i] != cs[k]
    {
      if i > 0 {
        assert BoneParent(f, w[i]).value in done;
        assert BoneParent(f, cs[k]) == Some(b);
      }
    }
    forall i, j | 0 <= i < j < |w'|
      ensures w'[i] != w'[j]
    {
      if j >= |w| {
        if i >= |w| {
          assert w'[i] == cs[i - |w|] && w'[j] == cs[j - |w|];
        } else {
          assert w'[i] == w[i] && w'[j] == cs[j - |w|];
        }
      } else {
        assert w'[i] == w[i] && w'[j] == w[j];
      }
    }
  }

  lemma ClosedStep(f: Forest, done: seq<NodeId>, w: seq<NodeId>, b: NodeId)
    requires WellFormed(f) && Closed(f, done, w) && b < |f|
    ensures Closed(f, done + [b], w + BoneChildren(f, b))
  {
    var w' := w + BoneChildren(f, b);
    forall y, c | y in done + [b] && y < |f| && c in BoneChildren(f, y)
      ensures c in w'
    {
      if y != b {
        assert y in done;
      }
    }
  }

  /** Every seen node is at most one level below the queue head. */
  lemma DepthsBelow(f: Forest, done: seq<NodeId>, queue: seq<NodeId>)
    requires WellFormed(f) && queue != [] && IsBone(f, queue[0])
    requires Levels(f, done + queue) && Frontier(f, done + queue, queue)
    ensures forall i :: 0 <= i < |done + queue| ==> IsBone(f, (done + queue)[i]) && BoneDepth(f, (done + queue)[i]) <= BoneDepth(f, queue[0]) + 1
  {
    var w := done + queue;
    assert queue[0] == w[|done|];
    forall i | 0 <= i < |w|
      ensures IsBone(f, w[i]) && BoneDepth(f, w[i]) <= BoneDepth(f, queue[0]) + 1
    {
      if i < |w| - 1 {
        assert BoneDepth(f, w[i]) <= BoneDepth(f, w[|w| - 1]);
      }
    }
  }

  /** Appending bones one level below everything seen keeps the level order. */
  lemma LevelsAppend(f: Forest, w: seq<NodeId>, cs: seq<NodeId>, d: nat)
    requires WellFormed(f) && Levels(f, w)
    requires forall i :: 0 <= i < |w| ==> IsBone(f, w[i]) && BoneDepth(f, w[i]) <= d + 1
    requires forall i :: 0 <= i < |cs| ==> IsBone(f, cs[i]) && BoneDepth(f, cs[i]) == d + 1
    ensures Levels(f, w + cs)
  {
    var w' := w + cs;
    forall i, j | 0 <= i < j < |w'|
      ensures IsBone(f, w'[i]) && IsBone(f, w'[j]) && BoneDepth(f, w'[i]) <= BoneDepth(f, w'[j])
    {
      if j >= |w| {
        assert w'[j] == cs[j - |w|];
        if i >= |w| {
          assert w'[i] == cs[i - |w|];
        } else {
          assert w'[i] == w[i];
        }
      } else {
        assert w'[i] == w[i] && w'[j] == w[j];
      }
    }
  }

  /** After the visit, the last node seen is still at most one level below the new queue head. */
  lemma FrontierStep(f: Forest, done: seq<NodeId>, queue: seq<NodeId>, cs: seq<NodeId>)
    requires WellFormed(f) && queue != [] && IsBone(f, queue[0])
    requires Levels(f, done + queue) && Frontier(f, done + queue, queue) && ChildrenOf(f, queue[0], cs)
    requires forall i :: 0 <= i < |cs| ==> BoneDepth(f, cs[i]) == BoneDepth(f, queue[0]) + 1
    ensures Frontier(f, done + queue + cs, queue[1..] + cs)
  {
    var w := done + queue;
    var w' := w + cs;
    var queue' := queue[1..] + cs;
    if queue' != [] {
      if |queue| > 1 {
        assert queue'[0] == w[|done| + 1] && queue[0] == w[|done|];
        assert BoneDepth(f, w[|done|]) <= BoneDepth(f, w[|done| + 1]);
      } else {
        assert queue'[0] == cs[0];
      }
      if cs != [] {
        assert w'[|w'| - 1] == cs[|cs| - 1];
      } else {
        assert w'[|w'| - 1] == w[|w| - 1];
      }
    }
  }

  /** Appending the children of the queue head keeps the depths in level order. */
  lemma LevelsStep(f: Forest, done: seq<NodeId>, queue: seq<NodeId>, cs: seq<NodeId>)
    requires WellFormed(f) && queue != [] && IsBone(f, queue[0])
    requires Levels(f, done + queue) && Frontier(f, done + queue, queue) && ChildrenOf(f, queue[0], cs)
    ensures Levels(f, done + queue + cs) && Frontier(f, done + queue + cs, queue[1..] + cs)
  {
    var d := BoneDepth(f, queue[0]);
    assert forall i :: 0 <= i < |cs| ==> BoneDepth(f, cs[i]) == d + 1;
    DepthsBelow(f, done, queue);
    LevelsAppend(f, done + queue, cs, d);
    FrontierStep(f, done, queue, cs);
  }

  /** A visited set closed under bone children holds every bone of the subtree. */
  lemma {:induction false} ClosedContains(f: Forest, root: NodeId, done: seq<NodeId>, x: NodeId)
    requires WellFormed(f) && root in done
    requires forall y, c :: y in done && y < |f| && c in BoneChildren(f, y) ==> c in done
    requires IsBone(f, x) && InSubtree(f, root, x)
    ensures x in done
    decreases x
  {
    if x != root {
      var p := BoneParent(f, x).value;
      ClosedContains(f, root, done, p);
      ParentChildInverse(f, p, x);
    }
  }

  /** Visiting the head keeps every seen node a bone of the subtree. */
  lemma SeenVisit(f: Forest, root: NodeId, done: seq<NodeId>, queue: seq<NodeId>)
    requires WellFormed(f) && queue != [] && Bounded(f, queue) && Seen(f, root, done + queue)
    ensures Seen(f, root, (done + [queue[0]]) + Next(f, queue))
  {
    var w := done + queue;
    var b := queue[0];
    assert b == w[|done|];
    var cs := BoneChildren(f, b);
    BoneChildrenOf(f, b);
    SeenStep(f, root, w, b, cs);
    assert (done + [b]) + Next(f, queue) == w + cs;
  }

  /** Visiting the head keeps the depths in level order. */
  lemma LevelsVisit(f: Forest, done: seq<NodeId>, queue: seq<NodeId>)
    requires WellFormed(f) && queue != [] && Bounded(f, queue)
    requires Levels(f, done + queue) && Frontier(f, done + queue, queue)
    ensures Levels(f, (done + [queue[0]]) + Next(f, queue)) && Frontier(f, (done + [queue[0]]) + Next(f, queue), Next(f, queue))
  {
    var b := queue[0];
    var cs := BoneChildren(f, b);
    BoneChildrenOf(f, b);
    LevelsStep(f, done, queue, cs);
    assert Next(f, queue) == queue[1..] + cs;
    assert (done + [b]) + (queue[1..] + cs) == done + queue + cs;
  }

  /** Visiting the head keeps the seen nodes distinct, each reached from a visited parent. */
  lemma NoDupVisit(f: Forest, root: NodeId, done: seq<NodeId>, queue: seq<NodeId>)
    requires WellFormed(f) && queue != [] && Bounded(f, queue)
    requires Seen(f, root, done + queue) && ParentsVisited(f, done + queue, done) && NoDup(done + queue)
    ensures ParentsVisited(f, (done + [queue[0]]) + Next(f, queue), done + [queue[0]])
    ensures NoDup((done + [queue[0]]) + Next(f, queue))
  {
    var w := done + queue;
    var b := queue[0];
    assert b == w[|done|];
    assert b !in done by {
      forall i | 0 <= i < |done|
        ensures done[i] != b
      {
        assert done[i] == w[i];
      }
    }
    var cs := BoneChildren(f, b);
    BoneChildrenOf(f, b);
    ParentsStep(f, w, done, b, cs);
    NoDupStep(f, root, w, done, b, cs);
    assert (done + [b]) + Next(f, queue) == w + cs;
  }

  /** Visiting the head keeps every bone child of a visited node seen. */
  lemma ClosedVisit(f: Forest, done: seq<NodeId>, queue: seq<NodeId>)
    requires WellFormed(f) && queue != [] && Bounded(f, queue) && Closed(f, done, done + queue)
    ensures Closed(f, done + [queue[0]], (done + [queue[0]]) + Next(f, queue))
  {
    var b := queue[0];
    ClosedStep(f, done, done + queue, b);
    assert (done + [b]) + Next(f, queue) == done + queue + BoneChildren(f, b);
  }

  /** The visit order from `queue` is its head followed by the order from the next queue. */
  lemma BFSUnfold(f: Forest, done: seq<NodeId>, queue: seq<NodeId>)
    requires WellFormed(f) && queue != [] && Bounded(f, queue)
    ensures done + BFS(f, queue) == (done + [queue[0]]) + BFS(f, Next(f, queue))
  {
    var rest := BFS(f, Next(f, queue));
    assert BFS(f, queue) == [queue[0]] + rest;
    assert done + ([queue[0]] + rest) == (done + [queue[0]]) + rest;
  }

  /** Visiting the whole queue keeps every seen node a bone of the subtree, the root first. */
  lemma {:induction false} SeenRun(f: Forest, root: NodeId, done: seq<NodeId>, queue: seq<NodeId>)
    requires WellFormed(f) && Bounded(f, queue) && Seen(f, root, done + queue)
    ensures Seen(f, root, done + BFS(f, queue))
    decreases QueueSize(f, queue)
  {
    if queue == [] {
      assert done + queue == done + BFS(f, queue);
    } else {
      SeenVisit(f, root, done, queue);
      SeenRun(f, root, done + [queue[0]], Next(f, queue));
      BFSUnfold(f, done, queue);
    }
  }

  /** Visiting the whole queue keeps depths in level order. */
  lemma {:induction false} LevelsRun(f: Forest, done: seq<NodeId>, queue: seq<NodeId>)
    requires WellFormed(f) && Bounded(f, queue)
    requires Levels(f, done + queue) && Frontier(f, done + queue, queue)
    ensures Levels(f, done + BFS(f, queue))
    decreases QueueSize(f, queue)
  {
    if queue == [] {
      assert done + queue == done + BFS(f, queue);
    } else {
      LevelsVisit(f, done, queue);
      LevelsRun(f, done + [queue[0]], Next(f, queue));
      BFSUnfold(f, done, queue);
    }
  }

  /** Visiting the whole queue never sees a node twice. */
  lemma {:induction false} NoDupRun(f: Forest, root: NodeId, done: seq<NodeId>, queue: seq<NodeId>)
    requires WellFormed(f) && Bounded(f, queue)
    requires Seen(f, root, done + queue) && ParentsVisited(f, done + queue, done) && NoDup(done + queue)
    ensures NoDup(done + BFS(f, queue))
    decreases QueueSize(f, queue)
  {
    if queue == [] {
      assert done + queue == done + BFS(f, queue);
    } else {
      SeenVisit(f, root, done, queue);
      NoDupVisit(f, root, done, queue);
      NoDupRun(f, root, done + [queue[0]], Next(f, queue));
      BFSUnfold(f, done, queue);
    }
  }

  /** Visiting the whole queue leaves the visited nodes closed under bone children. */
  lemma {:induction false} ClosedRun(f: Forest, done: seq<NodeId>, queue: seq<NodeId>)
    requires WellFormed(f) && Bounded(f, queue) && Closed(f, done, done + queue)
    ensures Closed(f, done + BFS(f, queue), done + BFS(f, queue))
    decreases QueueSize(f, queue)
  {
    if queue == [] {
      assert done + queue == done + BFS(f, queue);
    } else {
      ClosedVisit(f, done, queue);
      ClosedRun(f, done + [queue[0]], Next(f, queue));
      BFSUnfold(f, done, queue);
    }
  }

  /** The breadth-first order from a bone starts there, sees only bones of its subtree, and repeats none. */
  lemma BFSSeen(f: Forest, root: NodeId)
    requires WellFormed(f) && IsBone(f, root)
    ensures Seen(f, root, BFS(f, [root])) && NoDup(BFS(f, [root]))
  {
    assert [] + [root] == [root];
    assert [] + BFS(f, [root]) == BFS(f, [root]);
    SeenRun(f, root, [], [root]);
    NoDupRun(f, root, [], [root]);
  }

  /** The breadth-first order from a bone never visits a bone after a deeper one. */
  lemma BFSLevels(f: Forest, root: NodeId)
    requires WellFormed(f) && IsBone(f, root)
    ensures Levels(f, BFS(f, [root]))
  {
    assert [] + [root] == [root];
    assert [] + BFS(f, [root]) == BFS(f, [root]);
    LevelsRun(f, [], [root]);
  }

  /** The breadth-first order from a bone reaches every bone of its subtree. */
  lemma BFSReaches(f: Forest, root: NodeId)
    requires WellFormed(f) && IsBone(f, root)
    ensures forall x :: IsBone(f, x) && InSubtree(f, root, x) ==> x in BFS(f, [root])
  {
    var order := BFS(f, [root]);
    assert [] + [root] == [root];
    assert [] + order == order;
    ClosedRun(f, [], [root]);
    assert order[0] == root;
    forall x | IsBone(f, x) && InSubtree(f, root, x)
      ensures x in order
    {
      ClosedContains(f, root, order, x);
    }
  }

  /** The breadth-first order from a bone lists its subtree once each, root first, level by level. */
  lemma BFSLevelOrder(f: Forest, root: NodeId)
    requires WellFormed(f) && IsBone(f, root)
    ensures IsLevelOrder(f, root, BFS(f, [root]))
  {
    BFSSeen(f, root);
    BFSLevels(f, root);
    BFSReaches(f, root);
  }

  /** The queue still to be visited: the current bone, if any, then the queue. */
  function Pending(bone: Option<NodeId>, queue: seq<NodeId>): seq<NodeId> {
    (if bone.Some? then [bone.value] else []) + queue
  }

  /** Taking the head off a non-empty queue and putting it back restores the queue. */
  lemma PendingHead(q: seq<NodeId>)
    requires q != []
    ensures Pending(Some(q[0]), q[1..]) == q
  {
  }

  /** The pending queue after visiting bone `b`: the rest of the queue, then `b`'s bone children. */
  lemma PendingNext(f: Forest, b: NodeId, queue: seq<NodeId>)
    requires WellFormed(f) && b < |f| && Bounded(f, Pending(Some(b), queue))
    ensures Pending(Some(b), queue) != [] && Next(f, Pending(Some(b), queue)) == queue + BoneChildren(f, b)
  {
    assert Pending(Some(b), queue)[1..] == queue;
  }

  /**
   * `boneBFTraverse`: visits the current bone, queues its bone children,
   * and takes the next bone from the front of the queue until it is empty.
   * The callback is represented by the sequence of the bones it is applied to.
   */
  method BoneBFTraverse(f: Forest, root: NodeId) returns (visited: seq<NodeId>)
    requires WellFormed(f) && IsBone(f, root)
    ensures visited == BFS(f, [root])
  {
    visited := [];
    var queue: seq<NodeId> := [];
    var bone: Option<NodeId> := Some(root);
    while bone.Some?
      invariant Bounded(f, Pending(bone, queue))
      invariant bone.None? ==> queue == []
      invariant visited + BFS(f, Pending(bone, queue)) == BFS(f, [root])
      decreases QueueSize(f, Pending(bone, queue))
    {
      var b := bone.value;
      ghost var pending := Pending(bone, queue);
      BFSUnfold(f, visited, pending);
      PendingNext(f, b, queue);
      visited := visited + [b];
      var children := ChildrenBones(f, b);
      queue := queue + children;
      if queue == [] {
        bone := None;
      } else {
        PendingHead(queue);
        bone := Some(queue[0]);
        queue := queue[1..];
      }
    }
  }
}
