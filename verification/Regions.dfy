/**
 Growing fusable regions over the dominator tree (codegen/OpFuse.cpp:253-305).
 */
module Regions {
  import opened Wrappers
  import opened FusionGraph
  import opened PostDominators
  import opened Commands

  /** Every node on a path from s that does not pass t is legal. */
  ghost predicate AllLegal(succ: Edges, cmds: seq<Command>, s: nat, t: nat)
    requires Forward(succ) && |cmds| == |succ| && s < |succ|
    decreases |succ| - s
  {
    IsLegal(cmds[s]) && forall j :: 0 <= j < |succ[s]| && succ[s][j] != t ==> AllLegal(succ, cmds, succ[s][j], t)
  }

  /** x can be reached from s along edges whose heads are not t. */
  ghost predicate ReachesAvoiding(succ: Edges, s: nat, t: nat, x: nat)
    requires Forward(succ)
    decreases |succ| - s
  {
    x == s ||
    (s < |succ| && exists j :: 0 <= j < |succ[s]| && succ[s][j] != t && ReachesAvoiding(succ, succ[s][j], t, x))
  }

  lemma {:induction false} AllLegalReach(succ: Edges, cmds: seq<Command>, s: nat, t: nat, x: nat)
    requires Forward(succ) && |cmds| == |succ| && s < |succ|
    requires AllLegal(succ, cmds, s, t) && ReachesAvoiding(succ, s, t, x)
    ensures x < |succ| && AllLegal(succ, cmds, x, t)
    decreases |succ| - s
  {
    if x != s {
      var j :| 0 <= j < |succ[s]| && succ[s][j] != t && ReachesAvoiding(succ, succ[s][j], t, x);
      AllLegalReach(succ, cmds, succ[s][j], t, x);
    }
  }

  ghost predicate ReachedLegal(succ: Edges, cmds: seq<Command>, s: nat, t: nat)
    requires Forward(succ)
  {
    forall x: nat :: ReachesAvoiding(succ, s, t, x) ==> x < |cmds| && IsLegal(cmds[x])
  }

  /** What the walk decides: all nodes between s and t are legal. */
  lemma {:induction false} AllLegalIffReachedLegal(succ: Edges, cmds: seq<Command>, s: nat, t: nat)
    requires Forward(succ) && |cmds| == |succ| && s < |succ|
    ensures AllLegal(succ, cmds, s, t) <==> ReachedLegal(succ, cmds, s, t)
    decreases |succ| - s
  {
    if AllLegal(succ, cmds, s, t) {
      forall x: nat | ReachesAvoiding(succ, s, t, x) ensures x < |cmds| && IsLegal(cmds[x]) {
        AllLegalReach(succ, cmds, s, t, x);
      }
    }
    if ReachedLegal(succ, cmds, s, t) {
      assert ReachesAvoiding(succ, s, t, s);
      forall j | 0 <= j < |succ[s]| && succ[s][j] != t
        ensures AllLegal(succ, cmds, succ[s][j], t)
      {
        forall x: nat | ReachesAvoiding(succ, succ[s][j], t, x) ensures ReachesAvoiding(succ, s, t, x) {
        }
        AllLegalIffReachedLegal(succ, cmds, succ[s][j], t);
      }
    }
  }

  ghost predicate QueueLegal(succ: Edges, cmds: seq<Command>, queue: seq<nat>, t: nat)
    requires Forward(succ) && |cmds| == |succ| && Within(queue, -1, |succ|)
  {
    forall k :: 0 <= k < |queue| ==> AllLegal(succ, cmds, queue[k], t)
  }

  lemma QueueLegalPop(succ: Edges, cmds: seq<Command>, queue: seq<nat>, t: nat)
    requires Forward(succ) && |cmds| == |succ| && Within(queue, -1, |succ|) && queue != []
    ensures QueueLegal(succ, cmds, queue, t) <==>
      AllLegal(succ, cmds, queue[0], t) && QueueLegal(succ, cmds, queue[1..], t)
  {
    if AllLegal(succ, cmds, queue[0], t) && QueueLegal(succ, cmds, queue[1..], t) {
      forall k | 0 <= k < |queue| ensures AllLegal(succ, cmds, queue[k], t) {
        if k > 0 {
          assert queue[k] == queue[1..][k - 1];
        }
      }
    }
  }

  lemma QueueLegalAppend(succ: Edges, cmds: seq<Command>, a: seq<nat>, b: seq<nat>, t: nat)
    requires Forward(succ) && |cmds| == |succ| && Within(a, -1, |succ|) && Within(b, -1, |succ|)
    ensures Within(a + b, -1, |succ|)
    ensures QueueLegal(succ, cmds, a + b, t) <==> QueueLegal(succ, cmds, a, t) && QueueLegal(succ, cmds, b, t)
  {
    if QueueLegal(succ, cmds, a + b, t) {
      assert forall k :: 0 <= k < |a| ==> a[k] == (a + b)[k];
      assert forall k :: 0 <= k < |b| ==> b[k] == (a + b)[|a| + k];
    }
  }

  /** Pushes the successors of node other than t. */
  method PushSuccessors(succ: Edges, node: nat, t: nat, queue0: seq<nat>)
    returns (queue: seq<nat>, ghost pushed: seq<nat>)
    requires Forward(succ) && node < |succ| && Within(queue0, -1, |succ|)
    ensures queue == queue0 + pushed && Within(pushed, -1, |succ|)
    ensures forall k :: 0 <= k < |pushed| ==> pushed[k] != t && pushed[k] in succ[node]
    ensures forall k :: 0 <= k < |succ[node]| && succ[node][k] != t ==> succ[node][k] in pushed
    ensures QueueWeight(succ, pushed) < Weight(succ, node)
  {
    queue, pushed := queue0, [];
    var j := 0;
    while j < |succ[node]|
      invariant 0 <= j <= |succ[node]|
      invariant Within(pushed, node, |succ|) && queue == queue0 + pushed
      invariant forall k :: 0 <= k < |pushed| ==> pushed[k] != t && pushed[k] in succ[node]
      invariant forall k :: 0 <= k < j && succ[node][k] != t ==> succ[node][k] in pushed
      invariant ListWeight(succ, pushed, node) + ListWeight(succ, succ[node][j..], node) <=
        ListWeight(succ, succ[node], node)
    {
      assert succ[node][j..][1..] == succ[node][j + 1..];
      if succ[node][j] != t {
        PushWeight(succ, pushed, succ[node][j], node);
        queue := queue + [succ[node][j]];
        pushed := pushed + [succ[node][j]];
      }
      j := j + 1;
    }
    ListWeightAbove(succ, pushed, node);
  }

  /** The walk has no visited set; it ends because every pop removes weight from the queue. */
  method AllPathLegal(succ: Edges, cmds: seq<Command>, s: nat, t: nat) returns (legal: bool)
    requires Forward(succ) && |cmds| == |succ| && s < |succ|
    ensures legal <==> AllLegal(succ, cmds, s, t)
  {
    var queue := [s];
    while queue != []
      invariant Within(queue, -1, |succ|)
      invariant AllLegal(succ, cmds, s, t) <==> QueueLegal(succ, cmds, queue, t)
      decreases QueueWeight(succ, queue)
    {
      ghost var before := queue;
      var node := queue[0];
      queue := queue[1..];
      QueueLegalPop(succ, cmds, before, t);
      if !IsLegal(cmds[node]) {
        return false;
      }
      ghost var rest := queue;
      ghost var pushed;
      queue, pushed := PushSuccessors(succ, node, t, queue);
      QueueWeightAppend(succ, rest, pushed);
      QueueLegalAppend(succ, cmds, rest, pushed, t);
      PushedAreSuccessors(succ, cmds, node, t, pushed);
    }
    return true;
  }

  lemma PushWeight(succ: Edges, pushed: seq<nat>, s: nat, above: nat)
    requires Forward(succ) && above < s < |succ| && Within(pushed, above, |succ|)
    ensures Within(pushed + [s], above, |succ|)
    ensures ListWeight(succ, pushed + [s], above) == ListWeight(succ, pushed, above) + Weight(succ, s)
  {
    ListWeightAbove(succ, pushed + [s], above);
    ListWeightAbove(succ, pushed, above);
    QueueWeightAppend(succ, pushed, [s]);
    assert [s][1..] == [];
    assert ListWeight(succ, [s], -1) == Weight(succ, s) + ListWeight(succ, [s][1..], -1);
  }

  lemma PushedAreSuccessors(succ: Edges, cmds: seq<Command>, node: nat, t: nat, pushed: seq<nat>)
    requires Forward(succ) && |cmds| == |succ| && node < |succ| && IsLegal(cmds[node])
    requires Within(pushed, -1, |succ|)
    requires forall k :: 0 <= k < |pushed| ==> pushed[k] != t && pushed[k] in succ[node]
    requires forall k :: 0 <= k < |succ[node]| && succ[node][k] != t ==> succ[node][k] in pushed
    ensures QueueLegal(succ, cmds, pushed, t) <==> AllLegal(succ, cmds, node, t)
  {
  }

  // ---------------------------------------------------------------- regions

  /** c is fused with root: it hangs off root through accepted nodes and is accepted itself. */
  ghost predicate InRegion(succ: Edges, dom: Parents, cmds: seq<Command>, root: nat, c: nat)
    requires Forward(succ) && TreeSound(succ, dom) && |cmds| == |succ| && root < |succ|
    decreases |dom| - c
  {
    c == root ||
    (c < |dom| && dom[c].Some? && InRegion(succ, dom, cmds, root, dom[c].value) && AllLegal(succ, cmds, c, root))
  }

  lemma {:induction false} RegionInSubtree(succ: Edges, dom: Parents, cmds: seq<Command>, root: nat, c: nat)
    requires Forward(succ) && TreeSound(succ, dom) && |cmds| == |succ| && root < |succ|
    requires InRegion(succ, dom, cmds, root, c)
    ensures c <= root && Ancestor(dom, root, c)
    ensures c != root ==> AllLegal(succ, cmds, c, root)
    decreases |dom| - c
  {
    if c != root {
      RegionInSubtree(succ, dom, cmds, root, dom[c].value);
      AncestorBounds(dom, root, c);
    }
  }

  /** A tree ancestor below root is reached from c without passing root. */
  lemma {:induction false} AncestorReached(succ: Edges, dom: Parents, c: nat, p: nat, root: nat)
    requires Forward(succ) && TreeSound(succ, dom) && c < |succ|
    requires Ancestor(dom, p, c) && Ancestor(dom, root, p) && p != root
    ensures ReachesAvoiding(succ, c, root, p)
    decreases |succ| - c
  {
    if c != p {
      assert SoundAt(succ, dom, c);
      assert AncestorOfPointer(dom, p, dom[c]);
      assert AboveSuccessors(succ, dom, c, p);
      var s := succ[c][0];
      AncestorBounds(dom, p, s);
      AncestorBounds(dom, root, p);
      AncestorReached(succ, dom, s, p, root);
    }
  }

  /** The greedy growth finds every node below root whose paths to root are legal. */
  lemma {:induction false} RegionIsMaximal(succ: Edges, dom: Parents, cmds: seq<Command>, root: nat, c: nat)
    requires Forward(succ) && TreeSound(succ, dom) && |cmds| == |succ| && root < |succ| && c < |succ|
    ensures InRegion(succ, dom, cmds, root, c) <==>
      c == root || (Ancestor(dom, root, c) && AllLegal(succ, cmds, c, root))
    decreases |dom| - c
  {
    if InRegion(succ, dom, cmds, root, c) {
      RegionInSubtree(succ, dom, cmds, root, c);
    }
    if c != root && Ancestor(dom, root, c) && AllLegal(succ, cmds, c, root) {
      var p := dom[c].value;
      if p != root {
        assert Ancestor(dom, p, c);
        AncestorReached(succ, dom, c, p, root);
        AllLegalReach(succ, cmds, c, root, p);
        RegionIsMaximal(succ, dom, cmds, root, p);
      }
      assert InRegion(succ, dom, cmds, root, p);
    }
  }

  /** Every successor of a member other than the root is a member. */
  lemma RegionClosed(succ: Edges, dom: Parents, cmds: seq<Command>, root: nat, c: nat, s: nat)
    requires Forward(succ) && TreeSound(succ, dom) && |cmds| == |succ| && root < |succ|
    requires InRegion(succ, dom, cmds, root, c) && c != root && Edge(succ, c, s)
    ensures InRegion(succ, dom, cmds, root, s)
  {
    RegionInSubtree(succ, dom, cmds, root, c);
    assert SoundAt(succ, dom, c);
    assert AncestorOfPointer(dom, root, dom[c]);
    var j :| 0 <= j < |succ[c]| && succ[c][j] == s;
    assert Ancestor(dom, root, s);
    RegionIsMaximal(succ, dom, cmds, root, s);
  }

  /** A member other than the root has a successor. */
  lemma RegionHasSuccessor(succ: Edges, dom: Parents, cmds: seq<Command>, root: nat, c: nat)
    requires Forward(succ) && TreeSound(succ, dom) && |cmds| == |succ| && root < |succ|
    requires InRegion(succ, dom, cmds, root, c) && c != root
    ensures succ[c] != []
  {
    assert SoundAt(succ, dom, c);
    assert AncestorOfPointer(dom, dom[c].value, dom[c]);
  }

  /** Members form a connected top part of root's subtree. */
  lemma {:induction false} RegionUpward(succ: Edges, dom: Parents, cmds: seq<Command>, root: nat, x: nat, e: nat)
    requires Forward(succ) && TreeSound(succ, dom) && |cmds| == |succ| && root < |succ|
    requires InRegion(succ, dom, cmds, root, x) && Ancestor(dom, e, x) && Ancestor(dom, root, e)
    ensures InRegion(succ, dom, cmds, root, e)
    decreases |dom| - x
  {
    if x != e {
      if x == root {
        AncestorBounds(dom, e, x);
        AncestorBounds(dom, root, e);
      } else {
        RegionUpward(succ, dom, cmds, root, dom[x].value, e);
      }
    }
  }

  ghost predicate Accepted(succ: Edges, dom: Parents, cmds: seq<Command>, root: nat, node: nat, c: nat)
    requires Forward(succ) && TreeSound(succ, dom) && |cmds| == |succ| && root < |succ|
  {
    IsChild(dom, 0, node, c) && AllLegal(succ, cmds, c, root)
  }

  ghost predicate Rejected(succ: Edges, dom: Parents, cmds: seq<Command>, root: nat, node: nat, c: nat)
    requires Forward(succ) && TreeSound(succ, dom) && |cmds| == |succ| && root < |succ|
  {
    IsChild(dom, 0, node, c) && !AllLegal(succ, cmds, c, root)
  }

  /** Splits the children of a member into accepted ones and boundary nodes. */
  method SplitChildren(succ: Edges, dom: Parents, children: Edges, ghost roots: seq<nat>, cmds: seq<Command>, root: nat,
      node: nat)
    returns (accepted: seq<nat>, rejected: seq<nat>)
    requires Forward(succ) && TreeSound(succ, dom) && |cmds| == |succ| && root < |succ| && node < |succ|
    requires ChildLists(dom, 0, children, roots)
    ensures forall c: nat :: c in accepted <==> Accepted(succ, dom, cmds, root, node, c)
    ensures forall c: nat :: c in rejected <==> Rejected(succ, dom, cmds, root, node, c)
    ensures Distinct(accepted) && Distinct(rejected)
  {
    accepted, rejected := [], [];
    var j := 0;
    while j < |children[node]|
      invariant 0 <= j <= |children[node]|
      invariant forall c: nat :: c in accepted <==> c in children[node][..j] && Accepted(succ, dom, cmds, root, node, c)
      invariant forall c: nat :: c in rejected <==> c in children[node][..j] && Rejected(succ, dom, cmds, root, node, c)
      invariant Distinct(accepted) && Distinct(rejected)
    {
      var child := children[node][j];
      assert child in children[node];
      assert IsChild(dom, 0, node, child);
      assert child !in children[node][..j];
      var pathLegal := false;
      if IsLegal(cmds[child]) {
        pathLegal := AllPathLegal(succ, cmds, child, root);
      }
      if pathLegal {
        DistinctAppend(accepted, child);
        accepted := accepted + [child];
      } else {
        DistinctAppend(rejected, child);
        rejected := rejected + [child];
      }
      assert children[node][..j + 1] == children[node][..j] + [child];
      j := j + 1;
    }
    assert children[node][..j] == children[node];
  }

  /** No node is listed twice, and the root was fused first. */
  ghost predicate Separate(root: nat, fused: seq<nat>, queue: seq<nat>, edges: seq<nat>) {
    && Distinct(fused) && Distinct(queue) && Distinct(edges)
    && (forall x: nat :: x in fused ==> x !in queue)
    && (if fused == [] then queue == [root] else fused[|fused| - 1] == root)
  }

  ghost predicate HasFusedParent(dom: Parents, root: nat, fused: seq<nat>, x: nat) {
    x == root || (x < |dom| && dom[x].Some? && dom[x].value in fused)
  }

  /** Nodes seen are members, and their parents have been fused. */
  ghost predicate SeenAreMembers(succ: Edges, dom: Parents, cmds: seq<Command>, root: nat, fused: seq<nat>,
      queue: seq<nat>)
    requires Forward(succ) && TreeSound(succ, dom) && |cmds| == |succ| && root < |succ|
  {
    forall x: nat :: x in fused || x in queue ==>
      InRegion(succ, dom, cmds, root, x) && HasFusedParent(dom, root, fused, x)
  }

  /** The accepted children of fused nodes have been seen. */
  ghost predicate AcceptedAreSeen(succ: Edges, dom: Parents, cmds: seq<Command>, root: nat, fused: seq<nat>,
      queue: seq<nat>)
    requires Forward(succ) && TreeSound(succ, dom) && |cmds| == |succ| && root < |succ|
  {
    forall x: nat, c: nat :: x in fused && Accepted(succ, dom, cmds, root, x, c) ==> c in fused || c in queue
  }

  ghost predicate RejectedBy(succ: Edges, dom: Parents, cmds: seq<Command>, root: nat, fused: seq<nat>, c: nat)
    requires Forward(succ) && TreeSound(succ, dom) && |cmds| == |succ| && root < |succ|
  {
    exists x: nat :: x in fused && Rejected(succ, dom, cmds, root, x, c)
  }

  ghost predicate EdgesAreRejected(succ: Edges, dom: Parents, cmds: seq<Command>, root: nat, fused: seq<nat>,
      edges: seq<nat>)
    requires Forward(succ) && TreeSound(succ, dom) && |cmds| == |succ| && root < |succ|
  {
    forall c: nat :: c in edges <==> RejectedBy(succ, dom, cmds, root, fused, c)
  }

  /** The loop state of FuseNode: fused nodes, nodes to visit, boundary nodes. */
  ghost predicate Growing(succ: Edges, dom: Parents, cmds: seq<Command>, root: nat, fused: seq<nat>, queue: seq<nat>,
      edges: seq<nat>)
    requires Forward(succ) && TreeSound(succ, dom) && |cmds| == |succ| && root < |succ|
  {
    && Separate(root, fused, queue, edges)
    && SeenAreMembers(succ, dom, cmds, root, fused, queue)
    && AcceptedAreSeen(succ, dom, cmds, root, fused, queue)
    && EdgesAreRejected(succ, dom, cmds, root, fused, edges)
  }

  /** A child of the node being visited has not been seen yet. */
  lemma NewChild(succ: Edges, dom: Parents, cmds: seq<Command>, root: nat, fused: seq<nat>, queue: seq<nat>,
      edges: seq<nat>, node: nat, c: nat)
    requires Forward(succ) && TreeSound(succ, dom) && |cmds| == |succ| && root < |succ|
    requires InRegion(succ, dom, cmds, root, node) && node !in fused && IsChild(dom, 0, node, c)
    requires c in fused || c in queue ==> HasFusedParent(dom, root, fused, c)
    requires c in edges ==> RejectedBy(succ, dom, cmds, root, fused, c)
    ensures c !in [node] + fused && c !in queue && c != root && c !in edges
  {
    RegionInSubtree(succ, dom, cmds, root, node);
  }

  lemma SeparateStep(root: nat, fused: seq<nat>, queue: seq<nat>, edges: seq<nat>, accepted: seq<nat>,
      rejected: seq<nat>)
    requires Separate(root, fused, queue, edges) && queue != [] && Distinct(accepted) && Distinct(rejected)
    requires forall c: nat :: c in accepted || c in rejected ==>
      c !in [queue[0]] + fused && c !in queue && c != root && c !in edges
    ensures queue[0] !in fused && Separate(root, [queue[0]] + fused, queue[1..] + accepted, edges + rejected)
  {
    var node := queue[0];
    assert node in queue && node !in queue[1..];
    DistinctConcat(queue[1..], accepted);
    DistinctConcat(edges, rejected);
    DistinctConcat([node], fused);
    forall x: nat | x in [node] + fused ensures x !in queue[1..] + accepted {
    }
  }

  lemma EdgesStep(succ: Edges, dom: Parents, cmds: seq<Command>, root: nat, fused: seq<nat>, edges: seq<nat>, node: nat,
      rejected: seq<nat>)
    requires Forward(succ) && TreeSound(succ, dom) && |cmds| == |succ| && root < |succ|
    requires EdgesAreRejected(succ, dom, cmds, root, fused, edges)
    requires forall c: nat :: c in rejected <==> Rejected(succ, dom, cmds, root, node, c)
    ensures EdgesAreRejected(succ, dom, cmds, root, [node] + fused, edges + rejected)
  {
    forall c: nat
      ensures c in edges + rejected <==> RejectedBy(succ, dom, cmds, root, [node] + fused, c)
    {
      if c in edges {
        var x: nat :| x in fused && Rejected(succ, dom, cmds, root, x, c);
        assert x in [node] + fused;
      }
      if c in rejected {
        assert node in [node] + fused;
      }
    }
  }

  lemma SeenStep(succ: Edges, dom: Parents, cmds: seq<Command>, root: nat, fused: seq<nat>, queue: seq<nat>,
      accepted: seq<nat>)
    requires Forward(succ) && TreeSound(succ, dom) && |cmds| == |succ| && root < |succ| && queue != []
    requires SeenAreMembers(succ, dom, cmds, root, fused, queue) && AcceptedAreSeen(succ, dom, cmds, root, fused, queue)
    requires forall c: nat :: c in accepted <==> Accepted(succ, dom, cmds, root, queue[0], c)
    ensures SeenAreMembers(succ, dom, cmds, root, [queue[0]] + fused, queue[1..] + accepted)
    ensures AcceptedAreSeen(succ, dom, cmds, root, [queue[0]] + fused, queue[1..] + accepted)
  {
    var node := queue[0];
    assert node in queue;
    forall x: nat | x in [node] + fused || x in queue[1..] + accepted
      ensures InRegion(succ, dom, cmds, root, x) && HasFusedParent(dom, root, [node] + fused, x)
    {
      if x in accepted {
        assert Accepted(succ, dom, cmds, root, node, x);
      } else {
        assert x in fused || x in queue;
      }
    }
    forall x: nat, c: nat | x in [node] + fused && Accepted(succ, dom, cmds, root, x, c)
      ensures c in [node] + fused || c in queue[1..] + accepted
    {
      if x in fused && c in queue && c != node {
        assert c in queue[1..];
      }
    }
  }

  lemma GrowingStep(succ: Edges, dom: Parents, cmds: seq<Command>, root: nat, fused: seq<nat>, queue: seq<nat>,
      edges: seq<nat>, node: nat, accepted: seq<nat>, rejected: seq<nat>)
    requires Forward(succ) && TreeSound(succ, dom) && |cmds| == |succ| && root < |succ|
    requires Growing(succ, dom, cmds, root, fused, queue, edges) && queue != [] && node == queue[0]
    requires forall c: nat :: c in accepted <==> Accepted(succ, dom, cmds, root, node, c)
    requires forall c: nat :: c in rejected <==> Rejected(succ, dom, cmds, root, node, c)
    requires Distinct(accepted) && Distinct(rejected)
    ensures Growing(succ, dom, cmds, root, [node] + fused, queue[1..] + accepted, edges + rejected)
  {
    assert node in queue;
    forall c: nat | c in accepted || c in rejected
      ensures c !in [node] + fused && c !in queue && c != root && c !in edges
    {
      NewChild(succ, dom, cmds, root, fused, queue, edges, node, c);
    }
    SeparateStep(root, fused, queue, edges, accepted, rejected);
    SeenStep(succ, dom, cmds, root, fused, queue, accepted);
    EdgesStep(succ, dom, cmds, root, fused, edges, node, rejected);
  }

  lemma {:induction false} GrownCoversRegion(succ: Edges, dom: Parents, cmds: seq<Command>, root: nat, fused: seq<nat>,
      edges: seq<nat>, c: nat)
    requires Forward(succ) && TreeSound(succ, dom) && |cmds| == |succ| && root < |succ|
    requires Growing(succ, dom, cmds, root, fused, [], edges)
    requires InRegion(succ, dom, cmds, root, c)
    ensures c in fused
    decreases |dom| - c
  {
    if c != root {
      GrownCoversRegion(succ, dom, cmds, root, fused, edges, dom[c].value);
      assert Accepted(succ, dom, cmds, root, dom[c].value, c);
    }
  }

  /** What FuseNode returns: the region with its root last, and the rejected children. */
  ghost predicate IsFusion(succ: Edges, dom: Parents, cmds: seq<Command>, root: nat, fused: seq<nat>, edges: seq<nat>)
    requires Forward(succ) && TreeSound(succ, dom) && |cmds| == |succ| && root < |succ|
  {
    && fused != [] && fused[|fused| - 1] == root && Distinct(fused) && Distinct(edges)
    && (forall c: nat :: c in fused <==> InRegion(succ, dom, cmds, root, c))
    && EdgesAreRejected(succ, dom, cmds, root, fused, edges)
  }

  /** Breadth-first growth from root over the tree; the raster rule never applies to legal nodes. */
  method FuseNode(succ: Edges, dom: Parents, children: Edges, ghost roots: seq<nat>, cmds: seq<Command>, root: nat)
    returns (fuseSet: seq<nat>, edges: seq<nat>)
    requires Forward(succ) && TreeSound(succ, dom) && |cmds| == |succ| && root < |succ| && IsLegal(cmds[root])
    requires ChildLists(dom, 0, children, roots)
    ensures IsFusion(succ, dom, cmds, root, fuseSet, edges)
  {
    fuseSet, edges := [], [];
    var queue := [root];
    var rasterCount := 0;
    ghost var done: set<nat> := {};
    while queue != []
      invariant Growing(succ, dom, cmds, root, fuseSet, queue, edges)
      invariant forall x: nat :: x in done <==> x in fuseSet
      decreases Below(|succ|) - done
    {
      var node := queue[0];
      RegionInSubtree(succ, dom, cmds, root, node);
      assert IsLegal(cmds[node]);
      var insert := false;
      ghost var fused0 := fuseSet;
      var grown: seq<nat> := [node] + fuseSet;
      if cmds[node].action.op.kind == Raster {
        rasterCount := rasterCount + 1;
        if rasterCount < 2 {
          fuseSet := grown;
          insert := true;
        }
      } else {
        fuseSet := grown;
        insert := true;
      }
      var accepted, rejected := SplitChildren(succ, dom, children, roots, cmds, root, node);
      GrowingStep(succ, dom, cmds, root, fused0, queue, edges, node, accepted, rejected);
      queue := queue[1..];
      if insert {
        queue := queue + accepted;
        edges := edges + rejected;
      }
      assert node in Below(|succ|) - done;
      done := done + {node};
    }
    forall c: nat
      ensures c in fuseSet <==> InRegion(succ, dom, cmds, root, c)
    {
      if InRegion(succ, dom, cmds, root, c) {
        GrownCoversRegion(succ, dom, cmds, root, fuseSet, edges, c);
      }
    }
  }
}
