/**
 The search for regions over the post-dominator tree (codegen/OpFuse.cpp:484-505): which fuse sets are
 found, and that none is missed.
 */
module RegionSearch {
  import opened Wrappers
  import opened FusionGraph
  import opened PostDominators
  import opened Commands
  import opened Regions

  /** No node of one list is a tree ancestor of a node of the other. */
  ghost predicate Unrelated(dom: Parents, x: nat, y: nat)
    requires Rising(dom)
  {
    !Ancestor(dom, x, y) && !Ancestor(dom, y, x)
  }

  /** The candidates still queued: distinct nodes of separate subtrees that hold no finished node. */
  ghost predicate Pending(dom: Parents, queue: seq<nat>, done: set<nat>)
    requires Rising(dom)
  {
    && (forall i :: 0 <= i < |queue| ==> queue[i] < |dom|)
    && (forall i, j :: 0 <= i < j < |queue| ==> Unrelated(dom, queue[i], queue[j]))
    && (forall i, x: nat :: 0 <= i < |queue| && x in done ==> !Ancestor(dom, queue[i], x))
  }

  /** A front of the subtree of r: the nodes now finished and the ones queued next. */
  ghost predicate Front(dom: Parents, r: nat, finished: seq<nat>, next: seq<nat>)
    requires Rising(dom)
  {
    && r in finished
    && (forall x: nat :: x in finished ==> Ancestor(dom, r, x))
    && (forall i :: 0 <= i < |next| ==> next[i] < |dom| && Ancestor(dom, r, next[i]))
    && (forall i, j :: 0 <= i < j < |next| ==> Unrelated(dom, next[i], next[j]))
    && (forall i, x: nat :: 0 <= i < |next| && x in finished ==> !Ancestor(dom, next[i], x))
  }

  lemma PendingStep(dom: Parents, queue: seq<nat>, done: set<nat>, finished: seq<nat>, next: seq<nat>)
    requires Rising(dom) && queue != [] && Pending(dom, queue, done) && Front(dom, queue[0], finished, next)
    ensures Pending(dom, queue[1..] + next, done + (set x | x in finished))
    ensures forall x: nat :: x in finished ==> x !in done
  {
    var r, rest := queue[0], queue[1..];
    var queue' := rest + next;
    forall x: nat | x in finished ensures x !in done {
      assert Ancestor(dom, queue[0], x);
    }
    forall i, j | 0 <= i < j < |queue'| ensures Unrelated(dom, queue'[i], queue'[j]) {
      if j < |rest| {
        assert rest[i] == queue[i + 1] && rest[j] == queue[j + 1];
      } else if i < |rest| {
        var q, e := queue[i + 1], next[j - |rest|];
        assert Unrelated(dom, queue[0], queue[i + 1]);
        if Ancestor(dom, q, e) { AncestorsChain(dom, q, r, e); }
        if Ancestor(dom, e, q) { AncestorTransitive(dom, r, e, q); }
      } else {
        assert Unrelated(dom, next[i - |rest|], next[j - |rest|]);
      }
    }
    forall i, x: nat | 0 <= i < |queue'| && x in done + (set x | x in finished)
      ensures !Ancestor(dom, queue'[i], x)
    {
      if i < |rest| {
        assert rest[i] == queue[i + 1];
        assert Unrelated(dom, queue[0], queue[i + 1]);
        if Ancestor(dom, rest[i], x) && x !in done { AncestorsChain(dom, rest[i], r, x); }
      } else if x in done {
        if Ancestor(dom, queue'[i], x) { AncestorTransitive(dom, r, queue'[i], x); }
      }
    }
  }

  lemma SiblingsUnrelated(dom: Parents, p: nat, x: nat, y: nat)
    requires Rising(dom) && IsChild(dom, 0, p, x) && IsChild(dom, 0, p, y) && x != y
    ensures Unrelated(dom, x, y)
  {
    if Ancestor(dom, x, y) { AncestorBounds(dom, x, p); }
    if Ancestor(dom, y, x) { AncestorBounds(dom, y, p); }
  }

  lemma ChildrenFront(succ: Edges, dom: Parents, children: Edges, roots: seq<nat>, r: nat)
    requires TreeSound(succ, dom) && r < |dom| && ChildLists(dom, 0, children, roots)
    ensures Front(dom, r, [r], children[r])
  {
    forall i | 0 <= i < |children[r]|
      ensures IsChild(dom, 0, r, children[r][i])
      ensures !Ancestor(dom, children[r][i], r)
    {
      assert children[r][i] in children[r];
      if Ancestor(dom, children[r][i], r) { AncestorBounds(dom, children[r][i], r); }
    }
    forall i, j | 0 <= i < j < |children[r]| ensures Unrelated(dom, children[r][i], children[r][j]) {
      SiblingsUnrelated(dom, r, children[r][i], children[r][j]);
    }
  }

  lemma FusionFront(succ: Edges, dom: Parents, cmds: seq<Command>, r: nat, fused: seq<nat>, edges: seq<nat>)
    requires Forward(succ) && TreeSound(succ, dom) && |cmds| == |succ| && r < |succ|
    requires IsFusion(succ, dom, cmds, r, fused, edges)
    ensures Front(dom, r, fused, edges)
  {
    forall x: nat | x in fused ensures Ancestor(dom, r, x) {
      RegionInSubtree(succ, dom, cmds, r, x);
    }
    forall i | 0 <= i < |edges|
      ensures edges[i] < |dom| && Ancestor(dom, r, edges[i])
      ensures forall x: nat :: x in fused ==> !Ancestor(dom, edges[i], x)
    {
      EdgeOutside(succ, dom, cmds, r, fused, edges, edges[i]);
    }
    forall i, j | 0 <= i < j < |edges| ensures Unrelated(dom, edges[i], edges[j]) {
      EdgesSeparate(succ, dom, cmds, r, fused, edges, edges[i], edges[j]);
      EdgesSeparate(succ, dom, cmds, r, fused, edges, edges[j], edges[i]);
    }
  }

  lemma EdgeOutside(succ: Edges, dom: Parents, cmds: seq<Command>, r: nat, fused: seq<nat>, edges: seq<nat>, e: nat)
    requires Forward(succ) && TreeSound(succ, dom) && |cmds| == |succ| && r < |succ|
    requires IsFusion(succ, dom, cmds, r, fused, edges) && e in edges
    ensures e < |dom| && dom[e].Some? && dom[e].value in fused && e !in fused && Ancestor(dom, r, e)
    ensures forall x: nat :: x in fused ==> !Ancestor(dom, e, x)
  {
    var p: nat :| p in fused && Rejected(succ, dom, cmds, r, p, e);
    RegionInSubtree(succ, dom, cmds, r, p);
    assert Ancestor(dom, r, e);
    if e in fused {
      RegionInSubtree(succ, dom, cmds, r, e);
    }
    forall x: nat | x in fused ensures !Ancestor(dom, e, x) {
      if Ancestor(dom, e, x) {
        RegionUpward(succ, dom, cmds, r, x, e);
      }
    }
  }

  lemma EdgesSeparate(succ: Edges, dom: Parents, cmds: seq<Command>, r: nat, fused: seq<nat>, edges: seq<nat>, e: nat,
      e': nat)
    requires Forward(succ) && TreeSound(succ, dom) && |cmds| == |succ| && r < |succ|
    requires IsFusion(succ, dom, cmds, r, fused, edges) && e in edges && e' in edges && e != e'
    ensures !Ancestor(dom, e, e')
  {
    EdgeOutside(succ, dom, cmds, r, fused, edges, e);
    EdgeOutside(succ, dom, cmds, r, fused, edges, e');
  }

  lemma RootsPending(succ: Edges, dom: Parents, children: Edges, roots: seq<nat>)
    requires TreeSound(succ, dom) && ChildLists(dom, 0, children, roots)
    ensures Pending(dom, roots, {})
  {
    forall i | 0 <= i < |roots| ensures roots[i] < |dom| && dom[roots[i]] == None {
      assert roots[i] in roots;
    }
  }

  /** A recorded fuse set: more than one node, all of one legal root's region, the root last. */
  ghost predicate IsFuseSet(succ: Edges, dom: Parents, cmds: seq<Command>, fuseSet: seq<nat>)
    requires Forward(succ) && TreeSound(succ, dom) && |cmds| == |succ|
  {
    && |fuseSet| > 1 && Distinct(fuseSet)
    && fuseSet[|fuseSet| - 1] < |succ| && IsLegal(cmds[fuseSet[|fuseSet| - 1]])
    && (forall c: nat :: c in fuseSet <==> InRegion(succ, dom, cmds, fuseSet[|fuseSet| - 1], c))
  }

  ghost predicate Disjoint(a: seq<nat>, b: seq<nat>) {
    forall x: nat :: x in a ==> x !in b
  }

  ghost predicate AllFuseSets(succ: Edges, dom: Parents, cmds: seq<Command>, fuseSets: seq<seq<nat>>)
    requires Forward(succ) && TreeSound(succ, dom) && |cmds| == |succ|
  {
    && (forall i :: 0 <= i < |fuseSets| ==> IsFuseSet(succ, dom, cmds, fuseSets[i]))
    && (forall i, j :: 0 <= i < j < |fuseSets| ==> Disjoint(fuseSets[i], fuseSets[j]))
  }

  // ---------------------------------------------------------------- which roots are searched

  /** The node at which the search looks at x: the root of the region that takes x in, or x itself. */
  ghost function SearchRoot(succ: Edges, dom: Parents, cmds: seq<Command>, x: nat): (r: nat)
    requires Forward(succ) && TreeSound(succ, dom) && |cmds| == |succ| && x < |succ|
    ensures r < |succ|
    decreases |succ| - x
  {
    if dom[x].None? then x
    else
      var r := SearchRoot(succ, dom, cmds, dom[x].value);
      if IsLegal(cmds[r]) && InRegion(succ, dom, cmds, r, x) then r else x
  }

  ghost predicate IsSearched(succ: Edges, dom: Parents, cmds: seq<Command>, r: nat)
    requires Forward(succ) && TreeSound(succ, dom) && |cmds| == |succ|
  {
    r < |succ| && SearchRoot(succ, dom, cmds, r) == r
  }

  /** A legal root takes in more than itself. */
  ghost predicate Fusable(succ: Edges, dom: Parents, cmds: seq<Command>, r: nat)
    requires Forward(succ) && TreeSound(succ, dom) && |cmds| == |succ|
  {
    r < |succ| && IsLegal(cmds[r]) && exists c: nat :: c != r && InRegion(succ, dom, cmds, r, c)
  }

  /** The members of a searched legal root's region are looked at there. */
  lemma {:induction false} MembersSearchRoot(succ: Edges, dom: Parents, cmds: seq<Command>, r: nat, c: nat)
    requires Forward(succ) && TreeSound(succ, dom) && |cmds| == |succ|
    requires IsSearched(succ, dom, cmds, r) && IsLegal(cmds[r]) && InRegion(succ, dom, cmds, r, c) && c < |succ|
    ensures SearchRoot(succ, dom, cmds, c) == r
    decreases |succ| - c
  {
    if c != r {
      MembersSearchRoot(succ, dom, cmds, r, dom[c].value);
    }
  }

  /** A region of more than its root needs a child of the root. */
  lemma {:induction false} RegionNeedsChild(succ: Edges, dom: Parents, children: Edges, roots: seq<nat>,
      cmds: seq<Command>, r: nat, c: nat)
    requires Forward(succ) && TreeSound(succ, dom) && |cmds| == |succ| && ChildLists(dom, 0, children, roots)
    requires r < |succ| && InRegion(succ, dom, cmds, r, c) && c != r
    ensures children[r] != []
    decreases |succ| - c
  {
    var p := dom[c].value;
    if p == r {
      assert IsChild(dom, 0, r, c);
    } else {
      RegionNeedsChild(succ, dom, children, roots, cmds, r, p);
    }
  }

  /** A fuse set has more than one member exactly if the root takes in more than itself. */
  lemma FusedIffFusable(succ: Edges, dom: Parents, cmds: seq<Command>, r: nat, fused: seq<nat>, edges: seq<nat>)
    requires Forward(succ) && TreeSound(succ, dom) && |cmds| == |succ| && r < |succ| && IsLegal(cmds[r])
    requires IsFusion(succ, dom, cmds, r, fused, edges)
    ensures |fused| > 1 <==> Fusable(succ, dom, cmds, r)
  {
    if |fused| > 1 {
      assert fused[0] != fused[|fused| - 1] && fused[0] in fused;
    }
    if Fusable(succ, dom, cmds, r) {
      var c: nat :| c != r && InRegion(succ, dom, cmds, r, c);
      assert c in fused;
    }
  }

  // ---------------------------------------------------------------- coverage

  /** Every node is finished or lies below a queued one. */
  ghost predicate Covered(dom: Parents, queue: seq<nat>, done: set<nat>)
    requires Rising(dom)
  {
    forall x: nat :: x < |dom| && x !in done ==> BelowOneOf(dom, queue, x)
  }

  ghost predicate BelowOneOf(dom: Parents, queue: seq<nat>, x: nat)
    requires Rising(dom)
  {
    exists q :: q in queue && Ancestor(dom, q, x)
  }

  lemma {:induction false} RootsCover(dom: Parents, children: Edges, roots: seq<nat>, x: nat)
    requires Rising(dom) && ChildLists(dom, 0, children, roots) && x < |dom|
    ensures BelowOneOf(dom, roots, x)
    decreases |dom| - x
  {
    if dom[x].None? {
      assert x in roots && Ancestor(dom, x, x);
    } else {
      RootsCover(dom, children, roots, dom[x].value);
      var q :| q in roots && Ancestor(dom, q, dom[x].value);
      assert Ancestor(dom, q, x);
    }
  }

  /** Below a region but not in it means below one of its edges. */
  lemma {:induction false} EdgesCover(succ: Edges, dom: Parents, cmds: seq<Command>, r: nat, fused: seq<nat>,
      edges: seq<nat>, x: nat)
    requires Forward(succ) && TreeSound(succ, dom) && |cmds| == |succ| && r < |succ| && x < |succ|
    requires IsFusion(succ, dom, cmds, r, fused, edges) && Ancestor(dom, r, x) && x !in fused
    ensures BelowOneOf(dom, edges, x)
    decreases |succ| - x
  {
    assert InRegion(succ, dom, cmds, r, r);
    var p := dom[x].value;
    if p in fused {
      assert InRegion(succ, dom, cmds, r, p) && !InRegion(succ, dom, cmds, r, x);
      assert Rejected(succ, dom, cmds, r, p, x);
      assert RejectedBy(succ, dom, cmds, r, fused, x);
      assert x in edges && Ancestor(dom, x, x);
    } else {
      EdgesCover(succ, dom, cmds, r, fused, edges, p);
      var q :| q in edges && Ancestor(dom, q, p);
      assert Ancestor(dom, q, x);
    }
  }

  lemma {:induction false} ChildrenCover(dom: Parents, children: Edges, roots: seq<nat>, r: nat, x: nat)
    requires Rising(dom) && ChildLists(dom, 0, children, roots) && r < |dom| && x < |dom| && Ancestor(dom, r, x)
    requires x != r
    ensures BelowOneOf(dom, children[r], x)
    decreases |dom| - x
  {
    var p := dom[x].value;
    if p == r {
      assert IsChild(dom, 0, r, x) && x in children[r] && Ancestor(dom, x, x);
    } else {
      ChildrenCover(dom, children, roots, r, p);
      var q :| q in children[r] && Ancestor(dom, q, p);
      assert Ancestor(dom, q, x);
    }
  }

  /** Finishing the first queued node and queueing what is left below it keeps every node covered. */
  lemma CoveredStep(dom: Parents, queue: seq<nat>, done: set<nat>, finished: seq<nat>, next: seq<nat>)
    requires Rising(dom) && queue != [] && Covered(dom, queue, done)
    requires forall x: nat :: x < |dom| && Ancestor(dom, queue[0], x) && x !in finished ==> BelowOneOf(dom, next, x)
    ensures Covered(dom, queue[1..] + next, done + (set x | x in finished))
  {
    var queue' := queue[1..] + next;
    forall x: nat | x < |dom| && x !in done && x !in finished ensures BelowOneOf(dom, queue', x) {
      assert BelowOneOf(dom, queue, x);
      var q :| q in queue && Ancestor(dom, q, x);
      if q == queue[0] {
        var e :| e in next && Ancestor(dom, e, x);
        assert e in queue';
      } else {
        assert q in queue[1..] && q in queue';
      }
    }
  }

  // ---------------------------------------------------------------- the search

  /** The fuse sets with a root among `done` are exactly the regions of searched roots that take in more. */
  ghost predicate Exact(succ: Edges, dom: Parents, cmds: seq<Command>, fuseSets: seq<seq<nat>>, done: set<nat>)
    requires Forward(succ) && TreeSound(succ, dom) && |cmds| == |succ|
  {
    && (forall i :: 0 <= i < |fuseSets| ==>
          fuseSets[i] != [] && IsSearched(succ, dom, cmds, fuseSets[i][|fuseSets[i]| - 1]))
    && (forall r: nat :: r in done && IsSearched(succ, dom, cmds, r) && Fusable(succ, dom, cmds, r) ==>
          HasRoot(fuseSets, r))
  }

  ghost predicate HasRoot(fuseSets: seq<seq<nat>>, r: nat) {
    exists i :: 0 <= i < |fuseSets| && fuseSets[i] != [] && fuseSets[i][|fuseSets[i]| - 1] == r
  }

  /** Only searched roots are queued. */
  ghost predicate AllSearched(succ: Edges, dom: Parents, cmds: seq<Command>, queue: seq<nat>)
    requires Forward(succ) && TreeSound(succ, dom) && |cmds| == |succ|
  {
    forall q :: q in queue ==> IsSearched(succ, dom, cmds, q)
  }

  lemma EdgesSearched(succ: Edges, dom: Parents, cmds: seq<Command>, r: nat, fused: seq<nat>, edges: seq<nat>)
    requires Forward(succ) && TreeSound(succ, dom) && |cmds| == |succ| && IsSearched(succ, dom, cmds, r)
    requires IsLegal(cmds[r])
    requires IsFusion(succ, dom, cmds, r, fused, edges)
    ensures AllSearched(succ, dom, cmds, edges)
  {
    forall e | e in edges ensures IsSearched(succ, dom, cmds, e) {
      EdgeOutside(succ, dom, cmds, r, fused, edges, e);
      MembersSearchRoot(succ, dom, cmds, r, dom[e].value);
    }
  }

  lemma ChildrenSearched(succ: Edges, dom: Parents, children: Edges, roots: seq<nat>, cmds: seq<Command>, r: nat)
    requires Forward(succ) && TreeSound(succ, dom) && |cmds| == |succ| && ChildLists(dom, 0, children, roots)
    requires IsSearched(succ, dom, cmds, r) && !IsLegal(cmds[r])
    ensures AllSearched(succ, dom, cmds, children[r])
  {
    forall c | c in children[r] ensures IsSearched(succ, dom, cmds, c) {
      assert IsChild(dom, 0, r, c);
    }
  }

  /** Inner members of a region are not searched, so that finishing them loses nothing. */
  lemma ExactStep(succ: Edges, dom: Parents, cmds: seq<Command>, fuseSets: seq<seq<nat>>, fuseSets': seq<seq<nat>>,
      done: set<nat>, r: nat, finished: seq<nat>)
    requires Forward(succ) && TreeSound(succ, dom) && |cmds| == |succ| && IsSearched(succ, dom, cmds, r)
    requires Exact(succ, dom, cmds, fuseSets, done) && fuseSets <= fuseSets'
    requires forall i :: |fuseSets| <= i < |fuseSets'| ==> fuseSets'[i] != [] && fuseSets'[i][|fuseSets'[i]| - 1] == r
    requires Fusable(succ, dom, cmds, r) ==> HasRoot(fuseSets', r)
    requires forall x: nat :: x in finished && x != r ==> !IsSearched(succ, dom, cmds, x)
    ensures Exact(succ, dom, cmds, fuseSets', done + (set x | x in finished))
  {
    forall x: nat | x in done && HasRoot(fuseSets, x) ensures HasRoot(fuseSets', x) {
      var i :| 0 <= i < |fuseSets| && fuseSets[i] != [] && fuseSets[i][|fuseSets[i]| - 1] == x;
      assert fuseSets'[i] == fuseSets[i];
    }
    forall i | 0 <= i < |fuseSets'|
      ensures fuseSets'[i] != [] && IsSearched(succ, dom, cmds, fuseSets'[i][|fuseSets'[i]| - 1])
    {
      if i < |fuseSets| {
        assert fuseSets'[i] == fuseSets[i];
      }
    }
  }

  /** One candidate: its region if it is legal, and what is queued below it. */
  method SearchOne(succ: Edges, dom: Parents, children: Edges, ghost roots: seq<nat>, cmds: seq<Command>, root: nat,
      fuseSets0: seq<seq<nat>>, ghost queue: seq<nat>, ghost done: set<nat>)
    returns (fuseSets: seq<seq<nat>>, childs: seq<nat>, ghost finished: seq<nat>)
    requires Forward(succ) && TreeSound(succ, dom) && |cmds| == |succ| && ChildLists(dom, 0, children, roots)
    requires queue != [] && root == queue[0] && Pending(dom, queue, done) && AllSearched(succ, dom, cmds, queue)
    requires AllFuseSets(succ, dom, cmds, fuseSets0) && Exact(succ, dom, cmds, fuseSets0, done)
    requires forall i, x: nat :: 0 <= i < |fuseSets0| && x in fuseSets0[i] ==> x in done
    ensures AllFuseSets(succ, dom, cmds, fuseSets) && Exact(succ, dom, cmds, fuseSets, done + (set x | x in finished))
    ensures forall i, x: nat :: 0 <= i < |fuseSets| && x in fuseSets[i] ==> x in done || x in finished
    ensures Front(dom, root, finished, childs) && AllSearched(succ, dom, cmds, childs)
    ensures forall x: nat :: x < |dom| && Ancestor(dom, root, x) && x !in finished ==> BelowOneOf(dom, childs, x)
  {
    assert root in queue;
    fuseSets, childs, finished := fuseSets0, [], [root];
    if children[root] != [] && IsLegal(cmds[root]) {
      var fuseSet;
      fuseSet, childs := FuseNode(succ, dom, children, roots, cmds, root);
      finished := fuseSet;
      FusionFront(succ, dom, cmds, root, fuseSet, childs);
      PendingStep(dom, queue, done, fuseSet, childs);
      FusedIffFusable(succ, dom, cmds, root, fuseSet, childs);
      EdgesSearched(succ, dom, cmds, root, fuseSet, childs);
      if |fuseSet| > 1 {
        fuseSets := fuseSets + [fuseSet];
        assert fuseSets[|fuseSets| - 1] == fuseSet && HasRoot(fuseSets, root);
      }
      forall x: nat | x in fuseSet && x != root ensures !IsSearched(succ, dom, cmds, x) {
        MembersSearchRoot(succ, dom, cmds, root, x);
      }
      forall x: nat | x < |dom| && Ancestor(dom, root, x) && x !in fuseSet ensures BelowOneOf(dom, childs, x) {
        EdgesCover(succ, dom, cmds, root, fuseSet, childs, x);
      }
    } else {
      childs := children[root];
      ChildrenFront(succ, dom, children, roots, root);
      forall c: nat | c != root && IsLegal(cmds[root]) ensures !InRegion(succ, dom, cmds, root, c) {
        if InRegion(succ, dom, cmds, root, c) {
          RegionNeedsChild(succ, dom, children, roots, cmds, root, c);
        }
      }
      if !IsLegal(cmds[root]) {
        ChildrenSearched(succ, dom, children, roots, cmds, root);
      }
      forall x: nat | x < |dom| && Ancestor(dom, root, x) && x != root ensures BelowOneOf(dom, childs, x) {
        ChildrenCover(dom, children, roots, root, x);
      }
    }
    ExactStep(succ, dom, cmds, fuseSets0, fuseSets, done, root, finished);
  }

  /** The search over the tree from the roots down; each recorded region leaves its boundary to be searched. */
  method SearchRegions(succ: Edges, dom: Parents, children: Edges, roots: seq<nat>, cmds: seq<Command>)
    returns (fuseSets: seq<seq<nat>>)
    requires Forward(succ) && TreeSound(succ, dom) && |cmds| == |succ| && ChildLists(dom, 0, children, roots)
    ensures AllFuseSets(succ, dom, cmds, fuseSets)
    ensures forall r: nat :: HasRoot(fuseSets, r) <==> IsSearched(succ, dom, cmds, r) && Fusable(succ, dom, cmds, r)
  {
    fuseSets := [];
    var queue := roots;
    ghost var done: set<nat> := {};
    RootsPending(succ, dom, children, roots);
    forall x: nat | x < |dom| ensures BelowOneOf(dom, roots, x) {
      RootsCover(dom, children, roots, x);
    }
    while queue != []
      invariant Pending(dom, queue, done) && Covered(dom, queue, done) && AllSearched(succ, dom, cmds, queue)
      invariant AllFuseSets(succ, dom, cmds, fuseSets) && Exact(succ, dom, cmds, fuseSets, done)
      invariant forall i, x: nat :: 0 <= i < |fuseSets| && x in fuseSets[i] ==> x in done
      decreases Below(|succ|) - done
    {
      var root := queue[0];
      ghost var finished;
      var childs;
      fuseSets, childs, finished := SearchOne(succ, dom, children, roots, cmds, root, fuseSets, queue, done);
      PendingStep(dom, queue, done, finished, childs);
      CoveredStep(dom, queue, done, finished, childs);
      queue := queue[1..] + childs;
      assert root in finished && root in Below(|succ|) - done;
      done := done + (set x | x in finished);
    }
    forall r: nat | HasRoot(fuseSets, r) ensures Fusable(succ, dom, cmds, r) {
      var i :| 0 <= i < |fuseSets| && fuseSets[i] != [] && fuseSets[i][|fuseSets[i]| - 1] == r;
      FuseSetFusable(succ, dom, cmds, fuseSets[i]);
    }
  }

  lemma FuseSetFusable(succ: Edges, dom: Parents, cmds: seq<Command>, fuseSet: seq<nat>)
    requires Forward(succ) && TreeSound(succ, dom) && |cmds| == |succ| && IsFuseSet(succ, dom, cmds, fuseSet)
    ensures Fusable(succ, dom, cmds, fuseSet[|fuseSet| - 1])
  {
    assert fuseSet[0] in fuseSet && fuseSet[0] != fuseSet[|fuseSet| - 1];
  }
}
