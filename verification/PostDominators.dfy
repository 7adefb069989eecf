/**
 The tree that `opFuse` builds over the dataflow graph (codegen/OpFuse.cpp:464-483) and its
 meaning: a node's parent post-dominates it. `None` stands for the null parent, the virtual
 exit of the graph.
 */
module PostDominators {
  import opened Wrappers
  import opened FusionGraph

  type Parents = seq<Option<nat>>

  ghost predicate Rising(dom: Parents) {
    forall i :: 0 <= i < |dom| && dom[i].Some? ==> i < dom[i].value < |dom|
  }

  /** a is x or lies on the parent chain of x. */
  ghost predicate Ancestor(dom: Parents, a: nat, x: nat)
    requires Rising(dom)
    decreases |dom| - x
  {
    a == x || (x < |dom| && dom[x].Some? && Ancestor(dom, a, dom[x].value))
  }

  ghost predicate AncestorOfPointer(dom: Parents, a: nat, x: Option<nat>)
    requires Rising(dom)
  {
    x.Some? && Ancestor(dom, a, x.value)
  }

  ghost predicate TopoRises(dom: Parents, topo: seq<nat>) {
    |topo| == |dom| && forall i :: 0 <= i < |dom| && dom[i].Some? && dom[i].value < |dom| ==>
      topo[i] < topo[dom[i].value]
  }

  ghost predicate EdgesRise(succ: Edges, topo: seq<nat>) {
    && |topo| == |succ|
    && forall i, j :: 0 <= i < |succ| && 0 <= j < |succ[i]| && succ[i][j] < |succ| ==> topo[i] < topo[succ[i][j]]
  }

  lemma {:induction false} AncestorTransitive(dom: Parents, a: nat, b: nat, c: nat)
    requires Rising(dom) && Ancestor(dom, a, b) && Ancestor(dom, b, c)
    ensures Ancestor(dom, a, c)
    decreases |dom| - c
  {
    if b != c {
      AncestorTransitive(dom, a, b, dom[c].value);
    }
  }

  lemma {:induction false} AncestorBounds(dom: Parents, a: nat, x: nat)
    requires Rising(dom) && Ancestor(dom, a, x) && x < |dom|
    ensures x <= a < |dom|
    decreases |dom| - x
  {
    if a != x {
      AncestorBounds(dom, a, dom[x].value);
    }
  }

  lemma {:induction false} AncestorTopo(dom: Parents, topo: seq<nat>, a: nat, x: nat)
    requires Rising(dom) && TopoRises(dom, topo) && Ancestor(dom, a, x) && x < |dom| && a != x
    ensures a < |dom| && topo[x] < topo[a]
    decreases |dom| - x
  {
    if a != dom[x].value {
      AncestorTopo(dom, topo, a, dom[x].value);
    }
  }

  /** Two ancestors of one node are comparable. */
  lemma {:induction false} AncestorsChain(dom: Parents, a: nat, b: nat, x: nat)
    requires Rising(dom) && Ancestor(dom, a, x) && Ancestor(dom, b, x)
    ensures Ancestor(dom, a, b) || Ancestor(dom, b, a)
    decreases |dom| - x
  {
    if a != x && b != x {
      AncestorsChain(dom, a, b, dom[x].value);
    }
  }

  /** Parents below k do not matter to nodes from k on. */
  lemma {:induction false} AncestorSuffix(dom: Parents, dom': Parents, k: nat, a: nat, x: nat)
    requires Rising(dom) && Rising(dom') && |dom| == |dom'| && k <= x
    requires forall i :: k <= i < |dom| ==> dom[i] == dom'[i]
    ensures Ancestor(dom, a, x) == Ancestor(dom', a, x)
    decreases |dom| - x
  {
    if a != x && x < |dom| && dom[x].Some? {
      AncestorSuffix(dom, dom', k, a, dom[x].value);
    }
  }

  /** Every node above z is above x and above y; with strict topo indices also conversely. */
  ghost predicate CommonAncestor(dom: Parents, x: Option<nat>, y: Option<nat>, z: Option<nat>)
    requires Rising(dom)
  {
    forall a: nat :: AncestorOfPointer(dom, a, z) ==> AncestorOfPointer(dom, a, x) && AncestorOfPointer(dom, a, y)
  }

  ghost predicate NearestCommonAncestor(dom: Parents, x: Option<nat>, y: Option<nat>, z: Option<nat>)
    requires Rising(dom)
  {
    forall a: nat :: AncestorOfPointer(dom, a, z) <==> AncestorOfPointer(dom, a, x) && AncestorOfPointer(dom, a, y)
  }

  ghost predicate InTree(dom: Parents, x: Option<nat>) {
    x.Some? ==> x.value < |dom|
  }

  lemma MoveUp(dom: Parents, x: nat)
    requires Rising(dom) && x < |dom|
    ensures InTree(dom, dom[x])
    ensures forall a: nat :: AncestorOfPointer(dom, a, Some(x)) <==> a == x || AncestorOfPointer(dom, a, dom[x])
  {
  }

  ghost function Height(dom: Parents, x: Option<nat>): int {
    if x.Some? then |dom| - x.value else 0
  }

  /** Where the two-finger walk ends, ties in the topo index or not. */
  ghost function Meet(dom: Parents, topo: seq<nat>, x: Option<nat>, y: Option<nat>): (z: Option<nat>)
    requires Rising(dom) && |topo| == |dom| && InTree(dom, x) && InTree(dom, y)
    ensures InTree(dom, z)
    decreases Height(dom, x), Height(dom, y)
  {
    if x == y then x
    else if x.None? || y.None? then None
    else if topo[x.value] < topo[y.value] then Meet(dom, topo, dom[x.value], y)
    else Meet(dom, topo, x, dom[y.value])
  }

  /** The walk over the first n of some nodes. */
  ghost function MeetAll(dom: Parents, topo: seq<nat>, nodes: seq<nat>, n: nat): (z: Option<nat>)
    requires Rising(dom) && |topo| == |dom| && n <= |nodes| && forall k :: 0 <= k < |nodes| ==> nodes[k] < |dom|
    ensures InTree(dom, z)
  {
    if n == 0 then None
    else if n == 1 then Some(nodes[0])
    else Meet(dom, topo, MeetAll(dom, topo, nodes, n - 1), Some(nodes[n - 1]))
  }

  /** Parents below k do not matter to it either. */
  lemma {:induction false} MeetSuffix(dom: Parents, dom': Parents, topo: seq<nat>, k: nat, x: Option<nat>,
      y: Option<nat>)
    requires Rising(dom) && Rising(dom') && |dom| == |dom'| == |topo| && InTree(dom, x) && InTree(dom, y)
    requires (x.Some? ==> k <= x.value) && (y.Some? ==> k <= y.value)
    requires forall i :: k <= i < |dom| ==> dom[i] == dom'[i]
    ensures Meet(dom, topo, x, y) == Meet(dom', topo, x, y)
    ensures Meet(dom, topo, x, y).Some? ==> k <= Meet(dom, topo, x, y).value
    decreases Height(dom, x), Height(dom, y)
  {
    if x != y && x.Some? && y.Some? {
      if topo[x.value] < topo[y.value] {
        MeetSuffix(dom, dom', topo, k, dom[x.value], y);
      } else {
        MeetSuffix(dom, dom', topo, k, x, dom[y.value]);
      }
    }
  }

  lemma {:induction false} MeetAllSuffix(dom: Parents, dom': Parents, topo: seq<nat>, k: nat, nodes: seq<nat>, n: nat)
    requires Rising(dom) && Rising(dom') && |dom| == |dom'| == |topo| && n <= |nodes|
    requires forall j :: 0 <= j < |nodes| ==> k <= nodes[j] < |dom|
    requires forall i :: k <= i < |dom| ==> dom[i] == dom'[i]
    ensures MeetAll(dom, topo, nodes, n) == MeetAll(dom', topo, nodes, n)
    ensures MeetAll(dom, topo, nodes, n).Some? ==> k <= MeetAll(dom, topo, nodes, n).value
  {
    if n > 1 {
      MeetAllSuffix(dom, dom', topo, k, nodes, n - 1);
      MeetSuffix(dom, dom', topo, k, MeetAll(dom, topo, nodes, n - 1), Some(nodes[n - 1]));
    }
  }

  /** The two-finger walk: the pointer with the smaller topo index moves up, y on a tie. */
  method LCA(dom: Parents, topo: seq<nat>, x0: Option<nat>, y0: Option<nat>) returns (z: Option<nat>)
    requires Rising(dom) && |topo| == |dom| && InTree(dom, x0) && InTree(dom, y0)
    ensures InTree(dom, z) && z == Meet(dom, topo, x0, y0)
    ensures CommonAncestor(dom, x0, y0, z)
    ensures TopoRises(dom, topo) ==> NearestCommonAncestor(dom, x0, y0, z)
  {
    var x, y := x0, y0;
    while x != y
      invariant InTree(dom, x) && InTree(dom, y) && Meet(dom, topo, x, y) == Meet(dom, topo, x0, y0)
      invariant forall a: nat :: AncestorOfPointer(dom, a, x) ==> AncestorOfPointer(dom, a, x0)
      invariant forall a: nat :: AncestorOfPointer(dom, a, y) ==> AncestorOfPointer(dom, a, y0)
      invariant TopoRises(dom, topo) ==>
        forall a: nat :: AncestorOfPointer(dom, a, x0) && AncestorOfPointer(dom, a, y0) ==>
          AncestorOfPointer(dom, a, x) && AncestorOfPointer(dom, a, y)
      decreases if x.Some? then |dom| - x.value else 0, if y.Some? then |dom| - y.value else 0
    {
      if x.None? || y.None? {
        return None;
      }
      if topo[x.value] < topo[y.value] {
        MoveUp(dom, x.value);
        if TopoRises(dom, topo) && Ancestor(dom, x.value, y.value) {
          AncestorTopo(dom, topo, x.value, y.value);
        }
        x := dom[x.value];
      } else {
        MoveUp(dom, y.value);
        if TopoRises(dom, topo) && Ancestor(dom, y.value, x.value) {
          AncestorTopo(dom, topo, y.value, x.value);
        }
        y := dom[y.value];
      }
    }
    return x;
  }

  /** a is above every successor of i. */
  ghost predicate AboveSuccessors(succ: Edges, dom: Parents, i: nat, a: nat)
    requires Rising(dom) && i < |succ|
  {
    succ[i] != [] && forall j :: 0 <= j < |succ[i]| ==> Ancestor(dom, a, succ[i][j])
  }

  ghost predicate SoundAt(succ: Edges, dom: Parents, i: nat)
    requires Rising(dom) && i < |succ| == |dom|
  {
    forall a: nat :: AncestorOfPointer(dom, a, dom[i]) ==> AboveSuccessors(succ, dom, i, a)
  }

  ghost predicate ExactAt(succ: Edges, dom: Parents, i: nat)
    requires Rising(dom) && i < |succ| == |dom|
  {
    forall a: nat :: AboveSuccessors(succ, dom, i, a) ==> AncestorOfPointer(dom, a, dom[i])
  }

  /** Each node's parent chain is above all its successors. */
  ghost predicate TreeSound(succ: Edges, dom: Parents) {
    Rising(dom) && |dom| == |succ| && forall i :: 0 <= i < |succ| ==> SoundAt(succ, dom, i)
  }

  /** Each node above all successors of i is on i's parent chain. */
  ghost predicate TreeExact(succ: Edges, dom: Parents) {
    TreeSound(succ, dom) && forall i :: 0 <= i < |succ| ==> ExactAt(succ, dom, i)
  }

  ghost predicate IsChild(dom: Parents, from: nat, p: nat, c: nat) {
    from <= c < |dom| && dom[c] == Some(p)
  }

  /** Node i's parent is where its successors meet. */
  ghost predicate MeetsAt(succ: Edges, topo: seq<nat>, dom: Parents, i: nat)
    requires Forward(succ) && Rising(dom) && |topo| == |dom| == |succ| && i < |succ|
  {
    Within(succ[i], i, |succ|) && dom[i] == MeetAll(dom, topo, succ[i], |succ[i]|)
  }

  lemma MeetsStep(succ: Edges, topo: seq<nat>, dom: Parents, i: nat, parent: Option<nat>, dom': Parents)
    requires Forward(succ) && Rising(dom) && |topo| == |dom| == |succ| && i < |succ|
    requires dom' == dom[i := parent] && Rising(dom') && Within(succ[i], i, |succ|)
    requires parent == MeetAll(dom, topo, succ[i], |succ[i]|)
    requires forall k :: i < k < |succ| ==> MeetsAt(succ, topo, dom, k)
    ensures forall k :: i <= k < |succ| ==> MeetsAt(succ, topo, dom', k)
  {
    forall k | i <= k < |succ| ensures MeetsAt(succ, topo, dom', k) {
      assert k > i ==> MeetsAt(succ, topo, dom, k);
      MeetAllSuffix(dom, dom', topo, i + 1, succ[k], |succ[k]|);
    }
  }

  /** Lists hold each child once; `queue` holds each root once. */
  ghost predicate ChildLists(dom: Parents, from: nat, children: Edges, roots: seq<nat>) {
    && |children| == |dom|
    && (forall p: nat, c: nat :: p < |dom| ==> (c in children[p] <==> IsChild(dom, from, p, c)))
    && (forall p :: 0 <= p < |dom| ==> Distinct(children[p]))
    && (forall c: nat :: c in roots <==> from <= c < |dom| && dom[c] == None)
    && Distinct(roots)
  }

  /** The parent of one node: the fold of LCA over its successors. */
  method ParentOf(succ: Edges, topo: seq<nat>, dom: Parents, i: nat) returns (parent: Option<nat>)
    requires Forward(succ) && |succ| == |topo| == |dom| && i < |succ| && Rising(dom)
    ensures parent.Some? ==> i < parent.value < |succ|
    ensures Within(succ[i], i, |succ|) && parent == MeetAll(dom, topo, succ[i], |succ[i]|)
    ensures forall a: nat :: AncestorOfPointer(dom, a, parent) ==> AboveSuccessors(succ, dom, i, a)
    ensures TopoRises(dom, topo) ==>
      forall a: nat :: AboveSuccessors(succ, dom, i, a) ==> AncestorOfPointer(dom, a, parent)
  {
    if succ[i] == [] {
      return None;
    }
    parent := Some(succ[i][0]);
    var j := 1;
    while j < |succ[i]|
      invariant 1 <= j <= |succ[i]| && InTree(dom, parent) && parent == MeetAll(dom, topo, succ[i], j)
      invariant forall a: nat, k :: 0 <= k < j && AncestorOfPointer(dom, a, parent) ==> Ancestor(dom, a, succ[i][k])
      invariant TopoRises(dom, topo) ==>
        forall a: nat :: AboveSuccessors(succ, dom, i, a) ==> AncestorOfPointer(dom, a, parent)
    {
      parent := LCA(dom, topo, parent, Some(succ[i][j]));
      j := j + 1;
    }
    if parent.Some? {
      assert AncestorOfPointer(dom, parent.value, parent);
      AncestorBounds(dom, parent.value, succ[i][0]);
    }
  }

  lemma SetParent(succ: Edges, dom: Parents, i: nat, parent: Option<nat>, dom': Parents)
    requires Forward(succ) && |succ| == |dom| && i < |succ| && Rising(dom)
    requires forall k :: i < k < |succ| ==> SoundAt(succ, dom, k)
    requires parent.Some? ==> i < parent.value < |succ|
    requires forall a: nat :: AncestorOfPointer(dom, a, parent) ==> AboveSuccessors(succ, dom, i, a)
    requires dom' == dom[i := parent]
    ensures Rising(dom')
    ensures forall k :: i <= k < |succ| ==> SoundAt(succ, dom', k)
    ensures forall k :: i < k < |succ| && ExactAt(succ, dom, k) ==> ExactAt(succ, dom', k)
    ensures (forall a: nat :: AboveSuccessors(succ, dom, i, a) ==> AncestorOfPointer(dom, a, parent)) ==>
      ExactAt(succ, dom', i)
  {
    forall a: nat, x: nat | i < x < |succ|
      ensures Ancestor(dom, a, x) == Ancestor(dom', a, x)
    {
      AncestorSuffix(dom, dom', i + 1, a, x);
    }
    forall k: nat, a: nat | i <= k < |succ|
      ensures AboveSuccessors(succ, dom, k, a) == AboveSuccessors(succ, dom', k, a)
    {
    }
    forall k: nat, a: nat | i < k < |succ|
      ensures AncestorOfPointer(dom, a, dom[k]) == AncestorOfPointer(dom', a, dom'[k])
    {
    }
    forall k | i <= k < |succ|
      ensures SoundAt(succ, dom', k)
    {
      if k != i {
        assert SoundAt(succ, dom, k);
      }
    }
    forall k | i < k < |succ| && ExactAt(succ, dom, k)
      ensures ExactAt(succ, dom', k)
    {
    }
  }

  lemma AddChild(dom: Parents, i: nat, parent: Option<nat>, children: Edges, roots: seq<nat>, children': Edges,
      roots': seq<nat>)
    requires i < |dom| && (parent.Some? ==> parent.value < |dom|)
    requires ChildLists(dom, i + 1, children, roots)
    requires if parent.Some? then
        children' == children[parent.value := children[parent.value] + [i]] && roots' == roots
      else
        children' == children && roots' == roots + [i]
    ensures ChildLists(dom[i := parent], i, children', roots')
  {
    var dom' := dom[i := parent];
    if parent.Some? {
      var p := parent.value;
      assert !IsChild(dom, i + 1, p, i);
      DistinctAppend(children[p], i);
      forall q: nat, c: nat | q < |dom'|
        ensures c in children'[q] <==> IsChild(dom', i, q, c)
      {
        assert c in children[q] <==> IsChild(dom, i + 1, q, c);
      }
    } else {
      DistinctAppend(roots, i);
    }
  }

  lemma ParentTopoRises(succ: Edges, topo: seq<nat>, dom: Parents, i: nat, parent: Option<nat>)
    requires Forward(succ) && |succ| == |dom| && i < |succ| && Rising(dom)
    requires EdgesRise(succ, topo) && TopoRises(dom, topo)
    requires parent.Some? ==> i < parent.value < |succ|
    requires forall a: nat :: AncestorOfPointer(dom, a, parent) ==> AboveSuccessors(succ, dom, i, a)
    ensures TopoRises(dom[i := parent], topo)
  {
    if parent.Some? {
      assert AncestorOfPointer(dom, parent.value, parent);
      var s := succ[i][0];
      if s != parent.value {
        AncestorTopo(dom, topo, parent.value, s);
      }
    }
  }

  /**
   The dominator tree: nodes from last to first; a node without a parent joins the queue of
   roots, any other node its parent's list.
   */
  method BuildTree(succ: Edges, topo: seq<nat>)
    returns (dom: Parents, children: Edges, roots: seq<nat>)
    requires Forward(succ) && |topo| == |succ|
    ensures TreeSound(succ, dom) && forall i :: 0 <= i < |succ| ==> MeetsAt(succ, topo, dom, i)
    ensures EdgesRise(succ, topo) ==> TreeExact(succ, dom)
    ensures ChildLists(dom, 0, children, roots)
  {
    dom := seq(|succ|, _ => None);
    children := seq(|succ|, _ => []);
    roots := [];
    var i := |succ|;
    while i > 0
      invariant 0 <= i <= |succ| == |dom| && Rising(dom)
      invariant forall k :: 0 <= k < i ==> dom[k] == None
      invariant forall k :: i <= k < |succ| ==> SoundAt(succ, dom, k) && MeetsAt(succ, topo, dom, k)
      invariant EdgesRise(succ, topo) ==> TopoRises(dom, topo) && forall k :: i <= k < |succ| ==> ExactAt(succ, dom, k)
      invariant ChildLists(dom, i, children, roots)
    {
      i := i - 1;
      var parent := ParentOf(succ, topo, dom, i);
      ghost var dom0, children0, roots0 := dom, children, roots;
      if EdgesRise(succ, topo) {
        ParentTopoRises(succ, topo, dom, i, parent);
      }
      dom := dom[i := parent];
      SetParent(succ, dom0, i, parent, dom);
      MeetsStep(succ, topo, dom0, i, parent, dom);
      if parent.Some? {
        children := children[parent.value := children[parent.value] + [i]];
      } else {
        roots := roots + [i];
      }
      AddChild(dom0, i, parent, children0, roots0, children, roots);
    }
  }

  /** Every maximal path from n passes through m. */
  ghost predicate PostDominates(succ: Edges, m: nat, n: nat) {
    forall p | IsMaximalPath(succ, n, p) :: m in p
  }

  lemma PostDominatesStep(succ: Edges, m: nat, n: nat)
    requires Forward(succ) && n < |succ| && m != n && succ[n] != []
    requires forall s: nat | Edge(succ, n, s) :: PostDominates(succ, m, s)
    ensures PostDominates(succ, m, n)
  {
    forall p | IsMaximalPath(succ, n, p)
      ensures m in p
    {
      assert |p| > 1;
      assert Edge(succ, p[0], p[1]);
      assert forall k :: 0 <= k < |p| - 2 ==> Edge(succ, p[1..][k], p[1..][k + 1]) by {
        forall k | 0 <= k < |p| - 2 ensures Edge(succ, p[1..][k], p[1..][k + 1]) {
          assert Edge(succ, p[k + 1], p[k + 2]);
        }
      }
      assert IsMaximalPath(succ, p[1], p[1..]);
    }
  }

  lemma PostDominatesSuccessor(succ: Edges, m: nat, n: nat, s: nat)
    requires Forward(succ) && m != n && PostDominates(succ, m, n) && Edge(succ, n, s)
    ensures PostDominates(succ, m, s)
  {
    forall p | IsMaximalPath(succ, s, p)
      ensures m in p
    {
      var q := [n] + p;
      assert forall k :: 0 <= k < |q| - 1 ==> Edge(succ, q[k], q[k + 1]);
      assert IsMaximalPath(succ, n, q);
    }
  }

  /** With or without ties in the topo index, a node's tree ancestors post-dominate it. */
  lemma {:induction false} AncestorPostDominates(succ: Edges, dom: Parents, m: nat, n: nat)
    requires Forward(succ) && TreeSound(succ, dom) && n < |succ| && Ancestor(dom, m, n)
    ensures PostDominates(succ, m, n)
    decreases |succ| - n
  {
    if m != n {
      assert SoundAt(succ, dom, n);
      assert AncestorOfPointer(dom, m, dom[n]);
      forall s: nat | Edge(succ, n, s)
        ensures PostDominates(succ, m, s)
      {
        AncestorPostDominates(succ, dom, m, s);
      }
      PostDominatesStep(succ, m, n);
    }
  }

  /** With strictly rising topo indices, every post-dominator is a tree ancestor. */
  lemma {:induction false} PostDominatorIsAncestor(succ: Edges, dom: Parents, m: nat, n: nat)
    requires Forward(succ) && TreeExact(succ, dom) && n < |succ| && PostDominates(succ, m, n)
    ensures Ancestor(dom, m, n)
    decreases |succ| - n
  {
    if m != n {
      if succ[n] == [] {
        assert IsMaximalPath(succ, n, [n]);
      }
      forall j | 0 <= j < |succ[n]|
        ensures Ancestor(dom, m, succ[n][j])
      {
        PostDominatesSuccessor(succ, m, n, succ[n][j]);
        PostDominatorIsAncestor(succ, dom, m, succ[n][j]);
      }
      assert ExactAt(succ, dom, n);
      assert AboveSuccessors(succ, dom, n, m);
    }
  }

  /** d strictly post-dominates n and every other strict post-dominator post-dominates d. */
  ghost predicate ImmediatePostDominator(succ: Edges, n: nat, d: Option<nat>)
  {
    if d.Some? then
      && d.value != n
      && PostDominates(succ, d.value, n)
      && forall m: nat :: m != n && PostDominates(succ, m, n) ==> PostDominates(succ, m, d.value)
    else
      forall m: nat :: PostDominates(succ, m, n) ==> m == n
  }

  /** The parent in the tree is the immediate post-dominator. */
  lemma ParentIsImmediatePostDominator(succ: Edges, dom: Parents, n: nat)
    requires Forward(succ) && TreeExact(succ, dom) && n < |succ|
    ensures ImmediatePostDominator(succ, n, dom[n])
  {
    forall m: nat | m != n && PostDominates(succ, m, n)
      ensures dom[n].Some? && PostDominates(succ, m, dom[n].value)
    {
      PostDominatorIsAncestor(succ, dom, m, n);
      AncestorPostDominates(succ, dom, m, dom[n].value);
    }
    if dom[n].Some? {
      assert Ancestor(dom, dom[n].value, dom[n].value);
      AncestorPostDominates(succ, dom, dom[n].value, n);
    }
  }

  /** Immediate post-dominators are unique, so the tree is determined by the graph. */
  lemma ImmediatePostDominatorUnique(succ: Edges, dom: Parents, n: nat, d: Option<nat>)
    requires Forward(succ) && TreeExact(succ, dom) && n < |succ|
    requires ImmediatePostDominator(succ, n, d)
    ensures d == dom[n]
  {
    ParentIsImmediatePostDominator(succ, dom, n);
    if d.Some? && dom[n].Some? {
      PostDominatorIsAncestor(succ, dom, d.value, n);
      AncestorBounds(dom, d.value, n);
      PostDominatorIsAncestor(succ, dom, dom[n].value, d.value);
      PostDominatorIsAncestor(succ, dom, d.value, dom[n].value);
      AncestorBounds(dom, d.value, dom[n].value);
      AncestorBounds(dom, dom[n].value, d.value);
    }
  }
}
