/**
 The dataflow graph of a command list. A node is a position in the graph vector; `succ[i]`
 lists, with repetitions, the nodes that read what node i writes.
 */
module FusionGraph {
  import opened Wrappers

  type Edges = seq<seq<nat>>

  /** Every edge leads to a later node of the list. */
  ghost predicate Forward(succ: Edges) {
    forall i, j :: 0 <= i < |succ| && 0 <= j < |succ[i]| ==> i < succ[i][j] < |succ|
  }

  ghost predicate Edge(succ: Edges, i: nat, s: nat)
  {
    i < |succ| && s in succ[i]
  }

  /** A path is a nonempty list of nodes, each an edge away from the one before. */
  ghost predicate IsPath(succ: Edges, p: seq<nat>)
  {
    && |p| > 0
    && (forall k :: 0 <= k < |p| ==> p[k] < |succ|)
    && (forall k :: 0 <= k < |p| - 1 ==> Edge(succ, p[k], p[k + 1]))
  }

  /** A path that starts at n and cannot be extended. */
  ghost predicate IsMaximalPath(succ: Edges, n: nat, p: seq<nat>)
  {
    IsPath(succ, p) && p[0] == n && succ[p[|p| - 1]] == []
  }

  /** Every listed node lies strictly between two bounds. */
  ghost predicate Within(nodes: seq<nat>, above: int, below: int)
  {
    forall k :: 0 <= k < |nodes| ==> above < nodes[k] < below
  }

  /** The number of pops that a breadth-first walk without a visited set makes from n. */
  ghost function Weight(succ: Edges, n: nat): (w: nat)
    requires Forward(succ) && n < |succ|
    decreases |succ| - n, 1
  {
    1 + ListWeight(succ, succ[n], n)
  }

  ghost function ListWeight(succ: Edges, nodes: seq<nat>, above: int): (w: nat)
    requires Forward(succ) && -1 <= above < |succ| && Within(nodes, above, |succ|)
    decreases |succ| - above, 0, |nodes|
  {
    if nodes == [] then 0
    else Weight(succ, nodes[0]) + ListWeight(succ, nodes[1..], above)
  }

  ghost function QueueWeight(succ: Edges, queue: seq<nat>): (w: nat)
    requires Forward(succ) && Within(queue, -1, |succ|)
  {
    ListWeight(succ, queue, -1)
  }

  lemma {:induction false} QueueWeightAppend(succ: Edges, a: seq<nat>, b: seq<nat>)
    requires Forward(succ) && Within(a, -1, |succ|) && Within(b, -1, |succ|)
    ensures Within(a + b, -1, |succ|)
    ensures QueueWeight(succ, a + b) == QueueWeight(succ, a) + QueueWeight(succ, b)
  {
    if a == [] {
      assert a + b == b;
    } else {
      assert (a + b)[1..] == a[1..] + b;
      QueueWeightAppend(succ, a[1..], b);
    }
  }

  lemma {:induction false} ListWeightAbove(succ: Edges, nodes: seq<nat>, above: int)
    requires Forward(succ) && -1 <= above < |succ| && Within(nodes, above, |succ|)
    ensures ListWeight(succ, nodes, above) == QueueWeight(succ, nodes)
  {
    if nodes != [] {
      ListWeightAbove(succ, nodes[1..], above);
    }
  }
}
