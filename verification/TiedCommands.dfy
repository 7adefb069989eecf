/**
 A list on which the pass goes wrong: five commands, the first four of one OpCacheInfo. The region that the pass finds
 lists a reader before the command that it reads, and that order is sorted already.
 */
module TiedCommands {
  import opened Wrappers
  import opened Commands
  import opened FusionGraph
  import opened PostDominators
  import opened Regions
  import opened RegionSearch
  import opened CommandGraph
  import opened SingleAssignment
  import opened OpFuse
  import opened FusionCorrect
  import opened FusionTies

  function Unary(input: Tensor, output: Tensor): Command {
    Command(Plain(Op(UnaryOp, 0)), [input], [output], true)
  }

  /** t1 = f(t0); t2 = f(t1); t3 = f(t2); t4 = f(t1); t5 = g(t3, t4). */
  const Five: seq<Command> :=
    [Unary(0, 1), Unary(1, 2), Unary(2, 3), Unary(1, 4), Command(Plain(Op(BinaryOp, 0)), [3, 4], [5], true)]

  const Topo: seq<nat> := [0, 0, 0, 0, 1]

  /** Tensors of one element. */
  function Scalars(): World {
    World(_ => Describe(1, false, 0.0), (_, _) => 0.0, (_, _, _, _) => 0.0)
  }

  lemma FiveWrites(i: nat, t: Tensor)
    ensures WritesTo(Five, i, t) <==> i < 5 && t == i + 1
    ensures ReadsFrom(Five, i, t) ==> i < 5 && t <= i
  {
  }

  lemma FiveIsProgram()
    ensures IsProgram(Scalars(), Five)
  {
    forall i: nat, j: nat, t
      ensures WritesTo(Five, i, t) && WritesTo(Five, j, t) ==> i == j
      ensures WritesTo(Five, i, t) && ReadsFrom(Five, j, t) ==> i < j
    {
      FiveWrites(i, t);
      FiveWrites(j, t);
    }
    forall i | 0 <= i < 5
      ensures Distinct(Five[i].outputs) && Five[i].action.Plain? && |Five[i].outputs| == 1
    {
    }
  }

  lemma FiveWriters()
    ensures LastWriter(Five, 0, 0) == None && LastWriter(Five, 1, 1) == Some(0) && LastWriter(Five, 2, 2) == Some(1)
    ensures LastWriter(Five, 3, 1) == Some(0) && LastWriter(Five, 4, 3) == Some(2) && LastWriter(Five, 4, 4) == Some(3)
  {
    assert LastWriter(Five, 2, 1) == Some(0);
    assert LastWriter(Five, 3, 3) == Some(2);
  }

  lemma NextReaders(cmds: seq<Command>, p: nat, n: nat)
    requires n < |cmds| && 1 <= |cmds[n].inputs| <= 2
    ensures var inputs := cmds[n].inputs;
      var first := if LastWriter(cmds, n, inputs[0]) == Some(p) then [n] else [];
      var second := if |inputs| == 2 && LastWriter(cmds, n, inputs[1]) == Some(p) then [n] else [];
      Readers(cmds, p, n + 1) == Readers(cmds, p, n) + (first + second)
  {
    var k := |cmds[n].inputs|;
    assert ReadersAt(cmds, p, n, k - k) == [];
    assert ReadersAt(cmds, p, n, k - k + 1) == if LastWriter(cmds, n, cmds[n].inputs[0]) == Some(p) then [n] else [];
  }

  lemma FiveReaders(p: nat)
    requires p < 5
    ensures Readers(Five, p, 5) == FiveEdges()[p]
  {
    FiveWriters();
    assert Readers(Five, p, 0) == [];
    NextReaders(Five, p, 0);
    NextReaders(Five, p, 1);
    NextReaders(Five, p, 2);
    NextReaders(Five, p, 3);
    NextReaders(Five, p, 4);
  }

  ghost function FiveEdges(): Edges {
    [[1, 3], [2], [4], [4], []]
  }

  ghost predicate IsFive(succ: Edges) {
    succ == FiveEdges() && Forward(succ)
  }

  ghost predicate IsFiveTree(succ: Edges, dom: Parents) {
    IsFive(succ) && TreeSound(succ, dom) && dom == [Some(4), Some(2), Some(4), Some(4), None]
  }

  /** The tree: with ties, the walk from nodes 1 and 3 steps over their nearest common ancestor or stops there. */
  lemma FiveTree(succ: Edges, dom: Parents)
    requires IsFive(succ) && TreeSound(succ, dom) && forall i: nat :: i < 5 ==> MeetsAt(succ, Topo, dom, i)
    ensures IsFiveTree(succ, dom)
  {
    assert MeetsAt(succ, Topo, dom, 4) && dom[4] == None;
    assert MeetsAt(succ, Topo, dom, 3) && dom[3] == Some(4);
    assert MeetsAt(succ, Topo, dom, 2) && dom[2] == Some(4);
    assert MeetsAt(succ, Topo, dom, 1) && dom[1] == Some(2);
    assert MeetsAt(succ, Topo, dom, 0);
    assert MeetAll(dom, Topo, succ[0], 1) == Some(1);
    assert Meet(dom, Topo, Some(4), Some(4)) == Some(4);
    assert Meet(dom, Topo, Some(2), Some(4)) == Some(4);
    assert Meet(dom, Topo, Some(1), Some(4)) == Some(4);
    assert Meet(dom, Topo, Some(1), Some(3)) == Some(4);
  }

  lemma FiveLegal(succ: Edges, c: nat)
    requires IsFive(succ) && c < 5
    ensures AllLegal(succ, Five, c, 4)
    decreases 5 - c
  {
    forall j | 0 <= j < |succ[c]| && succ[c][j] != 4 ensures AllLegal(succ, Five, succ[c][j], 4) {
      FiveLegal(succ, succ[c][j]);
    }
  }

  /** Everything is one region. */
  lemma FiveRegion(succ: Edges, dom: Parents, c: nat)
    requires IsFiveTree(succ, dom) && c < 5
    ensures InRegion(succ, dom, Five, 4, c)
    decreases 5 - c
  {
    FiveLegal(succ, c);
    if c != 4 {
      FiveRegion(succ, dom, dom[c].value);
    }
  }

  /** One of the sets is all five, and [1, 0, 2, 3, 4] is an order that sorting it may give. */
  ghost predicate HoldsFive(fuseSets: seq<seq<nat>>) {
    exists i :: 0 <= i < |fuseSets| && IsAllFive(fuseSets[i])
  }

  ghost predicate IsAllFive(fuseSet: seq<nat>) {
    fuseSet != [] && Root(fuseSet) == 4 && SameNodes([1, 0, 2, 3, 4], fuseSet) && TopoSorted([1, 0, 2, 3, 4], Topo)
  }

  lemma FiveGraph(f: Fusion, out: seq<Command>)
    requires IsFusionOf(Scalars(), Five, Topo, f, out) && forall i: nat :: i < 5 ==> MeetsAt(f.succ, Topo, f.dom, i)
    ensures IsFiveTree(f.succ, f.dom) && Feeds(Five, 0, 1)
  {
    forall p: nat | p < 5 ensures f.succ[p] == FiveEdges()[p] {
      FiveReaders(p);
    }
    assert f.succ == FiveEdges();
    FiveTree(f.succ, f.dom);
    assert f.succ[0][0] == 1;
    assert Edge(f.succ, 0, 1);
  }

  lemma FiveFound(f: Fusion, out: seq<Command>)
    requires IsFusionOf(Scalars(), Five, Topo, f, out) && IsFiveTree(f.succ, f.dom)
    ensures HoldsFive(f.fuseSets)
  {
    FiveFusable(f.succ, f.dom);
    assert HasRoot(f.fuseSets, 4);
    var i :| 0 <= i < |f.fuseSets| && f.fuseSets[i] != [] && Root(f.fuseSets[i]) == 4;
    FiveIsSet(f.succ, f.dom, f.fuseSets[i]);
  }

  lemma FiveFusable(succ: Edges, dom: Parents)
    requires IsFiveTree(succ, dom)
    ensures IsSearched(succ, dom, Five, 4) && Fusable(succ, dom, Five, 4)
  {
    FiveRegion(succ, dom, 0);
  }

  lemma FiveIsSet(succ: Edges, dom: Parents, fuseSet: seq<nat>)
    requires IsFiveTree(succ, dom) && IsFuseSet(succ, dom, Five, fuseSet) && Root(fuseSet) == 4
    ensures IsAllFive(fuseSet)
  {
    var order := [1, 0, 2, 3, 4];
    forall c: nat ensures c in fuseSet <==> c in order {
      if c < 5 {
        FiveRegion(succ, dom, c);
        assert order[[1, 0, 2, 3, 4][c]] == c;
      }
    }
  }

  lemma FiveBreaks(succ: Edges, dom: Parents, fuseSets: seq<seq<nat>>)
    requires IsProgram(Scalars(), Five) && IsGraph(Five, succ, dom) && AllFuseSets(succ, dom, Five, fuseSets)
    requires HoldsFive(fuseSets) && Feeds(Five, 0, 1)
    ensures !KeepsMeaningForAll(Scalars(), Five, Topo, fuseSets)
  {
    var i: nat :| i < |fuseSets| && IsAllFive(fuseSets[i]);
    var order := [1, 0, 2, 3, 4];
    assert order[1] in order && order[0] in order;
    assert !EdgeRises(Topo, 0, 1) && !IsEmptySet(Scalars(), Five, fuseSets[i]);
    TieBreaks(Scalars(), Five, succ, dom, Topo, fuseSets, i, 0, 1);
  }

  /**
   The pass on this list: it finds all five commands as one region, for which a sorted order has command 1 before
   command 0 that it reads; and there are operators for which the list it may leave computes something else.
   */
  method TiedPass() returns (out: seq<Command>, ghost f: Fusion)
    ensures IsProgram(Scalars(), Five) && IsFusionOf(Scalars(), Five, Topo, f, out) && Feeds(Five, 0, 1)
    ensures HoldsFive(f.fuseSets) && !KeepsMeaningForAll(Scalars(), Five, Topo, f.fuseSets)
  {
    FiveIsProgram();
    out, f := FuseOps(Scalars(), Five, Topo);
    FiveGraph(f, out);
    FiveFound(f, out);
    FiveBreaks(f.succ, f.dom, f.fuseSets);
  }
}
