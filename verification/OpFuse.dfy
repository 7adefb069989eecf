/**
 The fusion pass (codegen/OpFuse.cpp:307-520): kernel generation for every region, replacement
 of the roots, erasure of the other members, and the proof that this changes no kept tensor.
 */
module OpFuse {
  import opened Wrappers
  import opened Commands
  import opened FusionGraph
  import opened PostDominators
  import opened Regions
  import opened RegionSearch
  import opened Kernels
  import opened KernelMeaning
  import opened CommandGraph
  import opened SingleAssignment

  // ---------------------------------------------------------------- code generation

  /** A kernel with the order in which its members were compiled. */
  datatype Generated = Generated(order: seq<nat>, kernel: Kernel, inputs: seq<Tensor>, outputs: seq<Tensor>)

  function Root(fuseSet: seq<nat>): nat
    requires fuseSet != []
  {
    fuseSet[|fuseSet| - 1]
  }

  ghost predicate SameNodes(a: seq<nat>, b: seq<nat>) {
    Distinct(a) && forall c: nat :: c in a <==> c in b
  }

  ghost predicate TopoSorted(order: seq<nat>, topo: seq<nat>) {
    forall i, j :: 0 <= i < j < |order| && order[i] < |topo| && order[j] < |topo| ==> topo[order[i]] <= topo[order[j]]
  }

  function RegionCommands(cmds: seq<Command>, order: seq<nat>): seq<Command>
    requires forall k :: 0 <= k < |order| ==> order[k] < |cmds|
  {
    seq(|order|, k requires 0 <= k < |order| => cmds[order[k]])
  }

  /** The nodes sorted by topo index; nodes with equal indices come in any order. */
  method SortByTopo(nodes: seq<nat>, topo: seq<nat>) returns (order: seq<nat>)
    requires Distinct(nodes) && forall k :: 0 <= k < |nodes| ==> nodes[k] < |topo|
    ensures SameNodes(order, nodes) && TopoSorted(order, topo)
  {
    order := [];
    var rest := set x | x in nodes;
    while rest != {}
      invariant forall c: nat :: c in nodes <==> c in order || c in rest
      invariant forall c: nat :: c in order ==> c !in rest
      invariant Distinct(order) && TopoSorted(order, topo)
      invariant forall k, c: nat :: 0 <= k < |order| && c in rest && order[k] < |topo| && c < |topo| ==>
        topo[order[k]] <= topo[c]
      decreases rest
    {
      MinimumExists(rest, topo);
      ghost var least: nat :| IsMinimum(rest, topo, least);
      assert least in rest && forall c: nat :: c in rest ==> topo[least] <= topo[c];
      var m: nat :| m in rest && forall c: nat :: c in rest ==> topo[m] <= topo[c];
      DistinctAppend(order, m);
      order := order + [m];
      rest := rest - {m};
    }
  }

  ghost predicate IsMinimum(rest: set<nat>, topo: seq<nat>, m: nat)
    requires forall c: nat :: c in rest ==> c < |topo|
  {
    m in rest && forall c: nat :: c in rest ==> topo[m] <= topo[c]
  }

  lemma MinimumExists(rest: set<nat>, topo: seq<nat>)
    requires rest != {} && forall c: nat :: c in rest ==> c < |topo|
    ensures exists m: nat :: IsMinimum(rest, topo, m)
  {
    var x: nat :| x in rest;
    var others := rest - {x};
    assert forall c: nat :: c in rest ==> c == x || c in others;
    if others == {} {
      assert IsMinimum(rest, topo, x);
    } else {
      MinimumExists(others, topo);
      var y: nat :| IsMinimum(others, topo, y);
      if topo[x] <= topo[y] {
        assert IsMinimum(rest, topo, x);
      } else {
        assert IsMinimum(rest, topo, y);
      }
    }
  }

  /** The members of a fuse set can be compiled. */
  ghost predicate CanGenerate(cmds: seq<Command>, fuseSet: seq<nat>) {
    && fuseSet != [] && Distinct(fuseSet)
    && (forall k :: 0 <= k < |fuseSet| ==> fuseSet[k] < |cmds| && CompilableCommand(cmds[fuseSet[k]]))
  }

  ghost predicate InBounds(cmds: seq<Command>, order: seq<nat>) {
    forall k :: 0 <= k < |order| ==> order[k] < |cmds|
  }

  ghost predicate IsGenerated(w: World, cmds: seq<Command>, topo: seq<nat>, fuseSet: seq<nat>, g: Generated) {
    && SameNodes(g.order, fuseSet) && TopoSorted(g.order, topo) && InBounds(cmds, g.order)
    && Compilable(RegionCommands(cmds, g.order))
    && IsKernelOf(w, RegionCommands(cmds, g.order), g.kernel, g.inputs, g.outputs)
  }

  ghost predicate IsMember(fuseSets: seq<seq<nat>>, m: nat) {
    exists i :: 0 <= i < |fuseSets| && m in fuseSets[i]
  }

  /** Roots run their kernels, the other members have lost their op, the rest is unchanged. */
  ghost predicate IsReplaced(cmds: seq<Command>, fuseSets: seq<seq<nat>>, gens: seq<Generated>, out: seq<Command>)
  {
    && |gens| == |fuseSets| && |out| == |cmds|
    && (forall i :: 0 <= i < |fuseSets| ==> fuseSets[i] != [])
    && (forall m: nat :: m < |cmds| && !IsMember(fuseSets, m) ==> out[m] == cmds[m])
    && (forall i, m: nat :: 0 <= i < |fuseSets| && m in fuseSets[i] && m < |cmds| ==>
          MemberReplaced(fuseSets[i], gens[i], m, out[m]))
  }

  ghost predicate MemberReplaced(fuseSet: seq<nat>, g: Generated, m: nat, cmd: Command)
    requires fuseSet != []
  {
    if m == Root(fuseSet) then cmd.action == Fused(g.kernel) && cmd.inputs == g.inputs && cmd.outputs == g.outputs
    else cmd.action.Erased?
  }

  method GenerateOne(w: World, cmds: seq<Command>, topo: seq<nat>, fuseSet: seq<nat>) returns (g: Generated)
    requires |topo| == |cmds| && CanGenerate(cmds, fuseSet)
    ensures IsGenerated(w, cmds, topo, fuseSet, g)
  {
    var order := SortByTopo(fuseSet, topo);
    forall k | 0 <= k < |order| ensures order[k] < |cmds| && CompilableCommand(cmds[order[k]]) {
      assert order[k] in order;
    }
    var kernel, inputs, outputs := BuildKernel(w, RegionCommands(cmds, order));
    g := Generated(order, kernel, inputs, outputs);
  }

  /** The root takes the kernel, every other member a null op. */
  method ReplaceMembers(cmds: seq<Command>, fuseSet: seq<nat>, g: Generated) returns (out: seq<Command>)
    requires fuseSet != [] && Distinct(fuseSet) && InBounds(cmds, fuseSet)
    ensures |out| == |cmds|
    ensures forall m: nat :: m < |cmds| && m !in fuseSet ==> out[m] == cmds[m]
    ensures forall m: nat :: m < |cmds| && m in fuseSet ==> MemberReplaced(fuseSet, g, m, out[m])
  {
    out := cmds;
    var i := 0;
    while i < |fuseSet|
      invariant 0 <= i <= |fuseSet| && |out| == |cmds|
      invariant forall m: nat :: m < |cmds| && m !in fuseSet[..i] ==> out[m] == cmds[m]
      invariant forall m: nat :: m < |cmds| && m in fuseSet[..i] ==> MemberReplaced(fuseSet, g, m, out[m])
    {
      var m := fuseSet[i];
      if i == |fuseSet| - 1 {
        out := out[m := out[m].(action := Fused(g.kernel), inputs := g.inputs, outputs := g.outputs)];
      } else {
        out := out[m := out[m].(action := Erased)];
      }
      assert fuseSet[..i + 1] == fuseSet[..i] + [m];
      i := i + 1;
    }
    assert fuseSet[..i] == fuseSet;
  }

  ghost predicate PairwiseDisjoint(fuseSets: seq<seq<nat>>) {
    forall i, j :: 0 <= i < j < |fuseSets| ==> Disjoint(fuseSets[i], fuseSets[j])
  }

  /** A later set's kernel is generated from commands that earlier replacements have not touched. */
  lemma RegionUntouched(cmds: seq<Command>, out: seq<Command>, fuseSets: seq<seq<nat>>, n: nat, order: seq<nat>)
    requires n < |fuseSets| && PairwiseDisjoint(fuseSets) && |out| == |cmds| && InBounds(cmds, order)
    requires forall m: nat :: m < |cmds| && !IsMember(fuseSets[..n], m) ==> out[m] == cmds[m]
    requires forall c: nat :: c in order ==> c in fuseSets[n]
    ensures RegionCommands(out, order) == RegionCommands(cmds, order)
  {
    forall k | 0 <= k < |order| ensures out[order[k]] == cmds[order[k]] {
      var m := order[k];
      assert m in order;
      forall i | 0 <= i < n ensures m !in fuseSets[..n][i] {
        assert Disjoint(fuseSets[i], fuseSets[n]);
      }
    }
  }

  lemma ReplacedStep(cmds: seq<Command>, fuseSets: seq<seq<nat>>, n: nat, gens: seq<Generated>, out: seq<Command>,
      g: Generated, out': seq<Command>)
    requires n < |fuseSets| && PairwiseDisjoint(fuseSets) && |gens| == n
    requires forall i :: 0 <= i < |fuseSets| ==> fuseSets[i] != []
    requires IsReplaced(cmds, fuseSets[..n], gens, out) && |out'| == |out|
    requires forall m: nat :: m < |cmds| && m !in fuseSets[n] ==> out'[m] == out[m]
    requires forall m: nat :: m < |cmds| && m in fuseSets[n] ==> MemberReplaced(fuseSets[n], g, m, out'[m])
    ensures IsReplaced(cmds, fuseSets[..n + 1], gens + [g], out')
  {
    var sets, sets' := fuseSets[..n], fuseSets[..n + 1];
    forall m: nat | m < |cmds| && !IsMember(sets', m) ensures out'[m] == cmds[m] {
      assert sets'[n] == fuseSets[n];
      forall i | 0 <= i < n ensures m !in sets[i] {
        assert sets'[i] == sets[i];
      }
    }
    forall i, m: nat | 0 <= i < n + 1 && m in sets'[i] && m < |cmds|
      ensures MemberReplaced(sets'[i], (gens + [g])[i], m, out'[m])
    {
      if i < n {
        assert m in sets[i] && Disjoint(fuseSets[i], fuseSets[n]);
      }
    }
  }

  ghost predicate AllGenerated(w: World, cmds: seq<Command>, topo: seq<nat>, fuseSets: seq<seq<nat>>,
      gens: seq<Generated>) {
    |gens| <= |fuseSets| && forall i :: 0 <= i < |gens| ==> IsGenerated(w, cmds, topo, fuseSets[i], gens[i])
  }

  ghost predicate CanGenerateAll(cmds: seq<Command>, fuseSets: seq<seq<nat>>) {
    PairwiseDisjoint(fuseSets) && forall i :: 0 <= i < |fuseSets| ==> CanGenerate(cmds, fuseSets[i])
  }

  lemma GeneratedAppend(w: World, cmds: seq<Command>, topo: seq<nat>, fuseSets: seq<seq<nat>>, gens: seq<Generated>,
      g: Generated)
    requires AllGenerated(w, cmds, topo, fuseSets, gens) && |gens| < |fuseSets|
    requires IsGenerated(w, cmds, topo, fuseSets[|gens|], g)
    ensures AllGenerated(w, cmds, topo, fuseSets, gens + [g])
  {
    forall i | 0 <= i < |gens + [g]| ensures IsGenerated(w, cmds, topo, fuseSets[i], (gens + [g])[i]) {
      if i < |gens| {
        assert (gens + [g])[i] == gens[i];
      }
    }
  }

  /** Set n can still be generated from the list that the earlier replacements left. */
  lemma StillCanGenerate(cmds: seq<Command>, fuseSets: seq<seq<nat>>, n: nat, gens: seq<Generated>, out: seq<Command>)
    requires CanGenerateAll(cmds, fuseSets) && n < |fuseSets| && IsReplaced(cmds, fuseSets[..n], gens, out)
    ensures CanGenerate(out, fuseSets[n])
  {
    var fuseSet := fuseSets[n];
    forall k | 0 <= k < |fuseSet| ensures fuseSet[k] < |out| && out[fuseSet[k]] == cmds[fuseSet[k]] {
      assert fuseSet[k] in fuseSet;
      RegionUntouched(cmds, out, fuseSets, n, [fuseSet[k]]);
      assert RegionCommands(out, [fuseSet[k]])[0] == RegionCommands(cmds, [fuseSet[k]])[0];
    }
  }

  lemma GeneratedFromOriginal(w: World, cmds: seq<Command>, topo: seq<nat>, fuseSets: seq<seq<nat>>, n: nat,
      gens: seq<Generated>, out: seq<Command>, g: Generated)
    requires PairwiseDisjoint(fuseSets) && n < |fuseSets| && IsReplaced(cmds, fuseSets[..n], gens, out)
    requires IsGenerated(w, out, topo, fuseSets[n], g)
    ensures IsGenerated(w, cmds, topo, fuseSets[n], g)
  {
    RegionUntouched(cmds, out, fuseSets, n, g.order);
  }

  /** All kernels and replacements, set by set. */
  method Codegen(w: World, cmds: seq<Command>, topo: seq<nat>, fuseSets: seq<seq<nat>>)
    returns (out: seq<Command>, gens: seq<Generated>)
    requires |topo| == |cmds| && CanGenerateAll(cmds, fuseSets)
    ensures IsReplaced(cmds, fuseSets, gens, out)
    ensures AllGenerated(w, cmds, topo, fuseSets, gens)
  {
    out, gens := cmds, [];
    var n := 0;
    while n < |fuseSets|
      invariant 0 <= n <= |fuseSets| && |gens| == n
      invariant IsReplaced(cmds, fuseSets[..n], gens, out)
      invariant AllGenerated(w, cmds, topo, fuseSets, gens)
    {
      StillCanGenerate(cmds, fuseSets, n, gens, out);
      var g := GenerateOne(w, out, topo, fuseSets[n]);
      GeneratedFromOriginal(w, cmds, topo, fuseSets, n, gens, out, g);
      var replaced := ReplaceMembers(out, fuseSets[n], g);
      ReplacedStep(cmds, fuseSets, n, gens, out, g, replaced);
      GeneratedAppend(w, cmds, topo, fuseSets, gens, g);
      out, gens := replaced, gens + [g];
      n := n + 1;
    }
    assert fuseSets[..n] == fuseSets;
  }

  /** The commands that still have an op. */
  function WithOps(cmds: seq<Command>): seq<Command> {
    if cmds == [] then []
    else WithOps(cmds[..|cmds| - 1]) + if cmds[|cmds| - 1].action.Erased? then [] else [cmds[|cmds| - 1]]
  }

  /** The erasing loop over the execution buffer. */
  method EraseNullOps(cmds: seq<Command>) returns (out: seq<Command>)
    ensures out == WithOps(cmds)
  {
    out := cmds;
    var iter := 0;
    ghost var seen := 0;
    while iter < |out|
      invariant 0 <= iter <= |out| && 0 <= seen <= |cmds|
      invariant out[..iter] == WithOps(cmds[..seen]) && out[iter..] == cmds[seen..]
      decreases |out| - iter
    {
      assert cmds[..seen + 1][..seen] == cmds[..seen];
      assert out[iter] == out[iter..][0] == cmds[seen];
      if out[iter].action.Erased? {
        out := out[..iter] + out[iter + 1..];
      } else {
        iter := iter + 1;
      }
      seen := seen + 1;
    }
    assert cmds[..seen] == cmds;
  }

  lemma {:induction false} RunPrefix(w: World, a: seq<Command>, b: seq<Command>, st: State, n: nat)
    requires n <= |a| && n <= |b| && a[..n] == b[..n]
    ensures RunTo(w, a, st, n) == RunTo(w, b, st, n)
  {
    if n > 0 {
      assert a[n - 1] == a[..n][n - 1] && b[n - 1] == b[..n][n - 1];
      assert a[..n - 1] == a[..n][..n - 1] && b[..n - 1] == b[..n][..n - 1];
      RunPrefix(w, a, b, st, n - 1);
    }
  }

  /** Erasing null ops does not change what a list does. */
  lemma {:induction false} RunWithOps(w: World, cmds: seq<Command>, st: State)
    ensures Run(w, WithOps(cmds), st) == Run(w, cmds, st)
  {
    if cmds != [] {
      var n := |cmds| - 1;
      RunWithOps(w, cmds[..n], st);
      RunPrefix(w, cmds, cmds[..n], st, n);
      var kept := WithOps(cmds[..n]);
      if !cmds[n].action.Erased? {
        RunPrefix(w, kept + [cmds[n]], kept, st, |kept|);
      } else {
        assert WithOps(cmds) == kept;
      }
    }
  }
}
