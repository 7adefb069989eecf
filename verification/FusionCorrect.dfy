/**
 Fusion preserves meaning: whatever the initial state, every tensor that is not the output of
 an erased member has the same value after the fused list as after the original list.
 */
module FusionCorrect {
  import opened Wrappers
  import opened Commands
  import opened FusionGraph
  import opened PostDominators
  import opened Regions
  import opened RegionSearch
  import opened Kernels
  import opened KernelMeaning
  import opened CommandGraph
  import opened SingleAssignment
  import opened OpFuse

  /** succ is the dataflow graph of cmds, and dom a sound tree over it. */
  ghost predicate IsGraph(cmds: seq<Command>, succ: Edges, dom: Parents) {
    && |succ| == |cmds| && Forward(succ) && TreeSound(succ, dom)
    && (forall p: nat, s: nat :: Edge(succ, p, s) <==> Feeds(cmds, p, s))
  }

  lemma MemberLegal(w: World, cmds: seq<Command>, succ: Edges, dom: Parents, fuseSet: seq<nat>, m: nat)
    requires IsProgram(w, cmds) && IsGraph(cmds, succ, dom) && IsFuseSet(succ, dom, cmds, fuseSet) && m in fuseSet
    ensures m < |cmds| && IsLegal(cmds[m]) && CompilableCommand(cmds[m]) && OperandsShaped(w, cmds[m])
    ensures InRegion(succ, dom, cmds, Root(fuseSet), m) && m <= Root(fuseSet)
  {
    RegionInSubtree(succ, dom, cmds, Root(fuseSet), m);
  }

  lemma FuseSetsCanGenerate(w: World, cmds: seq<Command>, succ: Edges, dom: Parents, fuseSets: seq<seq<nat>>)
    requires IsProgram(w, cmds) && IsGraph(cmds, succ, dom) && AllFuseSets(succ, dom, cmds, fuseSets)
    ensures CanGenerateAll(cmds, fuseSets)
  {
    forall i, k | 0 <= i < |fuseSets| && 0 <= k < |fuseSets[i]|
      ensures fuseSets[i][k] < |cmds| && CompilableCommand(cmds[fuseSets[i][k]])
    {
      assert fuseSets[i][k] in fuseSets[i];
      MemberLegal(w, cmds, succ, dom, fuseSets[i], fuseSets[i][k]);
    }
  }

  /** Command s of the set reads what p of the set wrote only if p has the smaller index. */
  ghost predicate SetRises(cmds: seq<Command>, topo: seq<nat>, fuseSet: seq<nat>) {
    forall p: nat, s: nat :: p in fuseSet && s in fuseSet && Feeds(cmds, p, s) ==> EdgeRises(topo, p, s)
  }

  ghost predicate EdgeRises(topo: seq<nat>, p: nat, s: nat) {
    p < |topo| && s < |topo| && topo[p] < topo[s]
  }

  /** Sorting by topo indices that rise inside the set puts producers first. */
  lemma SortedProducersFirst(w: World, cmds: seq<Command>, topo: seq<nat>, fuseSet: seq<nat>, order: seq<nat>)
    requires IsProgram(w, cmds) && SetRises(cmds, topo, fuseSet)
    requires SameNodes(order, fuseSet) && TopoSorted(order, topo) && InBounds(cmds, order)
    requires Compilable(RegionCommands(cmds, order))
    ensures ProducersFirst(RegionCommands(cmds, order))
  {
    var region := RegionCommands(cmds, order);
    forall k, j | 0 <= k <= j < |region| ensures region[j].outputs[0] !in region[k].inputs {
      var p, s := order[j], order[k];
      assert p in order && s in order && !EdgeRises(topo, p, s);
      if region[j].outputs[0] in region[k].inputs {
        ReaderIsFed(cmds, p, s, region[j].outputs[0]);
      }
    }
  }

  /** A fuse set with the kernel generated for it. */
  ghost predicate IsMade(w: World, cmds: seq<Command>, succ: Edges, dom: Parents, topo: seq<nat>, fuseSet: seq<nat>,
      g: Generated)
  {
    && IsProgram(w, cmds) && IsGraph(cmds, succ, dom)
    && IsFuseSet(succ, dom, cmds, fuseSet) && IsGenerated(w, cmds, topo, fuseSet, g)
  }

  /** And with its producers first. */
  ghost predicate IsFused(w: World, cmds: seq<Command>, succ: Edges, dom: Parents, topo: seq<nat>, fuseSet: seq<nat>,
      g: Generated)
  {
    IsMade(w, cmds, succ, dom, topo, fuseSet, g) && ProducersFirst(RegionCommands(cmds, g.order))
  }

  /** The kernel has no thread. */
  ghost predicate IsEmptySet(w: World, cmds: seq<Command>, fuseSet: seq<nat>) {
    && fuseSet != [] && Root(fuseSet) < |cmds| && |cmds[Root(fuseSet)].outputs| == 1
    && w.describe(OutputOf(cmds, Root(fuseSet))).size == 0
  }

  function OutputOf(cmds: seq<Command>, m: nat): Tensor
    requires m < |cmds| && |cmds[m].outputs| == 1
  {
    cmds[m].outputs[0]
  }

  lemma RootOutput(w: World, cmds: seq<Command>, succ: Edges, dom: Parents, fuseSet: seq<nat>)
    requires IsProgram(w, cmds) && IsGraph(cmds, succ, dom) && IsFuseSet(succ, dom, cmds, fuseSet)
    ensures Root(fuseSet) < |cmds| && |cmds[Root(fuseSet)].outputs| == 1
  {
    MemberLegal(w, cmds, succ, dom, fuseSet, Root(fuseSet));
  }

  /** Every reader of a non-root member's tensor is a member: nobody outside sees it. */
  lemma InteriorReadersInside(w: World, cmds: seq<Command>, succ: Edges, dom: Parents, fuseSet: seq<nat>, m: nat,
      s: nat, t: Tensor)
    requires IsProgram(w, cmds) && IsGraph(cmds, succ, dom) && IsFuseSet(succ, dom, cmds, fuseSet)
    requires m in fuseSet && m != Root(fuseSet) && m < |cmds| && t in cmds[m].outputs
    requires s < |cmds| && t in cmds[s].inputs
    ensures s in fuseSet && m < s
  {
    MemberLegal(w, cmds, succ, dom, fuseSet, m);
    ReaderIsFed(cmds, m, s, t);
    assert Edge(succ, m, s);
    RegionClosed(succ, dom, cmds, Root(fuseSet), m, s);
  }

  /** A non-root member's tensor is read by a member. */
  lemma InteriorIsRead(w: World, cmds: seq<Command>, succ: Edges, dom: Parents, fuseSet: seq<nat>, m: nat)
    returns (s: nat)
    requires IsProgram(w, cmds) && IsGraph(cmds, succ, dom) && IsFuseSet(succ, dom, cmds, fuseSet)
    requires m in fuseSet && m != Root(fuseSet)
    ensures m < s < |cmds| && s in fuseSet && |cmds[m].outputs| == 1 && OutputOf(cmds, m) in cmds[s].inputs
  {
    MemberLegal(w, cmds, succ, dom, fuseSet, m);
    RegionHasSuccessor(succ, dom, cmds, Root(fuseSet), m);
    s := succ[m][0];
    assert Edge(succ, m, s);
    RegionClosed(succ, dom, cmds, Root(fuseSet), m, s);
    var k :| 0 <= k < |cmds[s].inputs| && LastWriter(cmds, s, cmds[s].inputs[k]) == Some(m);
    LastWriterWrites(cmds, s, cmds[s].inputs[k]);
    assert OutputOf(cmds, m) == cmds[s].inputs[k];
  }

  lemma RegionReads(cmds: seq<Command>, fuseSet: seq<nat>, order: seq<nat>, t: Tensor)
    requires SameNodes(order, fuseSet) && InBounds(cmds, order)
    ensures Reads(RegionCommands(cmds, order), t) <==>
      exists m: nat :: m in fuseSet && m < |cmds| && t in cmds[m].inputs
  {
    var region := RegionCommands(cmds, order);
    if Reads(region, t) {
      var k :| 0 <= k < |region| && t in region[k].inputs;
      assert order[k] in order && t in cmds[order[k]].inputs;
    }
    if m: nat :| m in fuseSet && m < |cmds| && t in cmds[m].inputs {
      var k :| 0 <= k < |order| && order[k] == m;
      assert t in region[k].inputs;
    }
  }

  lemma RegionWrites(cmds: seq<Command>, fuseSet: seq<nat>, order: seq<nat>, t: Tensor)
    requires SameNodes(order, fuseSet) && InBounds(cmds, order) && Compilable(RegionCommands(cmds, order))
    ensures Writes(RegionCommands(cmds, order), t) <==>
      exists m: nat :: m in fuseSet && m < |cmds| && t in cmds[m].outputs
  {
    var region := RegionCommands(cmds, order);
    if Writes(region, t) {
      var k :| 0 <= k < |region| && t == region[k].outputs[0];
      assert order[k] in order && t in cmds[order[k]].outputs;
    }
    if m: nat :| m in fuseSet && m < |cmds| && t in cmds[m].outputs {
      var k :| 0 <= k < |order| && order[k] == m;
      assert t == region[k].outputs[0];
    }
  }

  lemma RegionOutputsDiffer(w: World, cmds: seq<Command>, order: seq<nat>)
    requires IsProgram(w, cmds) && Distinct(order) && InBounds(cmds, order) && Compilable(RegionCommands(cmds, order))
    ensures var region := RegionCommands(cmds, order);
      forall k, j :: 0 <= k < j < |region| ==> region[k].outputs[0] != region[j].outputs[0]
  {
    var region := RegionCommands(cmds, order);
    forall k, j | 0 <= k < j < |region| ensures region[k].outputs[0] != region[j].outputs[0] {
      assert order[k] != order[j];
      assert WritesTo(cmds, order[k], region[k].outputs[0]) && WritesTo(cmds, order[j], region[j].outputs[0]);
    }
  }

  /** A tensor of the region that no member reads is the root's. */
  lemma UnreadIsRoots(w: World, cmds: seq<Command>, succ: Edges, dom: Parents, fuseSet: seq<nat>, m: nat, t: Tensor)
    requires IsProgram(w, cmds) && IsGraph(cmds, succ, dom) && IsFuseSet(succ, dom, cmds, fuseSet)
    requires m in fuseSet && m < |cmds| && t in cmds[m].outputs
    requires forall s: nat :: s in fuseSet && s < |cmds| ==> t !in cmds[s].inputs
    ensures m == Root(fuseSet)
  {
    if m != Root(fuseSet) {
      var s := InteriorIsRead(w, cmds, succ, dom, fuseSet, m);
    }
  }

  /** No member reads the root's tensor. */
  lemma RootIsUnread(w: World, cmds: seq<Command>, succ: Edges, dom: Parents, fuseSet: seq<nat>, s: nat)
    requires IsProgram(w, cmds) && IsGraph(cmds, succ, dom) && IsFuseSet(succ, dom, cmds, fuseSet)
    requires s in fuseSet
    ensures s < |cmds| && Root(fuseSet) < |cmds| && |cmds[Root(fuseSet)].outputs| == 1
    ensures OutputOf(cmds, Root(fuseSet)) !in cmds[s].inputs
  {
    MemberLegal(w, cmds, succ, dom, fuseSet, s);
    RootOutput(w, cmds, succ, dom, fuseSet);
    if OutputOf(cmds, Root(fuseSet)) in cmds[s].inputs {
      ReaderIsFed(cmds, Root(fuseSet), s, OutputOf(cmds, Root(fuseSet)));
    }
  }

  lemma StoredTensor(w: World, cmds: seq<Command>, succ: Edges, dom: Parents, fuseSet: seq<nat>, region: seq<Command>,
      t: Tensor)
    requires IsProgram(w, cmds) && IsGraph(cmds, succ, dom) && IsFuseSet(succ, dom, cmds, fuseSet) && Compilable(region)
    requires Reads(region, t) <==> exists m: nat :: m in fuseSet && m < |cmds| && t in cmds[m].inputs
    requires Writes(region, t) <==> exists m: nat :: m in fuseSet && m < |cmds| && t in cmds[m].outputs
    ensures Root(fuseSet) < |cmds| && |cmds[Root(fuseSet)].outputs| == 1
    ensures Writes(region, t) && !Reads(region, t) <==> t == OutputOf(cmds, Root(fuseSet))
  {
    RootOutput(w, cmds, succ, dom, fuseSet);
    var root := Root(fuseSet);
    if Writes(region, t) && !Reads(region, t) {
      var m: nat :| m in fuseSet && m < |cmds| && t in cmds[m].outputs;
      UnreadIsRoots(w, cmds, succ, dom, fuseSet, m, t);
    }
    if t == OutputOf(cmds, root) {
      assert t in cmds[root].outputs;
      forall s: nat | s in fuseSet && s < |cmds| ensures t !in cmds[s].inputs {
        RootIsUnread(w, cmds, succ, dom, fuseSet, s);
      }
    }
  }

  lemma KernelStores(w: World, region: seq<Command>, kernel: Kernel, inputs: seq<Tensor>, outputs: seq<Tensor>,
      t: Tensor)
    requires Compilable(region) && IsKernelOf(w, region, kernel, inputs, outputs)
    ensures t in outputs <==> Writes(region, t) && !Reads(region, t)
  {
    CompileTables(w, region);
  }

  lemma FirstTwoDiffer(ts: seq<Tensor>)
    requires Distinct(ts)
    ensures |ts| > 1 ==> ts[0] != ts[1]
  {
  }

  lemma OnlyElement(ts: seq<Tensor>, x: Tensor)
    requires Distinct(ts) && forall t :: t in ts <==> t == x
    ensures ts == [x]
  {
    assert x in ts;
    assert forall i :: 0 <= i < |ts| ==> ts[i] in ts;
    FirstTwoDiffer(ts);
  }

  /** The kernel stores the root's tensor and nothing else. */
  lemma KernelStoresRoot(w: World, cmds: seq<Command>, succ: Edges, dom: Parents, topo: seq<nat>, fuseSet: seq<nat>,
      g: Generated)
    requires IsMade(w, cmds, succ, dom, topo, fuseSet, g)
    ensures Root(fuseSet) < |cmds| && |cmds[Root(fuseSet)].outputs| == 1
    ensures g.outputs == [OutputOf(cmds, Root(fuseSet))]
  {
    RootOutput(w, cmds, succ, dom, fuseSet);
    forall t ensures t in g.outputs <==> t == OutputOf(cmds, Root(fuseSet)) {
      KernelStores(w, RegionCommands(cmds, g.order), g.kernel, g.inputs, g.outputs, t);
      RegionReads(cmds, fuseSet, g.order, t);
      RegionWrites(cmds, fuseSet, g.order, t);
      StoredTensor(w, cmds, succ, dom, fuseSet, RegionCommands(cmds, g.order), t);
    }
    OnlyElement(g.outputs, OutputOf(cmds, Root(fuseSet)));
  }

  /** The kernel loads exactly the tensors that members read from outside, scalar constants excepted. */
  lemma KernelLoadsOutside(w: World, cmds: seq<Command>, succ: Edges, dom: Parents, topo: seq<nat>, fuseSet: seq<nat>,
      g: Generated, t: Tensor)
    requires IsFused(w, cmds, succ, dom, topo, fuseSet, g)
    ensures t in g.inputs <==>
      && !Inlined(w, t)
      && (exists m: nat :: m in fuseSet && m < |cmds| && t in cmds[m].inputs)
      && !(exists m: nat :: m in fuseSet && m < |cmds| && t in cmds[m].outputs)
  {
    var region := RegionCommands(cmds, g.order);
    CompileTables(w, region);
    RegionReads(cmds, fuseSet, g.order, t);
    RegionWrites(cmds, fuseSet, g.order, t);
    RegionOutputsDiffer(w, cmds, g.order);
    forall k | 0 <= k < |region| ensures !Inlined(w, region[k].outputs[0]) {
      assert WritesTo(cmds, g.order[k], region[k].outputs[0]);
    }
    LoadsOnlyOutsideIffProducersFirst(w, region, g.kernel, g.inputs, g.outputs);
    if Reads(region, t) && !Writes(region, t) {
      FirstRead(region, t);
    }
    if ReadsFirst(region, t) {
      assert Reads(region, t);
    }
  }

  /** Outputs inside a region are as large as the root's, or scalars. */
  lemma {:induction false} RegionSizes(w: World, cmds: seq<Command>, succ: Edges, dom: Parents, fuseSet: seq<nat>,
      m: nat)
    requires IsProgram(w, cmds) && IsGraph(cmds, succ, dom) && IsFuseSet(succ, dom, cmds, fuseSet) && m in fuseSet
    ensures m < |cmds| && Root(fuseSet) < |cmds| && |cmds[m].outputs| == 1 && |cmds[Root(fuseSet)].outputs| == 1
    ensures w.describe(OutputOf(cmds, m)).size == w.describe(OutputOf(cmds, Root(fuseSet))).size ||
      w.describe(OutputOf(cmds, m)).size == 1
    decreases |cmds| - m
  {
    MemberLegal(w, cmds, succ, dom, fuseSet, m);
    RootOutput(w, cmds, succ, dom, fuseSet);
    if m != Root(fuseSet) {
      var s := InteriorIsRead(w, cmds, succ, dom, fuseSet, m);
      MemberLegal(w, cmds, succ, dom, fuseSet, s);
      RegionSizes(w, cmds, succ, dom, fuseSet, s);
    }
  }

  /** In the original final state the region is settled and well shaped. */
  lemma RegionReady(w: World, cmds: seq<Command>, succ: Edges, dom: Parents, topo: seq<nat>, fuseSet: seq<nat>,
      g: Generated, st: State)
    requires IsMade(w, cmds, succ, dom, topo, fuseSet, g)
    ensures Root(fuseSet) < |cmds| && |cmds[Root(fuseSet)].outputs| == 1
    ensures Settled(w, RegionCommands(cmds, g.order), Run(w, cmds, st))
    ensures Shaped(w, RegionCommands(cmds, g.order), w.describe(OutputOf(cmds, Root(fuseSet))).size)
  {
    RootOutput(w, cmds, succ, dom, fuseSet);
    var region := RegionCommands(cmds, g.order);
    forall k | 0 <= k < |region|
      ensures SettledAt(w, region[k], Run(w, cmds, st))
      ensures ShapedAt(w, region[k], w.describe(OutputOf(cmds, Root(fuseSet))).size)
    {
      var m := g.order[k];
      assert m in g.order;
      MemberLegal(w, cmds, succ, dom, fuseSet, m);
      FinalStateSettled(w, cmds, st, m, 0);
      RegionSizes(w, cmds, succ, dom, fuseSet, m);
    }
  }

  /** One lane of a kernel whose arguments are settled. */
  lemma KernelLane(w: World, region: seq<Command>, kernel: Kernel, inputs: seq<Tensor>, fin: State, now: State,
      lanes: nat, t: Tensor, o: nat)
    requires Compilable(region) && Settled(w, region, fin) && Shaped(w, region, lanes) && WellSized(w, fin)
    requires ProducersFirst(region) && o < lanes
    requires forall k, j :: 0 <= k < j < |region| ==> region[k].outputs[0] != region[j].outputs[0]
    requires IsKernelOf(w, region, kernel, inputs, [t])
    requires forall x :: x in inputs ==> Get(now, x) == Get(fin, x)
    ensures Reg(ExecBody(w, kernel.body, Args(inputs, now), o), kernel.stores[0]) == Lane(Get(fin, t), o)
  {
    var s, ins := CompileNodes(w, region), Args(inputs, now);
    assert ArgsHold(s, ins, fin) by {
      assert forall k :: 0 <= k < |inputs| ==> inputs[k] in inputs;
    }
    CompileHolds(w, region, ins, fin, lanes, o);
    assert t in [t];
    assert kernel.stores[0] == s.varMap[t];
  }

  /** A command that runs a settled region's kernel writes the settled value of its one output. */
  lemma KernelBuffer(w: World, region: seq<Command>, cmd: Command, kernel: Kernel, fin: State, now: State, t: Tensor)
    requires Compilable(region) && Settled(w, region, fin) && Shaped(w, region, w.describe(t).size) && WellSized(w, fin)
    requires ProducersFirst(region)
    requires forall k, j :: 0 <= k < j < |region| ==> region[k].outputs[0] != region[j].outputs[0]
    requires IsKernelOf(w, region, kernel, cmd.inputs, [t])
    requires cmd.action == Fused(kernel) && cmd.outputs == [t]
    requires forall x :: x in cmd.inputs ==> Get(now, x) == Get(fin, x)
    requires |Get(fin, t)| == w.describe(t).size
    ensures OutBuffer(w, cmd, now, 0) == Get(fin, t)
  {
    var lanes := w.describe(t).size;
    forall o | 0 <= o < lanes ensures OutElement(w, cmd, now, 0, o) == Get(fin, t)[o] {
      KernelLane(w, region, kernel, cmd.inputs, fin, now, lanes, t, o);
    }
  }

  lemma RootSettled(w: World, cmds: seq<Command>, succ: Edges, dom: Parents, fuseSet: seq<nat>, st: State)
    requires IsProgram(w, cmds) && IsGraph(cmds, succ, dom) && IsFuseSet(succ, dom, cmds, fuseSet) && WellSized(w, st)
    ensures Root(fuseSet) < |cmds| && |cmds[Root(fuseSet)].outputs| == 1
    ensures WellSized(w, Run(w, cmds, st))
    ensures |Get(Run(w, cmds, st), OutputOf(cmds, Root(fuseSet)))| == w.describe(OutputOf(cmds, Root(fuseSet))).size
  {
    RootOutput(w, cmds, succ, dom, fuseSet);
    FinalStateSettled(w, cmds, st, Root(fuseSet), 0);
    RunWellSized(w, cmds, st, |cmds|);
  }

  /** Run where its inputs have their final values, the kernel gives the root's final value. */
  lemma KernelComputesRoot(w: World, cmds: seq<Command>, succ: Edges, dom: Parents, topo: seq<nat>, fuseSet: seq<nat>,
      g: Generated, st: State, cmd: Command, now: State)
    requires IsFused(w, cmds, succ, dom, topo, fuseSet, g) && WellSized(w, st)
    requires MemberReplaced(fuseSet, g, Root(fuseSet), cmd)
    requires forall t :: t in g.inputs ==> Get(now, t) == Get(Run(w, cmds, st), t)
    ensures Root(fuseSet) < |cmds| && |cmds[Root(fuseSet)].outputs| == 1
    ensures cmd.outputs == [OutputOf(cmds, Root(fuseSet))]
    ensures OutBuffer(w, cmd, now, 0) == Get(Run(w, cmds, st), OutputOf(cmds, Root(fuseSet)))
  {
    KernelStoresRoot(w, cmds, succ, dom, topo, fuseSet, g);
    RootSettled(w, cmds, succ, dom, fuseSet, st);
    RegionReady(w, cmds, succ, dom, topo, fuseSet, g, st);
    RegionOutputsDiffer(w, cmds, g.order);
    KernelBuffer(w, RegionCommands(cmds, g.order), cmd, g.kernel, Run(w, cmds, st), now, OutputOf(cmds, Root(fuseSet)));
  }

  // ---------------------------------------------------------------- the whole list

  ghost predicate IsFusedOrEmpty(w: World, cmds: seq<Command>, succ: Edges, dom: Parents, topo: seq<nat>,
      fuseSet: seq<nat>, g: Generated)
  {
    && IsMade(w, cmds, succ, dom, topo, fuseSet, g)
    && (ProducersFirst(RegionCommands(cmds, g.order)) || IsEmptySet(w, cmds, fuseSet))
  }

  ghost predicate AllFused(w: World, cmds: seq<Command>, succ: Edges, dom: Parents, topo: seq<nat>,
      fuseSets: seq<seq<nat>>, gens: seq<Generated>) {
    && IsProgram(w, cmds) && IsGraph(cmds, succ, dom) && AllFuseSets(succ, dom, cmds, fuseSets)
    && |gens| == |fuseSets|
    && (forall i :: 0 <= i < |fuseSets| ==> IsFusedOrEmpty(w, cmds, succ, dom, topo, fuseSets[i], gens[i]))
  }

  ghost predicate IsInterior(fuseSets: seq<seq<nat>>, m: nat) {
    exists i :: 0 <= i < |fuseSets| && fuseSets[i] != [] && m in fuseSets[i] && m != Root(fuseSets[i])
  }

  /** The outputs of the members that lose their op. */
  ghost predicate IsInteriorTensor(cmds: seq<Command>, fuseSets: seq<seq<nat>>, t: Tensor) {
    exists m: nat :: m < |cmds| && t in cmds[m].outputs && IsInterior(fuseSets, m)
  }

  /** A tensor read by a member of one set is not an interior tensor of another. */
  lemma OutsideTensorKept(w: World, cmds: seq<Command>, succ: Edges, dom: Parents, fuseSets: seq<seq<nat>>, s: nat,
      t: Tensor)
    requires IsProgram(w, cmds) && IsGraph(cmds, succ, dom) && AllFuseSets(succ, dom, cmds, fuseSets)
    requires s < |cmds| && t in cmds[s].inputs && IsInteriorTensor(cmds, fuseSets, t)
    ensures exists i, m: nat ::
      0 <= i < |fuseSets| && m in fuseSets[i] && s in fuseSets[i] && m < |cmds| && t in cmds[m].outputs
  {
    var m: nat :| m < |cmds| && t in cmds[m].outputs && IsInterior(fuseSets, m);
    var i :| 0 <= i < |fuseSets| && fuseSets[i] != [] && m in fuseSets[i] && m != Root(fuseSets[i]);
    InteriorReadersInside(w, cmds, succ, dom, fuseSets[i], m, s, t);
  }

  /** The tensor has its final value: a kept command among the first n wrote it, or no command writes it. */
  ghost predicate Ready(cmds: seq<Command>, fuseSets: seq<seq<nat>>, n: nat, t: Tensor) {
    Written(cmds, 0, n, t) && !IsInteriorTensor(cmds, fuseSets, t)
  }

  ghost predicate Agrees(w: World, cmds: seq<Command>, fuseSets: seq<seq<nat>>, st: State, now: State, n: nat) {
    forall t :: (Ready(cmds, fuseSets, n, t) || !Written(cmds, 0, |cmds|, t)) ==>
      Get(now, t) == Get(Run(w, cmds, st), t)
  }

  /** What command n reads has its final value, unless n is a member that reads inside its region. */
  lemma ReadsAgree(w: World, cmds: seq<Command>, fuseSets: seq<seq<nat>>, st: State, now: State, n: nat, s: nat,
      t: Tensor)
    requires IsProgram(w, cmds) && s <= n < |cmds| && Agrees(w, cmds, fuseSets, st, now, n)
    requires t in cmds[s].inputs && !IsInteriorTensor(cmds, fuseSets, t)
    ensures Get(now, t) == Get(Run(w, cmds, st), t)
  {
    if Written(cmds, 0, |cmds|, t) {
      var p: nat :| 0 <= p < |cmds| && WritesTo(cmds, p, t);
      ReaderIsFed(cmds, p, s, t);
      assert Written(cmds, 0, n, t);
    }
  }

  lemma PlainStepAgrees(w: World, cmds: seq<Command>, succ: Edges, dom: Parents, topo: seq<nat>,
      fuseSets: seq<seq<nat>>, gens: seq<Generated>, st: State, now: State, n: nat, t: Tensor)
    requires AllFused(w, cmds, succ, dom, topo, fuseSets, gens) && n < |cmds| && Agrees(w, cmds, fuseSets, st, now, n)
    requires !IsMember(fuseSets, n) && t in cmds[n].outputs
    ensures Get(Step(w, cmds[n], now), t) == Get(Run(w, cmds, st), t)
  {
    forall x | x in cmds[n].inputs ensures Get(now, x) == Get(Run(w, cmds, st), x) {
      if IsInteriorTensor(cmds, fuseSets, x) {
        OutsideTensorKept(w, cmds, succ, dom, fuseSets, n, x);
      }
      ReadsAgree(w, cmds, fuseSets, st, now, n, n, x);
    }
    var k := IndexOf(cmds[n].outputs, t);
    StepGet(w, cmds[n], now, t);
    FinalStateSettled(w, cmds, st, n, k);
    OutBufferDepends(w, cmds[n], now, Run(w, cmds, st), k);
  }

  lemma LoadedIsOutside(w: World, cmds: seq<Command>, succ: Edges, dom: Parents, topo: seq<nat>,
      fuseSets: seq<seq<nat>>, gens: seq<Generated>, i: nat, t: Tensor) returns (s: nat)
    requires AllFused(w, cmds, succ, dom, topo, fuseSets, gens) && i < |fuseSets| && t in gens[i].inputs
    requires IsFused(w, cmds, succ, dom, topo, fuseSets[i], gens[i])
    ensures s in fuseSets[i] && s < |cmds| && t in cmds[s].inputs
    ensures !IsInteriorTensor(cmds, fuseSets, t)
  {
    KernelLoadsOutside(w, cmds, succ, dom, topo, fuseSets[i], gens[i], t);
    s :| s in fuseSets[i] && s < |cmds| && t in cmds[s].inputs;
    if IsInteriorTensor(cmds, fuseSets, t) {
      OutsideTensorKept(w, cmds, succ, dom, fuseSets, s, t);
      var j, m: nat :| 0 <= j < |fuseSets| && m in fuseSets[j] && s in fuseSets[j] && m < |cmds| &&
        t in cmds[m].outputs;
      SetOfMemberUnique(fuseSets, i, j, s);
    }
  }

  lemma NotInBoth(fuseSets: seq<seq<nat>>, i: nat, j: nat, m: nat)
    requires PairwiseDisjoint(fuseSets) && i < |fuseSets| && j < |fuseSets| && m in fuseSets[i]
    ensures i < j ==> m !in fuseSets[j]
  {
    if i < j {
      assert Disjoint(fuseSets[i], fuseSets[j]);
    }
  }

  lemma SetOfMemberUnique(fuseSets: seq<seq<nat>>, i: nat, j: nat, m: nat)
    requires PairwiseDisjoint(fuseSets) && i < |fuseSets| && j < |fuseSets| && m in fuseSets[i] && m in fuseSets[j]
    ensures i == j
  {
    NotInBoth(fuseSets, i, j, m);
    NotInBoth(fuseSets, j, i, m);
  }

  lemma RootStepAgrees(w: World, cmds: seq<Command>, succ: Edges, dom: Parents, topo: seq<nat>, fuseSets: seq<seq<nat>>,
      gens: seq<Generated>, st: State, now: State, n: nat, i: nat, cmd: Command)
    requires AllFused(w, cmds, succ, dom, topo, fuseSets, gens) && WellSized(w, st)
    requires n < |cmds| && Agrees(w, cmds, fuseSets, st, now, n) && i < |fuseSets| && fuseSets[i] != []
    requires n == Root(fuseSets[i]) && MemberReplaced(fuseSets[i], gens[i], n, cmd)
    ensures |cmds[n].outputs| == 1 && cmd.outputs == [OutputOf(cmds, n)]
    ensures Get(Step(w, cmd, now), OutputOf(cmds, n)) == Get(Run(w, cmds, st), OutputOf(cmds, n))
  {
    assert IsFusedOrEmpty(w, cmds, succ, dom, topo, fuseSets[i], gens[i]);
    KernelStoresRoot(w, cmds, succ, dom, topo, fuseSets[i], gens[i]);
    StepGet(w, cmd, now, OutputOf(cmds, n));
    if ProducersFirst(RegionCommands(cmds, gens[i].order)) {
      forall t | t in gens[i].inputs ensures Get(now, t) == Get(Run(w, cmds, st), t) {
        var s := LoadedIsOutside(w, cmds, succ, dom, topo, fuseSets, gens, i, t);
        MemberLegal(w, cmds, succ, dom, fuseSets[i], s);
        ReadsAgree(w, cmds, fuseSets, st, now, n, s, t);
      }
      KernelComputesRoot(w, cmds, succ, dom, topo, fuseSets[i], gens[i], st, cmd, now);
    } else {
      RootSettled(w, cmds, succ, dom, fuseSets[i], st);
    }
  }

  /**
   Command n of the rewritten list writes the final value of every kept tensor that command n wrote, and nothing else.
   */
  ghost predicate StepWrites(w: World, cmds: seq<Command>, fuseSets: seq<seq<nat>>, st: State, now: State, n: nat,
      cmd: Command)
    requires n < |cmds|
  {
    forall t ::
      && (t in cmds[n].outputs && !IsInteriorTensor(cmds, fuseSets, t) ==>
            Get(Step(w, cmd, now), t) == Get(Run(w, cmds, st), t))
      && (t !in cmds[n].outputs ==> Get(Step(w, cmd, now), t) == Get(now, t))
  }

  lemma AgreementStep(w: World, cmds: seq<Command>, fuseSets: seq<seq<nat>>, st: State, now: State, n: nat,
      cmd: Command)
    requires n < |cmds| && Agrees(w, cmds, fuseSets, st, now, n) && StepWrites(w, cmds, fuseSets, st, now, n, cmd)
    ensures Agrees(w, cmds, fuseSets, st, Step(w, cmd, now), n + 1)
  {
    forall t | Ready(cmds, fuseSets, n + 1, t) || !Written(cmds, 0, |cmds|, t)
      ensures Get(Step(w, cmd, now), t) == Get(Run(w, cmds, st), t)
    {
      if t in cmds[n].outputs {
        assert WritesTo(cmds, n, t);
      } else if Ready(cmds, fuseSets, n + 1, t) {
        var i: nat :| 0 <= i < n + 1 && WritesTo(cmds, i, t);
        assert Written(cmds, 0, n, t);
      }
    }
  }

  /** What holds at first and after every step holds after the run. */
  lemma {:induction false} RunInvariant(w: World, cmds: seq<Command>, st: State, good: (State, nat) -> bool, n: nat)
    requires good(st, 0) && n <= |cmds|
    requires forall now: State, k: nat :: k < |cmds| && good(now, k) ==> good(Step(w, cmds[k], now), k + 1)
    ensures good(RunTo(w, cmds, st, n), n)
  {
    if n > 0 {
      RunInvariant(w, cmds, st, good, n - 1);
    }
  }

  lemma InitiallyAgrees(w: World, cmds: seq<Command>, fuseSets: seq<seq<nat>>, st: State)
    requires IsProgram(w, cmds)
    ensures Agrees(w, cmds, fuseSets, st, st, 0)
  {
    forall t | !Written(cmds, 0, |cmds|, t) ensures Get(st, t) == Get(Run(w, cmds, st), t) {
      RunStable(w, cmds, st, 0, |cmds|, t);
    }
  }

  lemma InteriorStepWrites(w: World, cmds: seq<Command>, fuseSets: seq<seq<nat>>, st: State, now: State, n: nat,
      cmd: Command)
    requires n < |cmds| && IsInterior(fuseSets, n) && cmd.action.Erased?
    ensures StepWrites(w, cmds, fuseSets, st, now, n, cmd)
  {
    forall t | t in cmds[n].outputs ensures IsInteriorTensor(cmds, fuseSets, t) {
    }
  }

  lemma PlainStepWrites(w: World, cmds: seq<Command>, succ: Edges, dom: Parents, topo: seq<nat>,
      fuseSets: seq<seq<nat>>, gens: seq<Generated>, st: State, now: State, n: nat)
    requires AllFused(w, cmds, succ, dom, topo, fuseSets, gens) && n < |cmds| && Agrees(w, cmds, fuseSets, st, now, n)
    requires !IsMember(fuseSets, n)
    ensures StepWrites(w, cmds, fuseSets, st, now, n, cmds[n])
  {
    forall t | t in cmds[n].outputs ensures Get(Step(w, cmds[n], now), t) == Get(Run(w, cmds, st), t) {
      PlainStepAgrees(w, cmds, succ, dom, topo, fuseSets, gens, st, now, n, t);
    }
    forall t | t !in cmds[n].outputs ensures Get(Step(w, cmds[n], now), t) == Get(now, t) {
      StepGet(w, cmds[n], now, t);
    }
  }

  lemma RootStepWrites(w: World, cmds: seq<Command>, succ: Edges, dom: Parents, topo: seq<nat>, fuseSets: seq<seq<nat>>,
      gens: seq<Generated>, st: State, now: State, n: nat, i: nat, cmd: Command)
    requires AllFused(w, cmds, succ, dom, topo, fuseSets, gens) && WellSized(w, st)
    requires n < |cmds| && Agrees(w, cmds, fuseSets, st, now, n) && i < |fuseSets| && fuseSets[i] != []
    requires n == Root(fuseSets[i]) && MemberReplaced(fuseSets[i], gens[i], n, cmd)
    ensures StepWrites(w, cmds, fuseSets, st, now, n, cmd)
  {
    RootStepAgrees(w, cmds, succ, dom, topo, fuseSets, gens, st, now, n, i, cmd);
    forall t | t !in cmds[n].outputs ensures Get(Step(w, cmd, now), t) == Get(now, t) {
      StepGet(w, cmd, now, t);
    }
  }

  lemma ReplacedStepWrites(w: World, cmds: seq<Command>, succ: Edges, dom: Parents, topo: seq<nat>,
      fuseSets: seq<seq<nat>>, gens: seq<Generated>, out: seq<Command>, st: State, now: State, n: nat)
    requires AllFused(w, cmds, succ, dom, topo, fuseSets, gens) && IsReplaced(cmds, fuseSets, gens, out)
    requires WellSized(w, st) && n < |cmds| && Agrees(w, cmds, fuseSets, st, now, n)
    ensures StepWrites(w, cmds, fuseSets, st, now, n, out[n])
  {
    if IsMember(fuseSets, n) {
      var i :| 0 <= i < |fuseSets| && n in fuseSets[i];
      assert MemberReplaced(fuseSets[i], gens[i], n, out[n]);
      if n == Root(fuseSets[i]) {
        RootStepWrites(w, cmds, succ, dom, topo, fuseSets, gens, st, now, n, i, out[n]);
      } else {
        assert IsInterior(fuseSets, n);
        InteriorStepWrites(w, cmds, fuseSets, st, now, n, out[n]);
      }
    } else {
      PlainStepWrites(w, cmds, succ, dom, topo, fuseSets, gens, st, now, n);
    }
  }

  lemma ReplacedStepAgrees(w: World, cmds: seq<Command>, succ: Edges, dom: Parents, topo: seq<nat>,
      fuseSets: seq<seq<nat>>, gens: seq<Generated>, out: seq<Command>, st: State, now: State, n: nat)
    requires AllFused(w, cmds, succ, dom, topo, fuseSets, gens) && IsReplaced(cmds, fuseSets, gens, out)
    requires WellSized(w, st) && n < |cmds| && Agrees(w, cmds, fuseSets, st, now, n)
    ensures Agrees(w, cmds, fuseSets, st, Step(w, out[n], now), n + 1)
  {
    ReplacedStepWrites(w, cmds, succ, dom, topo, fuseSets, gens, out, st, now, n);
    AgreementStep(w, cmds, fuseSets, st, now, n, out[n]);
  }

  /** All regions replaced at once and null ops erased, the list computes the same kept tensors. */
  lemma FusionPreservesMeaning(w: World, cmds: seq<Command>, succ: Edges, dom: Parents, topo: seq<nat>,
      fuseSets: seq<seq<nat>>, gens: seq<Generated>, out: seq<Command>, st: State, t: Tensor)
    requires AllFused(w, cmds, succ, dom, topo, fuseSets, gens) && IsReplaced(cmds, fuseSets, gens, out)
    requires WellSized(w, st) && !IsInteriorTensor(cmds, fuseSets, t)
    ensures Get(Run(w, WithOps(out), st), t) == Get(Run(w, cmds, st), t)
  {
    var good := (now: State, n: nat) => Agrees(w, cmds, fuseSets, st, now, n);
    InitiallyAgrees(w, cmds, fuseSets, st);
    forall now: State, n: nat | n < |out| && good(now, n) ensures good(Step(w, out[n], now), n + 1) {
      ReplacedStepAgrees(w, cmds, succ, dom, topo, fuseSets, gens, out, st, now, n);
    }
    RunInvariant(w, out, st, good, |out|);
    RunWithOps(w, out, st);
  }

  // ---------------------------------------------------------------- the pass

  /** Topo indices rise strictly from a writer to its readers. */
  ghost predicate TopoIncreases(cmds: seq<Command>, topo: seq<nat>) {
    |topo| == |cmds| && forall p: nat, s: nat :: p < |cmds| && Feeds(cmds, p, s) ==> topo[p] < topo[s]
  }

  /** They do between commands that may be fused. */
  ghost predicate LegalEdgesRise(cmds: seq<Command>, topo: seq<nat>) {
    |topo| == |cmds| &&
    forall p: nat, s: nat :: p < |cmds| && Feeds(cmds, p, s) && IsLegal(cmds[p]) && IsLegal(cmds[s]) ==>
      topo[p] < topo[s]
  }

  /** In every set whose kernel has a thread, indices rise from a member to its readers. */
  ghost predicate SetsRise(w: World, cmds: seq<Command>, topo: seq<nat>, fuseSets: seq<seq<nat>>) {
    forall i :: 0 <= i < |fuseSets| ==> SetRises(cmds, topo, fuseSets[i]) || IsEmptySet(w, cmds, fuseSets[i])
  }

  lemma LegalEdgesRiseInSets(w: World, cmds: seq<Command>, succ: Edges, dom: Parents, topo: seq<nat>,
      fuseSets: seq<seq<nat>>)
    requires IsProgram(w, cmds) && IsGraph(cmds, succ, dom) && AllFuseSets(succ, dom, cmds, fuseSets)
    requires LegalEdgesRise(cmds, topo)
    ensures SetsRise(w, cmds, topo, fuseSets)
  {
    forall i | 0 <= i < |fuseSets| ensures SetRises(cmds, topo, fuseSets[i]) {
      forall p: nat, s: nat | p in fuseSets[i] && s in fuseSets[i] && Feeds(cmds, p, s) ensures EdgeRises(topo, p, s) {
        MemberLegal(w, cmds, succ, dom, fuseSets[i], p);
        MemberLegal(w, cmds, succ, dom, fuseSets[i], s);
      }
    }
  }

  /** What the pass found and made on the way. */
  datatype Fusion = Fusion(succ: Edges, dom: Parents, fuseSets: seq<seq<nat>>, gens: seq<Generated>,
    replaced: seq<Command>)

  /** Every region that there is has been found, and nothing else is replaced. */
  ghost predicate IsFusionOf(w: World, cmds: seq<Command>, topo: seq<nat>, f: Fusion, out: seq<Command>) {
    && IsGraph(cmds, f.succ, f.dom) && AllFuseSets(f.succ, f.dom, cmds, f.fuseSets)
    && (forall p: nat :: p < |cmds| ==> f.succ[p] == Readers(cmds, p, |cmds|))
    && (forall r: nat :: HasRoot(f.fuseSets, r) <==>
          IsSearched(f.succ, f.dom, cmds, r) && Fusable(f.succ, f.dom, cmds, r))
    && AllGenerated(w, cmds, topo, f.fuseSets, f.gens) && IsReplaced(cmds, f.fuseSets, f.gens, f.replaced)
    && out == WithOps(f.replaced)
  }

  /** Tensors that are not interior to a region end up as before, whatever the state. */
  ghost predicate KeepsMeaning(w: World, cmds: seq<Command>, fuseSets: seq<seq<nat>>, out: seq<Command>) {
    forall st: State, t: Tensor :: WellSized(w, st) && !IsInteriorTensor(cmds, fuseSets, t) ==>
      Get(Run(w, out, st), t) == Get(Run(w, cmds, st), t)
  }

  /** Graph, tree and regions. */
  method FindRegions(w: World, cmds: seq<Command>, topo: seq<nat>)
    returns (ghost succ: Edges, ghost dom: Parents, sets: seq<seq<nat>>)
    requires IsProgram(w, cmds) && |topo| == |cmds|
    ensures IsGraph(cmds, succ, dom) && AllFuseSets(succ, dom, cmds, sets) && CanGenerateAll(cmds, sets)
    ensures forall p: nat :: p < |cmds| ==> succ[p] == Readers(cmds, p, |cmds|)
    ensures forall r: nat :: HasRoot(sets, r) <==> IsSearched(succ, dom, cmds, r) && Fusable(succ, dom, cmds, r)
    ensures forall i: nat :: i < |cmds| ==> MeetsAt(succ, topo, dom, i)
    ensures TopoIncreases(cmds, topo) ==> TreeExact(succ, dom)
  {
    var edges, pred := BuildGraph(cmds);
    if TopoIncreases(cmds, topo) {
      EdgesIncrease(cmds, topo, edges);
    }
    var tree, children, roots := BuildTree(edges, topo);
    sets := SearchRegions(edges, tree, children, roots, cmds);
    succ, dom := edges, tree;
    FuseSetsCanGenerate(w, cmds, succ, dom, sets);
  }

  /**
   The whole pass, for any indices. The graph is exact and every region is found; the tree is that of the immediate
   post-dominators if indices rise along all edges; and the list keeps its meaning if they rise inside the regions.
   */
  method FuseOps(w: World, cmds: seq<Command>, topo: seq<nat>) returns (out: seq<Command>, ghost f: Fusion)
    requires IsProgram(w, cmds) && |topo| == |cmds|
    ensures IsFusionOf(w, cmds, topo, f, out)
    ensures forall i: nat :: i < |cmds| ==> MeetsAt(f.succ, topo, f.dom, i)
    ensures TopoIncreases(cmds, topo) ==> TreeExact(f.succ, f.dom)
    ensures SetsRise(w, cmds, topo, f.fuseSets) || LegalEdgesRise(cmds, topo) ==> KeepsMeaning(w, cmds, f.fuseSets, out)
    ensures |out| <= |cmds| && forall k :: 0 <= k < |out| ==> !out[k].action.Erased?
  {
    ghost var succ, dom;
    var sets;
    succ, dom, sets := FindRegions(w, cmds, topo);
    var replaced, gens := Codegen(w, cmds, topo, sets);
    out := EraseNullOps(replaced);
    f := Fusion(succ, dom, sets, gens, replaced);
    WithOpsFacts(replaced);
    FusionKeepsMeaning(w, cmds, topo, succ, dom, sets, gens, replaced);
  }

  lemma EdgesIncrease(cmds: seq<Command>, topo: seq<nat>, succ: Edges)
    requires TopoIncreases(cmds, topo) && |succ| == |cmds|
    requires forall p: nat, s: nat :: Edge(succ, p, s) <==> Feeds(cmds, p, s)
    ensures forall i, j :: 0 <= i < |succ| && 0 <= j < |succ[i]| && succ[i][j] < |succ| ==> topo[i] < topo[succ[i][j]]
  {
    forall i, j | 0 <= i < |succ| && 0 <= j < |succ[i]| && succ[i][j] < |succ| ensures topo[i] < topo[succ[i][j]] {
      assert Edge(succ, i, succ[i][j]);
    }
  }

  lemma FusionKeepsMeaning(w: World, cmds: seq<Command>, topo: seq<nat>, succ: Edges, dom: Parents,
      fuseSets: seq<seq<nat>>, gens: seq<Generated>, replaced: seq<Command>)
    requires IsProgram(w, cmds) && IsGraph(cmds, succ, dom) && |topo| == |cmds|
    requires AllFuseSets(succ, dom, cmds, fuseSets)
    requires AllGenerated(w, cmds, topo, fuseSets, gens) && IsReplaced(cmds, fuseSets, gens, replaced)
    ensures SetsRise(w, cmds, topo, fuseSets) || LegalEdgesRise(cmds, topo) ==>
      KeepsMeaning(w, cmds, fuseSets, WithOps(replaced))
  {
    if LegalEdgesRise(cmds, topo) {
      LegalEdgesRiseInSets(w, cmds, succ, dom, topo, fuseSets);
    }
    if SetsRise(w, cmds, topo, fuseSets) {
      FusedListPreserves(w, cmds, topo, succ, dom, fuseSets, gens, replaced);
    }
  }

  /** All states and tensors at once. */
  lemma FusedListPreserves(w: World, cmds: seq<Command>, topo: seq<nat>, succ: Edges, dom: Parents,
      fuseSets: seq<seq<nat>>, gens: seq<Generated>, replaced: seq<Command>)
    requires IsProgram(w, cmds) && IsGraph(cmds, succ, dom) && |topo| == |cmds|
    requires AllFuseSets(succ, dom, cmds, fuseSets) && SetsRise(w, cmds, topo, fuseSets)
    requires AllGenerated(w, cmds, topo, fuseSets, gens) && IsReplaced(cmds, fuseSets, gens, replaced)
    ensures KeepsMeaning(w, cmds, fuseSets, WithOps(replaced))
  {
    forall i | 0 <= i < |fuseSets| ensures IsFusedOrEmpty(w, cmds, succ, dom, topo, fuseSets[i], gens[i]) {
      assert IsGenerated(w, cmds, topo, fuseSets[i], gens[i]);
      if SetRises(cmds, topo, fuseSets[i]) {
        SortedProducersFirst(w, cmds, topo, fuseSets[i], gens[i].order);
      }
    }
    forall st: State, t: Tensor | WellSized(w, st) && !IsInteriorTensor(cmds, fuseSets, t)
      ensures Get(Run(w, WithOps(replaced), st), t) == Get(Run(w, cmds, st), t)
    {
      FusionPreservesMeaning(w, cmds, succ, dom, topo, fuseSets, gens, replaced, st, t);
    }
  }

  lemma {:induction false} WithOpsFacts(cmds: seq<Command>)
    ensures |WithOps(cmds)| <= |cmds|
    ensures forall k :: 0 <= k < |WithOps(cmds)| ==> !WithOps(cmds)[k].action.Erased?
  {
    if cmds != [] {
      WithOpsFacts(cmds[..|cmds| - 1]);
    }
  }
}
