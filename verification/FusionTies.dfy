/**
 Equal topo indices (codegen/OpFuse.cpp:440, codegen/SourceModule.cpp:93): fusion is right for every order that the
 sort may give and for all operators exactly if indices rise from writer to reader inside every region.
 */
module FusionTies {
  import opened Wrappers
  import opened Commands
  import opened FusionGraph
  import opened PostDominators
  import opened Regions
  import opened RegionSearch
  import opened Kernels
  import opened KernelMeaning
  import opened CommandGraph
  import opened SingleAssignment
  import opened OpFuse
  import opened FusionCorrect

  // ---------------------------------------------------------------- sorted orders

  lemma {:induction false} SortExists(nodes: set<nat>, key: seq<nat>) returns (order: seq<nat>)
    requires forall c: nat :: c in nodes ==> c < |key|
    ensures Distinct(order) && TopoSorted(order, key) && forall c: nat :: c in order <==> c in nodes
    decreases nodes
  {
    if nodes == {} {
      order := [];
    } else {
      MinimumExists(nodes, key);
      var m: nat :| IsMinimum(nodes, key, m);
      var rest := SortExists(nodes - {m}, key);
      order := [m] + rest;
      DistinctConcat([m], rest);
      forall i, j | 0 <= i < j < |order| && order[i] < |key| && order[j] < |key|
        ensures key[order[i]] <= key[order[j]]
      {
        assert order[j] in rest;
        assert i > 0 ==> order[i] in rest;
      }
    }
  }

  ghost predicate Before(order: seq<nat>, x: nat, y: nat) {
    exists i, j :: 0 <= i < j < |order| && order[i] == x && order[j] == y
  }

  /** A node comes first among those with its index. */
  lemma OrderWith(nodes: seq<nat>, topo: seq<nat>, p: nat, s: nat) returns (order: seq<nat>)
    requires forall c: nat :: c in nodes ==> c < |topo|
    requires p in nodes && s in nodes && p != s && topo[s] <= topo[p]
    ensures SameNodes(order, nodes) && TopoSorted(order, topo) && Before(order, s, p)
  {
    var key: seq<nat> := seq(|topo|, c requires 0 <= c < |topo| => 2 * topo[c] + if c == s then 0 else 1);
    order := SortExists((set c | c in nodes), key);
    forall i, j | 0 <= i < j < |order| && order[i] < |topo| && order[j] < |topo|
      ensures topo[order[i]] <= topo[order[j]]
    {
      assert key[order[i]] <= key[order[j]];
    }
    assert s in order && p in order;
    var i :| 0 <= i < |order| && order[i] == s;
    var j :| 0 <= j < |order| && order[j] == p;
    assert key[s] < key[p];
  }

  /** Every order that the sort may give puts producers first. */
  ghost predicate AlwaysProducersFirst(cmds: seq<Command>, topo: seq<nat>, fuseSet: seq<nat>)
    requires CanGenerate(cmds, fuseSet)
  {
    forall order: seq<nat> :: SameNodes(order, fuseSet) && TopoSorted(order, topo) ==> PutsProducersFirst(cmds, order)
  }

  ghost predicate PutsProducersFirst(cmds: seq<Command>, order: seq<nat>) {
    InBounds(cmds, order) && Compilable(RegionCommands(cmds, order)) && ProducersFirst(RegionCommands(cmds, order))
  }

  lemma OrderCompiles(cmds: seq<Command>, fuseSet: seq<nat>, order: seq<nat>)
    requires CanGenerate(cmds, fuseSet) && SameNodes(order, fuseSet)
    ensures InBounds(cmds, order) && Compilable(RegionCommands(cmds, order))
  {
    forall k | 0 <= k < |order| ensures order[k] < |cmds| && CompilableCommand(cmds[order[k]]) {
      assert order[k] in order;
    }
  }

  /** It does exactly if indices rise from every member to the members that read it. */
  lemma ProducersFirstIffRises(w: World, cmds: seq<Command>, topo: seq<nat>, fuseSet: seq<nat>)
    requires IsProgram(w, cmds) && |topo| == |cmds| && CanGenerate(cmds, fuseSet)
    ensures AlwaysProducersFirst(cmds, topo, fuseSet) <==> SetRises(cmds, topo, fuseSet)
  {
    if SetRises(cmds, topo, fuseSet) {
      forall order: seq<nat> | SameNodes(order, fuseSet) && TopoSorted(order, topo)
        ensures PutsProducersFirst(cmds, order)
      {
        OrderCompiles(cmds, fuseSet, order);
        SortedProducersFirst(w, cmds, topo, fuseSet, order);
      }
    }
    if AlwaysProducersFirst(cmds, topo, fuseSet) {
      forall p: nat, s: nat | p in fuseSet && s in fuseSet && Feeds(cmds, p, s) ensures EdgeRises(topo, p, s) {
        if !EdgeRises(topo, p, s) {
          var order := OrderWith(fuseSet, topo, p, s);
          OrderCompiles(cmds, fuseSet, order);
          ConsumerFirst(cmds, order, p, s);
        }
      }
    }
  }

  lemma ConsumerFirst(cmds: seq<Command>, order: seq<nat>, p: nat, s: nat)
    requires InBounds(cmds, order) && Compilable(RegionCommands(cmds, order))
    requires Feeds(cmds, p, s) && Before(order, s, p)
    ensures !ProducersFirst(RegionCommands(cmds, order))
  {
    var t := FedTensor(cmds, p, s);
    var i, j :| 0 <= i < j < |order| && order[i] == s && order[j] == p;
    var region := RegionCommands(cmds, order);
    assert region[j].outputs[0] == t && t in region[i].inputs;
  }

  /** What s reads from p. */
  lemma FedTensor(cmds: seq<Command>, p: nat, s: nat) returns (t: Tensor)
    requires Feeds(cmds, p, s)
    ensures p < s < |cmds| && t in cmds[p].outputs && t in cmds[s].inputs
  {
    var k :| 0 <= k < |cmds[s].inputs| && LastWriter(cmds, s, cmds[s].inputs[k]) == Some(p);
    t := cmds[s].inputs[k];
    LastWriterWrites(cmds, s, t);
  }

  // ---------------------------------------------------------------- operators that pass a mark on

  predicate Mentioned(cmds: seq<Command>, t: Tensor) {
    exists k :: 0 <= k < |cmds| && (t in cmds[k].inputs || t in cmds[k].outputs)
  }

  /** The same tensors as far as the commands are concerned; elementwise operators give m exactly if they read m. */
  ghost function Marking(w: World, cmds: seq<Command>, m: Scalar): World {
    World(
      (t: Tensor) => if Mentioned(cmds, t) then w.describe(t) else Describe(1, false, 0.0),
      (op: Op, args: seq<Scalar>) => if m in args then m else 0.0,
      (op: Op, buffers: seq<Buffer>, k: nat, o: nat) => 0.0)
  }

  ghost predicate SameTensors(w: World, w': World, cmds: seq<Command>) {
    forall t :: Mentioned(cmds, t) ==> w'.describe(t) == w.describe(t)
  }

  lemma StillProgram(w: World, w': World, cmds: seq<Command>)
    requires IsProgram(w, cmds) && SameTensors(w, w', cmds)
    ensures IsProgram(w', cmds)
  {
    forall i | 0 <= i < |cmds| && IsLegal(cmds[i]) ensures |cmds[i].outputs| == 1 && OperandsShaped(w', cmds[i]) {
      assert cmds[i].outputs[0] in cmds[i].outputs && Mentioned(cmds, cmds[i].outputs[0]);
      forall t | t in cmds[i].inputs ensures Mentioned(cmds, t) {
      }
    }
    forall i: nat, t | WritesTo(cmds, i, t) ensures !w'.describe(t).constant {
      assert Mentioned(cmds, t);
    }
  }

  /** No constant among the tensors has the value m. */
  ghost predicate IsMark(w: World, tensors: set<Tensor>, m: Scalar) {
    m > 0.0 && forall t :: t in tensors ==> w.describe(t).value < m
  }

  lemma {:induction false} MarkExists(w: World, tensors: set<Tensor>) returns (m: Scalar)
    ensures IsMark(w, tensors, m)
    decreases tensors
  {
    if tensors == {} {
      m := 1.0;
    } else {
      var t :| t in tensors;
      m := MarkExists(w, tensors - {t});
      if m <= w.describe(t).value {
        m := w.describe(t).value + 1.0;
      }
    }
  }

  ghost predicate Clean(v: Buffer, m: Scalar) {
    forall o :: 0 <= o < |v| ==> v[o] != m
  }

  /** Unless a tensor that nothing writes holds the mark, nothing computed does. */
  lemma {:induction false} NeverMarked(w0: World, cmds: seq<Command>, st: State, m: Scalar, i: nat, k: nat)
    requires var w := Marking(w0, cmds, m); IsProgram(w, cmds) && m > 0.0 && i < |cmds| && k < |cmds[i].outputs|
    requires forall t :: !Written(cmds, 0, |cmds|, t) ==> Clean(Get(st, t), m)
    ensures Clean(Get(Run(Marking(w0, cmds, m), cmds, st), cmds[i].outputs[k]), m)
    decreases i
  {
    var w := Marking(w0, cmds, m);
    var fin := Run(w, cmds, st);
    FinalStateSettled(w, cmds, st, i, k);
    forall x | x in cmds[i].inputs ensures Clean(Get(fin, x), m) {
      if Written(cmds, 0, |cmds|, x) {
        var p: nat :| 0 <= p < |cmds| && WritesTo(cmds, p, x);
        ReaderIsFed(cmds, p, i, x);
        var j :| 0 <= j < |cmds[p].outputs| && cmds[p].outputs[j] == x;
        NeverMarked(w0, cmds, st, m, p, j);
      } else {
        RunStable(w, cmds, st, 0, |cmds|, x);
      }
    }
    CleanOutput(w0, cmds, cmds[i], fin, m, k);
  }

  lemma CleanOutput(w0: World, cmds: seq<Command>, cmd: Command, fin: State, m: Scalar, k: nat)
    requires cmd.action.Plain? && k < |cmd.outputs| && m > 0.0 && forall x :: x in cmd.inputs ==> Clean(Get(fin, x), m)
    ensures Clean(OutBuffer(Marking(w0, cmds, m), cmd, fin, k), m)
  {
    var w := Marking(w0, cmds, m);
    forall o: nat ensures OutElement(w, cmd, fin, k, o) != m {
      var args := LaneArgs(cmd.inputs, fin, o);
      forall n | 0 <= n < |args| ensures args[n] != m {
        assert cmd.inputs[n] in cmd.inputs;
      }
    }
  }

  // ---------------------------------------------------------------- the mark in a kernel

  /** Registers of hot tensors hold the mark. */
  ghost predicate HotHeld(s: Scope, r: Registers, hot: set<Tensor>, m: Scalar) {
    forall t :: t in s.varMap ==>
      s.varMap[t] < s.varIdx && s.varMap[t] in r && (t in hot ==> r[s.varMap[t]] == m)
  }

  /** Arguments for hot tensors start with it. */
  ghost predicate HotArgs(s: Scope, ins: seq<Buffer>, hot: set<Tensor>, m: Scalar) {
    |s.inputs| <= |ins| && forall k :: 0 <= k < |s.inputs| && s.inputs[k] in hot ==> Cell(ins[k], 0) == m
  }

  lemma ReadOperandHot(w: World, t: Tensor, s: Scope, ins: seq<Buffer>, hot: set<Tensor>, m: Scalar)
    requires HotHeld(s, ExecBody(w, s.body, ins, 0), hot, m) && HotArgs(ReadOperand(w, t, s), ins, hot, m)
    requires t in hot ==> !Inlined(w, t)
    ensures HotHeld(ReadOperand(w, t, s), ExecBody(w, ReadOperand(w, t, s).body, ins, 0), hot, m)
  {
    if t !in s.varMap {
      var s', r := ReadOperand(w, t, s), ExecBody(w, s.body, ins, 0);
      assert s'.body[..|s'.body| - 1] == s.body;
      if !Inlined(w, t) {
        assert s'.inputs[|s.inputs|] == t;
      }
      assert ExecBody(w, s'.body, ins, 0) == ExecInstr(w, LoadInstr(w, t, s.varIdx, |s.inputs|), ins, 0, r);
    }
  }

  lemma {:induction false} ReadOperandsHot(w: World, ts: seq<Tensor>, s: Scope, ins: seq<Buffer>, hot: set<Tensor>,
      m: Scalar)
    requires HotHeld(s, ExecBody(w, s.body, ins, 0), hot, m) && HotArgs(ReadOperands(w, ts, s), ins, hot, m)
    requires forall t :: t in ts && t in hot ==> !Inlined(w, t)
    ensures HotHeld(ReadOperands(w, ts, s), ExecBody(w, ReadOperands(w, ts, s).body, ins, 0), hot, m)
  {
    if ts != [] {
      var before, last := ts[..|ts| - 1], ts[|ts| - 1];
      var s1 := ReadOperands(w, before, s);
      assert s1.inputs <= ReadOperand(w, last, s1).inputs;
      ReadOperandsHot(w, before, s, ins, hot, m);
      ReadOperandHot(w, last, s1, ins, hot, m);
    }
  }

  /** A command that reads a hot tensor leaves the mark in its register. */
  lemma CompileNodeHot(w0: World, cmds: seq<Command>, cmd: Command, s: Scope, ins: seq<Buffer>, hot: set<Tensor>,
      m: Scalar)
    requires var w := Marking(w0, cmds, m);
      && CompilableCommand(cmd) && HotHeld(s, ExecBody(w, s.body, ins, 0), hot, m)
      && HotArgs(CompileNode(w, cmd, s), ins, hot, m) && (forall t :: t in cmd.inputs && t in hot ==> !Inlined(w, t))
      && (cmd.outputs[0] in hot && cmd.outputs[0] !in ReadOperands(w, cmd.inputs, s).varMap ==>
        exists x :: x in cmd.inputs && x in hot)
    ensures var w := Marking(w0, cmds, m);
      HotHeld(CompileNode(w, cmd, s), ExecBody(w, CompileNode(w, cmd, s).body, ins, 0), hot, m)
  {
    var w := Marking(w0, cmds, m);
    var s1, s2 := ReadOperands(w, cmd.inputs, s), CompileNode(w, cmd, s);
    ReadOperandsHot(w, cmd.inputs, s, ins, hot, m);
    var r := ExecBody(w, s1.body, ins, 0);
    assert s2.body[..|s2.body| - 1] == s1.body;
    var args := RegArgs(r, OperandRegisters(s1, cmd.inputs));
    if x :| x in cmd.inputs && x in hot {
      var k :| 0 <= k < |cmd.inputs| && cmd.inputs[k] == x;
      assert args[k] == m;
    }
    assert ExecBody(w, s2.body, ins, 0) == r[s1.varIdx := w.scalarFn(cmd.action.op, args)];
  }

  /** Every hot output but the first is computed from something hot; the first is read before it is computed. */
  ghost predicate Spreads(region: seq<Command>, hot: set<Tensor>, first: Tensor)
    requires Compilable(region)
  {
    forall k :: 0 <= k < |region| && region[k].outputs[0] in hot ==>
      if region[k].outputs[0] == first then Reads(region[..k], first) else exists x :: x in region[k].inputs && x in hot
  }

  lemma {:induction false} KernelHot(w0: World, cmds: seq<Command>, region: seq<Command>, ins: seq<Buffer>,
      hot: set<Tensor>, first: Tensor, m: Scalar)
    requires var w := Marking(w0, cmds, m);
      && Compilable(region) && HotArgs(CompileNodes(w, region), ins, hot, m)
      && (forall t :: t in hot ==> !Inlined(w, t))
      && Spreads(region, hot, first)
    ensures var w := Marking(w0, cmds, m);
      HotHeld(CompileNodes(w, region), ExecBody(w, CompileNodes(w, region).body, ins, 0), hot, m)
  {
    var w := Marking(w0, cmds, m);
    if region != [] {
      var n := |region| - 1;
      var prior, cmd := region[..n], region[n];
      var s := CompileNodes(w, prior);
      ReadOperandsPrefix(w, cmd.inputs, s);
      assert CompileNodes(w, region) == CompileNode(w, cmd, s);
      assert HotArgs(s, ins, hot, m);
      assert Spreads(prior, hot, first) by {
        assert forall k :: 0 <= k < n ==> prior[k] == region[k] && prior[..k] == region[..k];
      }
      KernelHot(w0, cmds, prior, ins, hot, first, m);
      CompileTables(w, prior);
      assert region[n].outputs[0] == cmd.outputs[0];
      CompileNodeHot(w0, cmds, cmd, s, ins, hot, m);
    }
  }

  // ---------------------------------------------------------------- every order has a kernel

  lemma {:induction false} SetToList(tensors: set<Tensor>) returns (ts: seq<Tensor>)
    ensures (forall t :: t in ts <==> t in tensors) && forall i, j :: 0 <= i < j < |ts| ==> ts[i] != ts[j]
    decreases tensors
  {
    if tensors == {} {
      ts := [];
    } else {
      var t :| t in tensors;
      var rest := SetToList(tensors - {t});
      ts := rest + [t];
    }
  }

  lemma GeneratedExists(w: World, cmds: seq<Command>, topo: seq<nat>, fuseSet: seq<nat>, order: seq<nat>)
    returns (g: Generated)
    requires CanGenerate(cmds, fuseSet) && SameNodes(order, fuseSet) && TopoSorted(order, topo)
    ensures IsGenerated(w, cmds, topo, fuseSet, g) && g.order == order
  {
    OrderCompiles(cmds, fuseSet, order);
    var scope := CompileNodes(w, RegionCommands(cmds, order));
    var outputs := SetToList(scope.varMap.Keys - scope.used);
    g := Generated(order, Kernel(scope.body, OperandRegisters(scope, outputs)), scope.inputs, outputs);
  }

  /** Kernels for all sets, with a chosen order for set i. */
  lemma {:induction false} AllGeneratedExist(w: World, cmds: seq<Command>, topo: seq<nat>, fuseSets: seq<seq<nat>>,
      i: nat, order: seq<nat>, n: nat) returns (gens: seq<Generated>)
    requires CanGenerateAll(cmds, fuseSets) && |topo| == |cmds| && i < |fuseSets| && n <= |fuseSets|
    requires SameNodes(order, fuseSets[i]) && TopoSorted(order, topo)
    ensures |gens| == n && AllGenerated(w, cmds, topo, fuseSets, gens)
    ensures i < n ==> gens[i].order == order
  {
    if n == 0 {
      gens := [];
    } else {
      var before := AllGeneratedExist(w, cmds, topo, fuseSets, i, order, n - 1);
      var chosen := order;
      if n - 1 != i {
        var fuseSet := fuseSets[n - 1];
        assert CanGenerate(cmds, fuseSet);
        chosen := SortExists((set c | c in fuseSet), topo);
      }
      var g := GeneratedExists(w, cmds, topo, fuseSets[n - 1], chosen);
      GeneratedAppend(w, cmds, topo, fuseSets, before, g);
      gens := before + [g];
    }
  }

  ghost function SetOf(fuseSets: seq<seq<nat>>, m: nat): (i: nat)
    requires IsMember(fuseSets, m)
    ensures i < |fuseSets| && m in fuseSets[i]
  {
    var i :| 0 <= i < |fuseSets| && m in fuseSets[i];
    i
  }

  ghost function ReplacedAt(cmds: seq<Command>, fuseSets: seq<seq<nat>>, gens: seq<Generated>, m: nat): Command
    requires m < |cmds| && |gens| == |fuseSets| && forall i :: 0 <= i < |fuseSets| ==> fuseSets[i] != []
  {
    if !IsMember(fuseSets, m) then cmds[m]
    else
      var i := SetOf(fuseSets, m);
      if m == Root(fuseSets[i]) then Command(Fused(gens[i].kernel), gens[i].inputs, gens[i].outputs, cmds[m].imageFits)
      else cmds[m].(action := Erased)
  }

  lemma ReplacedExists(cmds: seq<Command>, fuseSets: seq<seq<nat>>, gens: seq<Generated>) returns (out: seq<Command>)
    requires |gens| == |fuseSets| && PairwiseDisjoint(fuseSets)
    requires forall i :: 0 <= i < |fuseSets| ==> fuseSets[i] != []
    ensures IsReplaced(cmds, fuseSets, gens, out)
  {
    out := seq(|cmds|, m requires 0 <= m < |cmds| => ReplacedAt(cmds, fuseSets, gens, m));
    forall i, m: nat | 0 <= i < |fuseSets| && m in fuseSets[i] && m < |cmds|
      ensures MemberReplaced(fuseSets[i], gens[i], m, out[m])
    {
      assert IsMember(fuseSets, m);
      SetOfMemberUnique(fuseSets, i, SetOf(fuseSets, m), m);
    }
  }

  // ---------------------------------------------------------------- what is hot

  /** Member c computes its tensor, directly or not, from what s computes. */
  ghost predicate Carries(cmds: seq<Command>, fuseSet: seq<nat>, s: nat, c: nat)
    decreases c
  {
    c in fuseSet && c < |cmds| && |cmds[c].outputs| == 1 &&
    (c == s || exists q: nat :: q < c && Passes(cmds, fuseSet, s, c, q))
  }

  ghost predicate Passes(cmds: seq<Command>, fuseSet: seq<nat>, s: nat, c: nat, q: nat)
    requires q < c < |cmds|
    decreases c, 0
  {
    Carries(cmds, fuseSet, s, q) && OutputOf(cmds, q) in cmds[c].inputs
  }

  lemma {:induction false} RootCarries(w: World, cmds: seq<Command>, succ: Edges, dom: Parents, fuseSet: seq<nat>,
      s: nat,
      c: nat)
    requires IsProgram(w, cmds) && IsGraph(cmds, succ, dom) && IsFuseSet(succ, dom, cmds, fuseSet)
    requires Carries(cmds, fuseSet, s, c)
    ensures Carries(cmds, fuseSet, s, Root(fuseSet))
    decreases |cmds| - c
  {
    if c != Root(fuseSet) {
      var next := InteriorIsRead(w, cmds, succ, dom, fuseSet, c);
      MemberLegal(w, cmds, succ, dom, fuseSet, next);
      assert Passes(cmds, fuseSet, s, next, c);
      RootCarries(w, cmds, succ, dom, fuseSet, s, next);
    }
  }

  /** The tensors that hold the mark in the kernel: p's, which is loaded too early, and all computed from it. */
  ghost function Hot(cmds: seq<Command>, fuseSet: seq<nat>, p: nat, s: nat): (hot: set<Tensor>)
    requires p < |cmds| && |cmds[p].outputs| == 1
    ensures forall t :: t in hot <==>
      t == OutputOf(cmds, p) || exists c: nat :: Carries(cmds, fuseSet, s, c) && OutputOf(cmds, c) == t
  {
    {OutputOf(cmds, p)} + set c: nat | c in fuseSet && Carries(cmds, fuseSet, s, c) :: OutputOf(cmds, c)
  }

  /** A carrying member reads something hot. */
  lemma CarrierReadsHot(cmds: seq<Command>, fuseSet: seq<nat>, p: nat, s: nat, c: nat) returns (x: Tensor)
    requires p < |cmds| && |cmds[p].outputs| == 1 && Feeds(cmds, p, s) && Carries(cmds, fuseSet, s, c)
    ensures x in cmds[c].inputs && x in Hot(cmds, fuseSet, p, s)
  {
    if c == s {
      x := FedTensor(cmds, p, s);
    } else {
      var q: nat :| q < c && Passes(cmds, fuseSet, s, c, q);
      assert Carries(cmds, fuseSet, s, q);
      x := OutputOf(cmds, q);
    }
  }

  lemma HotSpreads(w: World, cmds: seq<Command>, fuseSet: seq<nat>, order: seq<nat>, p: nat, s: nat)
    requires IsProgram(w, cmds) && SameNodes(order, fuseSet) && InBounds(cmds, order)
    requires Compilable(RegionCommands(cmds, order)) && Before(order, s, p)
    requires p < |cmds| && |cmds[p].outputs| == 1 && Feeds(cmds, p, s)
    ensures Spreads(RegionCommands(cmds, order), Hot(cmds, fuseSet, p, s), OutputOf(cmds, p))
  {
    var region, hot, first := RegionCommands(cmds, order), Hot(cmds, fuseSet, p, s), OutputOf(cmds, p);
    var t := FedTensor(cmds, p, s);
    var i, j :| 0 <= i < j < |order| && order[i] == s && order[j] == p;
    forall k | 0 <= k < |region| && region[k].outputs[0] in hot
      ensures if region[k].outputs[0] == first then Reads(region[..k], first)
        else exists x :: x in region[k].inputs && x in hot
    {
      var c, out := order[k], region[k].outputs[0];
      assert WritesTo(cmds, c, out);
      if out == first {
        assert WritesTo(cmds, p, first);
        assert k == j;
        assert first in region[..k][i].inputs;
      } else {
        var d: nat :| Carries(cmds, fuseSet, s, d) && OutputOf(cmds, d) == out;
        assert WritesTo(cmds, d, out) && d == c;
        var x := CarrierReadsHot(cmds, fuseSet, p, s, c);
      }
    }
  }

  // ---------------------------------------------------------------- the state to start from

  ghost function Tensors(cmds: seq<Command>): (ts: set<Tensor>)
    ensures forall t :: t in ts <==> Mentioned(cmds, t)
  {
    if cmds == [] then {}
    else
      var before, last := cmds[..|cmds| - 1], cmds[|cmds| - 1];
      MentionedStep(cmds);
      Tensors(before) + (set t | t in last.inputs) + (set t | t in last.outputs)
  }

  lemma MentionedStep(cmds: seq<Command>)
    requires cmds != []
    ensures forall t :: Mentioned(cmds, t) <==>
      Mentioned(cmds[..|cmds| - 1], t) || t in cmds[|cmds| - 1].inputs || t in cmds[|cmds| - 1].outputs
  {
    var n := |cmds| - 1;
    forall t | Mentioned(cmds[..n], t) ensures Mentioned(cmds, t) {
      var k :| 0 <= k < n && (t in cmds[..n][k].inputs || t in cmds[..n][k].outputs);
      assert cmds[k] == cmds[..n][k];
    }
    forall t | Mentioned(cmds, t) && t !in cmds[n].inputs && t !in cmds[n].outputs ensures Mentioned(cmds[..n], t) {
      var k :| 0 <= k < |cmds| && (t in cmds[k].inputs || t in cmds[k].outputs);
      assert cmds[k] == cmds[..n][k];
    }
  }

  /** Hot tensors are filled with the mark, constants hold their values, and the rest is zero. */
  ghost function StartBuffer(w: World, hot: set<Tensor>, m: Scalar, t: Tensor): Buffer {
    if Inlined(w, t) then [w.describe(t).value]
    else seq(w.describe(t).size, o requires o >= 0 => if t in hot then m else 0.0)
  }

  ghost function StartState(w: World, cmds: seq<Command>, hot: set<Tensor>, m: Scalar): State {
    map t | t in Tensors(cmds) :: StartBuffer(w, hot, m, t)
  }

  lemma StartIsSized(w: World, cmds: seq<Command>, hot: set<Tensor>, m: Scalar)
    requires forall t :: Inlined(w, t) ==> Mentioned(cmds, t)
    ensures WellSized(w, StartState(w, cmds, hot, m))
  {
  }

  lemma StartIsClean(w0: World, cmds: seq<Command>, hot: set<Tensor>, m: Scalar)
    requires var w := Marking(w0, cmds, m); IsProgram(w, cmds) && IsMark(w0, Tensors(cmds), m)
    requires forall t :: t in hot ==> Written(cmds, 0, |cmds|, t)
    ensures var w := Marking(w0, cmds, m); WellSized(w, StartState(w, cmds, hot, m))
    ensures var w := Marking(w0, cmds, m);
      forall t :: !Written(cmds, 0, |cmds|, t) ==> Clean(Get(StartState(w, cmds, hot, m), t), m)
  {
    var w := Marking(w0, cmds, m);
    var st := StartState(w, cmds, hot, m);
    StartIsSized(w, cmds, hot, m);
    forall t | !Written(cmds, 0, |cmds|, t) ensures Clean(Get(st, t), m) {
      assert t in st ==> Get(st, t) == StartBuffer(w, hot, m, t);
    }
  }

  // ---------------------------------------------------------------- running the fused list

  ghost predicate AllMade(w: World, cmds: seq<Command>, succ: Edges, dom: Parents, topo: seq<nat>,
      fuseSets: seq<seq<nat>>, gens: seq<Generated>)
  {
    && IsProgram(w, cmds) && IsGraph(cmds, succ, dom) && AllFuseSets(succ, dom, cmds, fuseSets)
    && |gens| == |fuseSets| && AllGenerated(w, cmds, topo, fuseSets, gens)
  }

  /** A command of one list writes nothing that the command at its place in the other does not write. */
  ghost predicate WritesNoMore(cmds: seq<Command>, out: seq<Command>) {
    |out| == |cmds| && forall n: nat, t :: n < |out| && WritesNow(out[n], t) ==> WritesTo(cmds, n, t)
  }

  ghost predicate WritesNow(cmd: Command, t: Tensor) {
    !cmd.action.Erased? && t in cmd.outputs
  }

  lemma ReplacedWritesNoMore(w: World, cmds: seq<Command>, succ: Edges, dom: Parents, topo: seq<nat>,
      fuseSets: seq<seq<nat>>, gens: seq<Generated>, out: seq<Command>)
    requires AllMade(w, cmds, succ, dom, topo, fuseSets, gens) && IsReplaced(cmds, fuseSets, gens, out)
    ensures WritesNoMore(cmds, out)
  {
    forall n: nat, t | n < |out| && WritesNow(out[n], t) ensures WritesTo(cmds, n, t) {
      if IsMember(fuseSets, n) {
        var i := SetOf(fuseSets, n);
        assert MemberReplaced(fuseSets[i], gens[i], n, out[n]) && IsGenerated(w, cmds, topo, fuseSets[i], gens[i]);
        KernelStoresRoot(w, cmds, succ, dom, topo, fuseSets[i], gens[i]);
      }
    }
  }

  /** A tensor whose writer is erased, or has run, is left alone. */
  lemma LeftAlone(w: World, cmds: seq<Command>, out: seq<Command>, st: State, a: nat, b: nat, c: nat,
      t: Tensor)
    requires IsSingleAssignment(cmds) && WritesNoMore(cmds, out) && a <= b <= |cmds|
    requires WritesTo(cmds, c, t) && (out[c].action.Erased? || c < a)
    ensures Get(RunTo(w, out, st, b), t) == Get(RunTo(w, out, st, a), t)
  {
    forall k: nat | a <= k < b ensures !WritesNow(out[k], t) {
      assert WritesNow(out[k], t) ==> WritesTo(cmds, k, t) && k == c;
    }
    NotWritten(w, out, st, a, b, t);
  }

  lemma {:induction false} NotWritten(w: World, out: seq<Command>, st: State, a: nat, b: nat, t: Tensor)
    requires a <= b <= |out| && forall k: nat :: a <= k < b ==> !WritesNow(out[k], t)
    ensures Get(RunTo(w, out, st, b), t) == Get(RunTo(w, out, st, a), t)
    decreases b
  {
    if a < b {
      NotWritten(w, out, st, a, b - 1, t);
      StepGet(w, out[b - 1], RunTo(w, out, st, b - 1), t);
    }
  }

  /** What a kernel loads is read by a member. */
  lemma LoadedIsRead(w: World, cmds: seq<Command>, topo: seq<nat>, fuseSet: seq<nat>, g: Generated, t: Tensor)
    returns (s: nat)
    requires IsGenerated(w, cmds, topo, fuseSet, g) && t in g.inputs
    ensures s in fuseSet && s < |cmds| && t in cmds[s].inputs
  {
    var region := RegionCommands(cmds, g.order);
    CompileTables(w, region);
    var k :| 0 <= k < |region| && t in region[k].inputs;
    assert g.order[k] in g.order;
    s := g.order[k];
  }

  /** A member's tensor that the kernel loads is not the root's. */
  lemma LoadedIsInterior(w: World, cmds: seq<Command>, succ: Edges, dom: Parents, topo: seq<nat>, fuseSet: seq<nat>,
      g: Generated, c: nat, t: Tensor)
    requires IsMade(w, cmds, succ, dom, topo, fuseSet, g) && t in g.inputs
    requires c in fuseSet && c < |cmds| && t in cmds[c].outputs
    ensures c != Root(fuseSet)
  {
    var s := LoadedIsRead(w, cmds, topo, fuseSet, g, t);
    RootIsUnread(w, cmds, succ, dom, fuseSet, s);
  }

  /** Hot tensors are outputs of members. */
  lemma HotWriter(cmds: seq<Command>, fuseSet: seq<nat>, p: nat, s: nat, t: Tensor) returns (c: nat)
    requires p in fuseSet && p < |cmds| && |cmds[p].outputs| == 1 && t in Hot(cmds, fuseSet, p, s)
    ensures c in fuseSet && c < |cmds| && |cmds[c].outputs| == 1 && OutputOf(cmds, c) == t && WritesTo(cmds, c, t)
  {
    if t == OutputOf(cmds, p) {
      c := p;
    } else {
      c :| Carries(cmds, fuseSet, s, c) && OutputOf(cmds, c) == t;
    }
  }

  /** The kernel's arguments for hot tensors start with the mark: nobody has written them yet. */
  lemma HotArguments(w: World, cmds: seq<Command>, succ: Edges, dom: Parents, topo: seq<nat>, fuseSet: seq<nat>,
      g: Generated, out: seq<Command>, p: nat, s: nat, m: Scalar, t: Tensor)
    requires IsMade(w, cmds, succ, dom, topo, fuseSet, g) && WritesNoMore(cmds, out)
    requires forall c: nat :: c in fuseSet && c < |cmds| ==> MemberReplaced(fuseSet, g, c, out[c])
    requires p in fuseSet && p < |cmds| && |cmds[p].outputs| == 1
    requires t in g.inputs && t in Hot(cmds, fuseSet, p, s) && !IsEmptySet(w, cmds, fuseSet)
    ensures Root(fuseSet) < |cmds|
    ensures var st := StartState(w, cmds, Hot(cmds, fuseSet, p, s), m);
      Cell(Get(RunTo(w, out, st, Root(fuseSet)), t), 0) == m
  {
    var hot := Hot(cmds, fuseSet, p, s);
    var st := StartState(w, cmds, hot, m);
    RootOutput(w, cmds, succ, dom, fuseSet);
    var c := HotWriter(cmds, fuseSet, p, s, t);
    LoadedIsInterior(w, cmds, succ, dom, topo, fuseSet, g, c, t);
    LeftAlone(w, cmds, out, st, 0, Root(fuseSet), c, t);
    RegionSizes(w, cmds, succ, dom, fuseSet, c);
    StartIsHot(w, cmds, hot, m, c, t);
  }

  lemma StartIsHot(w: World, cmds: seq<Command>, hot: set<Tensor>, m: Scalar, c: nat, t: Tensor)
    requires IsProgram(w, cmds) && WritesTo(cmds, c, t) && t in hot && w.describe(t).size > 0
    ensures Cell(Get(StartState(w, cmds, hot, m), t), 0) == m
  {
    assert Mentioned(cmds, t);
  }

  /** In the kernel's run all registers of hot tensors hold the mark. */
  lemma RegistersAreHot(w0: World, cmds: seq<Command>, succ: Edges, dom: Parents, topo: seq<nat>, fuseSet: seq<nat>,
      g: Generated, out: seq<Command>, p: nat, s: nat, m: Scalar, now: State)
    requires var w := Marking(w0, cmds, m);
      && IsMade(w, cmds, succ, dom, topo, fuseSet, g) && !IsEmptySet(w, cmds, fuseSet) && WritesNoMore(cmds, out)
    requires forall c: nat :: c in fuseSet && c < |cmds| ==> MemberReplaced(fuseSet, g, c, out[c])
    requires p in fuseSet && s in fuseSet && Feeds(cmds, p, s) && Before(g.order, s, p)
    requires p < |cmds| && |cmds[p].outputs| == 1 && Root(fuseSet) < |cmds|
    requires var w := Marking(w0, cmds, m);
      now == RunTo(w, out, StartState(w, cmds, Hot(cmds, fuseSet, p, s), m), Root(fuseSet))
    ensures var w, region := Marking(w0, cmds, m), RegionCommands(cmds, g.order);
      HotHeld(CompileNodes(w, region), ExecBody(w, CompileNodes(w, region).body, Args(g.inputs, now), 0),
        Hot(cmds, fuseSet, p, s), m)
  {
    var w, hot := Marking(w0, cmds, m), Hot(cmds, fuseSet, p, s);
    var region, ins := RegionCommands(cmds, g.order), Args(g.inputs, now);
    forall k | 0 <= k < |g.inputs| && g.inputs[k] in hot ensures Cell(ins[k], 0) == m {
      HotArguments(w, cmds, succ, dom, topo, fuseSet, g, out, p, s, m, g.inputs[k]);
    }
    forall t | t in hot ensures !Inlined(w, t) {
      var c := HotWriter(cmds, fuseSet, p, s, t);
    }
    HotSpreads(w, cmds, fuseSet, g.order, p, s);
    KernelHot(w0, cmds, region, ins, hot, OutputOf(cmds, p), m);
  }

  /** The kernel gives the mark in the root's first element. */
  lemma KernelIsMarked(w0: World, cmds: seq<Command>, succ: Edges, dom: Parents, topo: seq<nat>, fuseSet: seq<nat>,
      g: Generated, out: seq<Command>, p: nat, s: nat, m: Scalar)
    requires var w := Marking(w0, cmds, m);
      && IsMade(w, cmds, succ, dom, topo, fuseSet, g) && !IsEmptySet(w, cmds, fuseSet) && WritesNoMore(cmds, out)
    requires forall c: nat :: c in fuseSet && c < |cmds| ==> MemberReplaced(fuseSet, g, c, out[c])
    requires p in fuseSet && s in fuseSet && Feeds(cmds, p, s) && Before(g.order, s, p)
    ensures p < |cmds| && |cmds[p].outputs| == 1 && Root(fuseSet) < |cmds|
    ensures var w := Marking(w0, cmds, m); var st := StartState(w, cmds, Hot(cmds, fuseSet, p, s), m);
      |out[Root(fuseSet)].outputs| == 1 &&
      OutElement(w, out[Root(fuseSet)], RunTo(w, out, st, Root(fuseSet)), 0, 0) == m
  {
    var w := Marking(w0, cmds, m);
    MemberLegal(w, cmds, succ, dom, fuseSet, p);
    MemberLegal(w, cmds, succ, dom, fuseSet, s);
    RootOutput(w, cmds, succ, dom, fuseSet);
    var root := Root(fuseSet);
    var now := RunTo(w, out, StartState(w, cmds, Hot(cmds, fuseSet, p, s), m), root);
    RegistersAreHot(w0, cmds, succ, dom, topo, fuseSet, g, out, p, s, m, now);
    RootIsHot(w, cmds, succ, dom, fuseSet, p, s);
    KernelStoresRoot(w, cmds, succ, dom, topo, fuseSet, g);
    assert MemberReplaced(fuseSet, g, root, out[root]);
    RootStored(w, RegionCommands(cmds, g.order), g.kernel, g.inputs, OutputOf(cmds, root));
  }

  lemma RootIsHot(w: World, cmds: seq<Command>, succ: Edges, dom: Parents, fuseSet: seq<nat>, p: nat, s: nat)
    requires IsProgram(w, cmds) && IsGraph(cmds, succ, dom) && IsFuseSet(succ, dom, cmds, fuseSet) && s in fuseSet
    requires p < |cmds| && |cmds[p].outputs| == 1
    ensures Root(fuseSet) < |cmds| && |cmds[Root(fuseSet)].outputs| == 1
    ensures OutputOf(cmds, Root(fuseSet)) in Hot(cmds, fuseSet, p, s)
  {
    MemberLegal(w, cmds, succ, dom, fuseSet, s);
    RootOutput(w, cmds, succ, dom, fuseSet);
    RootCarries(w, cmds, succ, dom, fuseSet, s, s);
  }

  lemma RootStored(w: World, region: seq<Command>, kernel: Kernel, inputs: seq<Tensor>, t: Tensor)
    requires Compilable(region) && IsKernelOf(w, region, kernel, inputs, [t])
    ensures t in CompileNodes(w, region).varMap && kernel.stores == [CompileNodes(w, region).varMap[t]]
  {
    assert [t][0] == t && t in [t];
  }

  /** How the sort and the generator may have left the list. */
  ghost predicate IsOutcome(w: World, cmds: seq<Command>, topo: seq<nat>, fuseSets: seq<seq<nat>>, gens: seq<Generated>,
      replaced: seq<Command>)
  {
    |gens| == |fuseSets| && AllGenerated(w, cmds, topo, fuseSets, gens) && IsReplaced(cmds, fuseSets, gens, replaced)
  }

  /** The fused list keeps its meaning for every such outcome. */
  ghost predicate AlwaysKeepsMeaning(w: World, cmds: seq<Command>, topo: seq<nat>, fuseSets: seq<seq<nat>>) {
    forall gens: seq<Generated>, replaced: seq<Command> :: IsOutcome(w, cmds, topo, fuseSets, gens, replaced) ==>
      KeepsMeaning(w, cmds, fuseSets, WithOps(replaced))
  }

  /** For all operators on these tensors. */
  ghost predicate KeepsMeaningForAll(w: World, cmds: seq<Command>, topo: seq<nat>, fuseSets: seq<seq<nat>>) {
    forall w': World :: SameTensors(w, w', cmds) ==> AlwaysKeepsMeaning(w', cmds, topo, fuseSets)
  }

  lemma RootIsKept(w: World, cmds: seq<Command>, succ: Edges, dom: Parents, fuseSets: seq<seq<nat>>, i: nat)
    requires IsProgram(w, cmds) && IsGraph(cmds, succ, dom) && AllFuseSets(succ, dom, cmds, fuseSets) && i < |fuseSets|
    ensures fuseSets[i] != [] && Root(fuseSets[i]) < |cmds| && |cmds[Root(fuseSets[i])].outputs| == 1
    ensures !IsInteriorTensor(cmds, fuseSets, OutputOf(cmds, Root(fuseSets[i])))
  {
    var root := Root(fuseSets[i]);
    RootOutput(w, cmds, succ, dom, fuseSets[i]);
    var t := OutputOf(cmds, root);
    assert WritesTo(cmds, root, t);
    if IsInteriorTensor(cmds, fuseSets, t) {
      var c: nat :| c < |cmds| && t in cmds[c].outputs && IsInterior(fuseSets, c);
      assert WritesTo(cmds, c, t);
      var j :| 0 <= j < |fuseSets| && fuseSets[j] != [] && c in fuseSets[j] && c != Root(fuseSets[j]);
      SetOfMemberUnique(fuseSets, i, j, c);
    }
  }

  // ---------------------------------------------------------------- exactly when fusion is right

  /** Where a kernel has a thread and the sort may put a reader before the member it reads, a kept tensor differs. */
  lemma TieBreaks(w: World, cmds: seq<Command>, succ: Edges, dom: Parents, topo: seq<nat>, fuseSets: seq<seq<nat>>,
      i: nat, p: nat, s: nat)
    requires IsProgram(w, cmds) && IsGraph(cmds, succ, dom) && AllFuseSets(succ, dom, cmds, fuseSets)
    requires |topo| == |cmds| && i < |fuseSets| && !IsEmptySet(w, cmds, fuseSets[i])
    requires p in fuseSets[i] && s in fuseSets[i] && Feeds(cmds, p, s) && !EdgeRises(topo, p, s)
    ensures !KeepsMeaningForAll(w, cmds, topo, fuseSets)
  {
    var m := MarkExists(w, Tensors(cmds));
    var w' := Marking(w, cmds, m);
    assert SameTensors(w, w', cmds);
    StillProgram(w, w', cmds);
    FuseSetsCanGenerate(w', cmds, succ, dom, fuseSets);
    assert CanGenerate(cmds, fuseSets[i]);
    var order := OrderWith(fuseSets[i], topo, p, s);
    var gens := AllGeneratedExist(w', cmds, topo, fuseSets, i, order, |fuseSets|);
    var out := ReplacedExists(cmds, fuseSets, gens);
    assert IsOutcome(w', cmds, topo, fuseSets, gens, out);
    OutcomeDiffers(w, cmds, succ, dom, topo, fuseSets, gens, out, i, p, s, m);
  }

  lemma OutcomeDiffers(w0: World, cmds: seq<Command>, succ: Edges, dom: Parents, topo: seq<nat>,
      fuseSets: seq<seq<nat>>, gens: seq<Generated>, out: seq<Command>, i: nat, p: nat, s: nat, m: Scalar)
    requires IsProgram(w0, cmds) && IsMark(w0, Tensors(cmds), m)
    requires var w := Marking(w0, cmds, m);
      AllMade(w, cmds, succ, dom, topo, fuseSets, gens) && IsReplaced(cmds, fuseSets, gens, out)
    requires i < |fuseSets| && !IsEmptySet(w0, cmds, fuseSets[i]) && Before(gens[i].order, s, p)
    requires p in fuseSets[i] && s in fuseSets[i] && Feeds(cmds, p, s)
    ensures !KeepsMeaning(Marking(w0, cmds, m), cmds, fuseSets, WithOps(out))
  {
    var w, fuseSet := Marking(w0, cmds, m), fuseSets[i];
    assert IsGenerated(w, cmds, topo, fuseSet, gens[i]);
    ReplacedWritesNoMore(w, cmds, succ, dom, topo, fuseSets, gens, out);
    RootIsKept(w, cmds, succ, dom, fuseSets, i);
    var root := Root(fuseSet);
    var t := OutputOf(cmds, root);
    assert Mentioned(cmds, t);
    KernelIsMarked(w0, cmds, succ, dom, topo, fuseSet, gens[i], out, p, s, m);
    var hot := Hot(cmds, fuseSet, p, s);
    var st := StartState(w, cmds, hot, m);
    KernelStoresRoot(w, cmds, succ, dom, topo, fuseSet, gens[i]);
    FusedValue(w, cmds, out, st, root, t, m);
    forall x | x in hot ensures Written(cmds, 0, |cmds|, x) {
      var c := HotWriter(cmds, fuseSet, p, s, x);
    }
    StartIsClean(w0, cmds, hot, m);
    NeverMarked(w0, cmds, st, m, root, 0);
  }

  /** What the root's command of the fused list computes is what is there at the end. */
  lemma FusedValue(w: World, cmds: seq<Command>, out: seq<Command>, st: State, root: nat, t: Tensor, m: Scalar)
    requires IsSingleAssignment(cmds) && WritesNoMore(cmds, out) && WritesTo(cmds, root, t)
    requires out[root].outputs == [t] && !out[root].action.Erased? && w.describe(t).size > 0
    requires OutElement(w, out[root], RunTo(w, out, st, root), 0, 0) == m
    ensures var v := Get(Run(w, WithOps(out), st), t); |v| > 0 && v[0] == m
  {
    var now := RunTo(w, out, st, root);
    StepGet(w, out[root], now, t);
    assert IndexOf([t], t) == 0;
    LeftAlone(w, cmds, out, st, root + 1, |cmds|, root, t);
    RunWithOps(w, out, st);
  }

  /**
   Fusion keeps the meaning of a list, whatever the operators on its tensors, the outcome of the sort, the state and
   the kept tensor, exactly if in every region whose kernel has a thread the indices rise from members to readers.
   */
  lemma FusionRightIffSetsRise(w: World, cmds: seq<Command>, succ: Edges, dom: Parents, topo: seq<nat>,
      fuseSets: seq<seq<nat>>)
    requires IsProgram(w, cmds) && IsGraph(cmds, succ, dom) && AllFuseSets(succ, dom, cmds, fuseSets)
    requires |topo| == |cmds|
    ensures KeepsMeaningForAll(w, cmds, topo, fuseSets) <==> SetsRise(w, cmds, topo, fuseSets)
  {
    if SetsRise(w, cmds, topo, fuseSets) {
      forall w': World, gens: seq<Generated>, replaced: seq<Command> |
        SameTensors(w, w', cmds) && IsOutcome(w', cmds, topo, fuseSets, gens, replaced)
        ensures KeepsMeaning(w', cmds, fuseSets, WithOps(replaced))
      {
        StillProgram(w, w', cmds);
        SameSetsRise(w, w', cmds, topo, fuseSets);
        FusedListPreserves(w', cmds, topo, succ, dom, fuseSets, gens, replaced);
      }
    }
    if !SetsRise(w, cmds, topo, fuseSets) {
      var i: nat :| i < |fuseSets| && !(SetRises(cmds, topo, fuseSets[i]) || IsEmptySet(w, cmds, fuseSets[i]));
      var p: nat, s: nat :| p in fuseSets[i] && s in fuseSets[i] && Feeds(cmds, p, s) && !EdgeRises(topo, p, s);
      TieBreaks(w, cmds, succ, dom, topo, fuseSets, i, p, s);
    }
  }

  lemma SameSetsRise(w: World, w': World, cmds: seq<Command>, topo: seq<nat>, fuseSets: seq<seq<nat>>)
    requires SameTensors(w, w', cmds) && SetsRise(w, cmds, topo, fuseSets)
    ensures SetsRise(w', cmds, topo, fuseSets)
  {
    forall i | 0 <= i < |fuseSets| && IsEmptySet(w, cmds, fuseSets[i]) ensures IsEmptySet(w', cmds, fuseSets[i]) {
      assert Mentioned(cmds, OutputOf(cmds, Root(fuseSets[i])));
    }
  }
}
