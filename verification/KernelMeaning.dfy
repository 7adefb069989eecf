/**
 What a generated kernel computes: which tensors it loads and stores, and that one thread of it
 leaves in each register the lane of the tensor that the register stands for.
 */
module KernelMeaning {
  import opened Wrappers
  import opened Commands
  import opened Kernels

  ghost predicate Reads(region: seq<Command>, t: Tensor) {
    exists k :: 0 <= k < |region| && t in region[k].inputs
  }

  ghost predicate Writes(region: seq<Command>, t: Tensor)
    requires Compilable(region)
  {
    exists k :: 0 <= k < |region| && t == region[k].outputs[0]
  }

  /** Some command of the region reads t before any command of the region has written it. */
  ghost predicate ReadsFirst(region: seq<Command>, t: Tensor)
    requires Compilable(region)
  {
    exists k :: 0 <= k < |region| && t in region[k].inputs && forall j :: 0 <= j < k ==> region[j].outputs[0] != t
  }

  /** The tables of a scope after the given reads and writes. */
  ghost predicate ScopeFacts(s: Scope) {
    && (forall t :: t in s.varMap ==> s.varMap[t] < s.varIdx)
    && (forall t :: t in s.used ==> t in s.varMap)
    && (forall t :: t in s.inputs ==> t in s.varMap)
    && Distinct(s.inputs)
  }

  lemma {:induction false} ReadOperandsTables(w: World, ts: seq<Tensor>, s: Scope)
    requires ScopeFacts(s)
    ensures var s' := ReadOperands(w, ts, s);
      && ScopeFacts(s')
      && (forall t :: t in s'.varMap <==> t in s.varMap || t in ts)
      && (forall t :: t in s'.used <==> t in s.used || t in ts)
      && (forall t :: t in s'.inputs <==> t in s.inputs || (t in ts && t !in s.varMap && !Inlined(w, t)))
  {
    if ts != [] {
      var last := ts[|ts| - 1];
      ReadOperandsTables(w, ts[..|ts| - 1], s);
      assert ts == ts[..|ts| - 1] + [last];
    }
  }

  /** What a region's scope holds: keys are the tensors read or written, used the tensors read,
      inputs the tensors read before they are written, unless inlined. */
  lemma {:induction false} CompileTables(w: World, region: seq<Command>)
    requires Compilable(region)
    ensures var s := CompileNodes(w, region);
      && ScopeFacts(s)
      && (forall t :: t in s.varMap <==> Reads(region, t) || Writes(region, t))
      && (forall t :: t in s.used <==> Reads(region, t))
      && (forall t :: t in s.inputs <==> !Inlined(w, t) && ReadsFirst(region, t))
  {
    if region != [] {
      var prior, cmd := region[..|region| - 1], region[|region| - 1];
      CompileTables(w, prior);
      NodeTables(w, cmd, CompileNodes(w, prior));
      forall t
        ensures Reads(region, t) <==> Reads(prior, t) || t in cmd.inputs
        ensures Writes(region, t) <==> Writes(prior, t) || t == cmd.outputs[0]
        ensures ReadsFirst(region, t) <==>
          ReadsFirst(prior, t) || (t in cmd.inputs && !Reads(prior, t) && !Writes(prior, t))
      {
        TablesExtend(region, t);
      }
    }
  }

  /** What one more node adds. */
  lemma NodeTables(w: World, cmd: Command, s: Scope)
    requires ScopeFacts(s) && cmd.action.Plain? && |cmd.outputs| == 1
    ensures var s' := CompileNode(w, cmd, s);
      && ScopeFacts(s')
      && (forall t :: t in s'.varMap <==> t in s.varMap || t in cmd.inputs || t == cmd.outputs[0])
      && (forall t :: t in s'.used <==> t in s.used || t in cmd.inputs)
      && (forall t :: t in s'.inputs <==> t in s.inputs || (t in cmd.inputs && t !in s.varMap && !Inlined(w, t)))
  {
    ReadOperandsTables(w, cmd.inputs, s);
  }

  lemma TablesExtend(region: seq<Command>, t: Tensor)
    requires Compilable(region) && region != []
    ensures var prior, cmd := region[..|region| - 1], region[|region| - 1];
      && (Reads(region, t) <==> Reads(prior, t) || t in cmd.inputs)
      && (Writes(region, t) <==> Writes(prior, t) || t == cmd.outputs[0])
      && (ReadsFirst(region, t) <==> ReadsFirst(prior, t) || (t in cmd.inputs && !Reads(prior, t) && !Writes(prior, t)))
  {
    var n := |region| - 1;
    var prior, cmd := region[..n], region[n];
    assert forall k :: 0 <= k < n ==> prior[k] == region[k];
    assert Reads(region, t) <==> Reads(prior, t) || t in cmd.inputs by {
      if Reads(prior, t) {
        var k :| 0 <= k < n && t in prior[k].inputs;
        assert t in region[k].inputs;
      }
      assert region[n] == cmd;
    }
    assert Writes(region, t) <==> Writes(prior, t) || t == cmd.outputs[0] by {
      if Writes(prior, t) {
        var k :| 0 <= k < n && t == prior[k].outputs[0];
        assert t == region[k].outputs[0];
      }
      assert region[n] == cmd;
    }
    ReadsFirstExtend(region, t);
  }

  lemma ReadsFirstExtend(region: seq<Command>, t: Tensor)
    requires Compilable(region) && region != []
    ensures var prior, cmd := region[..|region| - 1], region[|region| - 1];
      ReadsFirst(region, t) <==> ReadsFirst(prior, t) || (t in cmd.inputs && !Reads(prior, t) && !Writes(prior, t))
  {
    var n := |region| - 1;
    var prior, cmd := region[..n], region[n];
    assert forall k :: 0 <= k < n ==> prior[k] == region[k];
    if ReadsFirst(region, t) {
      var k :| 0 <= k < |region| && t in region[k].inputs && forall j :: 0 <= j < k ==> region[j].outputs[0] != t;
      if k < n {
        assert t in prior[k].inputs && forall j :: 0 <= j < k ==> prior[j].outputs[0] != t;
      } else if Reads(prior, t) {
        FirstRead(prior, t);
      }
    }
    if ReadsFirst(prior, t) {
      var k :| 0 <= k < n && t in prior[k].inputs && forall j :: 0 <= j < k ==> prior[j].outputs[0] != t;
      assert t in region[k].inputs && forall j :: 0 <= j < k ==> region[j].outputs[0] != t;
    }
    if t in cmd.inputs && !Writes(prior, t) {
      assert t in region[n].inputs && forall j :: 0 <= j < n ==> region[j].outputs[0] != t;
    }
  }

  lemma {:induction false} FirstRead(region: seq<Command>, t: Tensor)
    requires Compilable(region) && Reads(region, t) && !Writes(region, t)
    ensures ReadsFirst(region, t)
  {
    var k :| 0 <= k < |region| && t in region[k].inputs;
    assert forall j :: 0 <= j < k ==> region[j].outputs[0] != t;
  }

  /** No command reads a tensor that it or a later command of the list writes. */
  ghost predicate ProducersFirst(region: seq<Command>)
    requires Compilable(region)
  {
    forall k, j :: 0 <= k <= j < |region| ==> region[j].outputs[0] !in region[k].inputs
  }

  /** The kernel loads nothing that the region itself computes exactly when producers come first. */
  lemma LoadsOnlyOutsideIffProducersFirst(w: World, region: seq<Command>, kernel: Kernel, inputs: seq<Tensor>,
      outputs: seq<Tensor>)
    requires Compilable(region) && IsKernelOf(w, region, kernel, inputs, outputs)
    requires forall k, j :: 0 <= k < j < |region| ==> region[k].outputs[0] != region[j].outputs[0]
    requires forall k :: 0 <= k < |region| ==> !Inlined(w, region[k].outputs[0])
    ensures (forall t :: t in inputs ==> !Writes(region, t)) <==> ProducersFirst(region)
  {
    CompileTables(w, region);
    if ProducersFirst(region) {
      forall t | t in inputs ensures !Writes(region, t) {
        var k :| 0 <= k < |region| && t in region[k].inputs && forall j :: 0 <= j < k ==> region[j].outputs[0] != t;
      }
    }
    if forall t :: t in inputs ==> !Writes(region, t) {
      forall k, j | 0 <= k <= j < |region|
        ensures region[j].outputs[0] !in region[k].inputs
      {
        var t := region[j].outputs[0];
        if t in region[k].inputs {
          assert Writes(region, t);
          assert ReadsFirst(region, t);
        }
      }
    }
  }

  // ---------------------------------------------------------------- execution

  /** The state fin is settled for a region: every member's output holds what the member computes from fin. */
  ghost predicate Settled(w: World, region: seq<Command>, fin: State)
    requires Compilable(region)
  {
    forall k :: 0 <= k < |region| ==> SettledAt(w, region[k], fin)
  }

  ghost predicate CompilableCommand(cmd: Command) {
    cmd.action.Plain? && |cmd.outputs| == 1
  }

  ghost predicate SettledAt(w: World, cmd: Command, fin: State)
    requires CompilableCommand(cmd)
  {
    Elementwise(cmd.action.op.kind) && Get(fin, cmd.outputs[0]) == OutBuffer(w, cmd, fin, 0)
  }

  /** Operands are as large as the output or scalars; outputs are as large as the kernel or scalars. */
  ghost predicate Shaped(w: World, region: seq<Command>, lanes: nat)
    requires Compilable(region)
  {
    forall k :: 0 <= k < |region| ==> ShapedAt(w, region[k], lanes)
  }

  ghost predicate ShapedAt(w: World, cmd: Command, lanes: nat)
    requires CompilableCommand(cmd)
  {
    OperandsShaped(w, cmd) && (w.describe(cmd.outputs[0]).size == lanes || w.describe(cmd.outputs[0]).size == 1)
  }

  ghost predicate OperandsShaped(w: World, cmd: Command)
    requires |cmd.outputs| == 1
  {
    forall t :: t in cmd.inputs ==> w.describe(t).size == w.describe(cmd.outputs[0]).size || w.describe(t).size == 1
  }

  /** Buffers have their tensors' sizes, and scalar constants hold their values. */
  ghost predicate WellSized(w: World, st: State) {
    && (forall t :: t in st ==> |st[t]| == w.describe(t).size)
    && (forall t :: Inlined(w, t) ==> Get(st, t) == [w.describe(t).value])
  }

  /** Every register that stands for a tensor holds lane o of it. */
  ghost predicate RegistersHold(s: Scope, r: Registers, fin: State, o: nat) {
    forall t :: t in s.varMap ==> s.varMap[t] < s.varIdx && s.varMap[t] in r && r[s.varMap[t]] == Lane(Get(fin, t), o)
  }

  /** The kernel's arguments are the buffers of the tensors it loads. */
  ghost predicate ArgsHold(s: Scope, ins: seq<Buffer>, fin: State) {
    |s.inputs| <= |ins| && forall k :: 0 <= k < |s.inputs| ==> ins[k] == Get(fin, s.inputs[k])
  }

  /** What an operand's load leaves in its register. */
  lemma LoadHolds(w: World, t: Tensor, dst: nat, arg: nat, ins: seq<Buffer>, fin: State, o: nat, r: Registers)
    requires WellSized(w, fin)
    requires !Inlined(w, t) ==> arg < |ins| && ins[arg] == Get(fin, t)
    ensures ExecInstr(w, LoadInstr(w, t, dst, arg), ins, o, r) == r[dst := Lane(Get(fin, t), o)]
  {
  }

  lemma ReadOperandHolds(w: World, t: Tensor, s: Scope, ins: seq<Buffer>, fin: State, o: nat)
    requires WellSized(w, fin)
    requires RegistersHold(s, ExecBody(w, s.body, ins, o), fin, o)
    requires ArgsHold(ReadOperand(w, t, s), ins, fin)
    ensures RegistersHold(ReadOperand(w, t, s), ExecBody(w, ReadOperand(w, t, s).body, ins, o), fin, o)
  {
    if t !in s.varMap {
      var s', r := ReadOperand(w, t, s), ExecBody(w, s.body, ins, o);
      if !Inlined(w, t) {
        assert s'.inputs[|s.inputs|] == t;
      }
      LoadHolds(w, t, s.varIdx, |s.inputs|, ins, fin, o, r);
      assert s'.body[..|s'.body| - 1] == s.body;
      assert ExecBody(w, s'.body, ins, o) == r[s.varIdx := Lane(Get(fin, t), o)];
    }
  }

  lemma {:induction false} ReadOperandsPrefix(w: World, ts: seq<Tensor>, s: Scope)
    ensures s.inputs <= ReadOperands(w, ts, s).inputs
  {
    if ts != [] {
      ReadOperandsPrefix(w, ts[..|ts| - 1], s);
    }
  }

  lemma {:induction false} ReadOperandsHold(w: World, ts: seq<Tensor>, s: Scope, ins: seq<Buffer>, fin: State, o: nat)
    requires WellSized(w, fin)
    requires RegistersHold(s, ExecBody(w, s.body, ins, o), fin, o)
    requires ArgsHold(ReadOperands(w, ts, s), ins, fin)
    ensures RegistersHold(ReadOperands(w, ts, s), ExecBody(w, ReadOperands(w, ts, s).body, ins, o), fin, o)
  {
    if ts != [] {
      var s1 := ReadOperands(w, ts[..|ts| - 1], s);
      assert ArgsHold(s1, ins, fin);
      ReadOperandsHold(w, ts[..|ts| - 1], s, ins, fin, o);
      ReadOperandHolds(w, ts[|ts| - 1], s1, ins, fin, o);
    }
  }

  /** A lane inside the kernel's range holds what the operator gives for that lane. */
  lemma OutputLane(w: World, cmd: Command, fin: State, lanes: nat, o: nat)
    requires CompilableCommand(cmd) && SettledAt(w, cmd, fin) && ShapedAt(w, cmd, lanes) && WellSized(w, fin)
    requires o < lanes
    ensures Lane(Get(fin, cmd.outputs[0]), o) == w.scalarFn(cmd.action.op, LaneArgs(cmd.inputs, fin, o))
  {
    if w.describe(cmd.outputs[0]).size == 1 {
      assert LaneArgs(cmd.inputs, fin, 0) == LaneArgs(cmd.inputs, fin, o) by {
        forall k | 0 <= k < |cmd.inputs|
          ensures Lane(Get(fin, cmd.inputs[k]), 0) == Lane(Get(fin, cmd.inputs[k]), o)
        {
          assert cmd.inputs[k] in cmd.inputs;
        }
      }
    }
  }

  lemma CompileNodeHolds(w: World, cmd: Command, s: Scope, ins: seq<Buffer>, fin: State, lanes: nat, o: nat)
    requires CompilableCommand(cmd) && SettledAt(w, cmd, fin) && ShapedAt(w, cmd, lanes) && WellSized(w, fin)
    requires o < lanes
    requires RegistersHold(s, ExecBody(w, s.body, ins, o), fin, o)
    requires ArgsHold(CompileNode(w, cmd, s), ins, fin)
    requires cmd.outputs[0] !in ReadOperands(w, cmd.inputs, s).varMap
    ensures RegistersHold(CompileNode(w, cmd, s), ExecBody(w, CompileNode(w, cmd, s).body, ins, o), fin, o)
  {
    var s1, s2 := ReadOperands(w, cmd.inputs, s), CompileNode(w, cmd, s);
    ReadOperandsHold(w, cmd.inputs, s, ins, fin, o);
    var r := ExecBody(w, s1.body, ins, o);
    assert s2.body[..|s2.body| - 1] == s1.body;
    assert RegArgs(r, OperandRegisters(s1, cmd.inputs)) == LaneArgs(cmd.inputs, fin, o) by {
      forall k | 0 <= k < |cmd.inputs|
        ensures Reg(r, RegisterOf(s1, cmd.inputs[k])) == Lane(Get(fin, cmd.inputs[k]), o)
      {
        assert cmd.inputs[k] in s1.varMap;
      }
    }
    OutputLane(w, cmd, fin, lanes, o);
  }

  /** The last command's register is new. */
  lemma ComputedAnew(w: World, region: seq<Command>)
    requires Compilable(region) && ProducersFirst(region) && region != []
    requires forall k, j :: 0 <= k < j < |region| ==> region[k].outputs[0] != region[j].outputs[0]
    ensures var n := |region| - 1;
      var s := ReadOperands(w, region[n].inputs, CompileNodes(w, region[..n]));
      ScopeFacts(CompileNodes(w, region[..n])) && ScopeFacts(s) && region[n].outputs[0] !in s.varMap
  {
    var n := |region| - 1;
    var prior, t := region[..n], region[n].outputs[0];
    CompileTables(w, prior);
    ReadOperandsTables(w, region[n].inputs, CompileNodes(w, prior));
    assert t !in region[n].inputs;
    assert forall k :: 0 <= k < n ==> prior[k] == region[k];
    assert !Reads(prior, t) && !Writes(prior, t);
  }

  /** One thread of the kernel agrees with the settled state on every register. */
  lemma {:induction false} CompileHolds(w: World, region: seq<Command>, ins: seq<Buffer>, fin: State, lanes: nat,
      o: nat)
    requires Compilable(region) && Settled(w, region, fin) && Shaped(w, region, lanes) && WellSized(w, fin) && o < lanes
    requires ProducersFirst(region)
    requires forall k, j :: 0 <= k < j < |region| ==> region[k].outputs[0] != region[j].outputs[0]
    requires ArgsHold(CompileNodes(w, region), ins, fin)
    ensures RegistersHold(CompileNodes(w, region), ExecBody(w, CompileNodes(w, region).body, ins, o), fin, o)
  {
    if region != [] {
      var n := |region| - 1;
      var prior, cmd := region[..n], region[n];
      var s := CompileNodes(w, prior);
      ReadOperandsPrefix(w, cmd.inputs, s);
      assert ArgsHold(s, ins, fin);
      CompileHolds(w, prior, ins, fin, lanes, o);
      ComputedAnew(w, region);
      CompileNodeHolds(w, cmd, s, ins, fin, lanes, o);
    }
  }
}
