/**
 `SourceModule::buildKernel` (codegen/SourceModule.cpp:91-162): compiling a region to
 straight-line code, with the kernel's inputs and outputs inferred on the way.
 */
module Kernels {
  import opened Wrappers
  import opened Commands

  /** A scalar constant is written into the code instead of being loaded. */
  predicate Inlined(w: World, t: Tensor) {
    w.describe(t).size == 1 && w.describe(t).constant
  }

  /** What VarScope holds, with the code emitted so far. */
  datatype Scope = Scope(varMap: map<Tensor, nat>, varIdx: nat, used: set<Tensor>, inputs: seq<Tensor>,
    body: seq<Instr>)

  const EmptyScope := Scope(map[], 0, {}, [], [])

  function LoadInstr(w: World, t: Tensor, dst: nat, arg: nat): Instr {
    if Inlined(w, t) then Number(dst, w.describe(t).value)
    else if w.describe(t).size == 1 then LoadScalar(dst, arg)
    else Load(dst, arg)
  }

  /** One operand: its register if it has one, else a fresh register and a load. */
  function ReadOperand(w: World, t: Tensor, s: Scope): Scope {
    if t in s.varMap then s.(used := s.used + {t})
    else Scope(
      s.varMap[t := s.varIdx], s.varIdx + 1, s.used + {t},
      if Inlined(w, t) then s.inputs else s.inputs + [t],
      s.body + [LoadInstr(w, t, s.varIdx, |s.inputs|)])
  }

  function ReadOperands(w: World, ts: seq<Tensor>, s: Scope): (s': Scope)
    ensures forall t :: t in s.varMap ==> t in s'.varMap && s'.varMap[t] == s.varMap[t]
    ensures forall t :: t in ts ==> t in s'.varMap
  {
    if ts == [] then s
    else ReadOperand(w, ts[|ts| - 1], ReadOperands(w, ts[..|ts| - 1], s))
  }

  function RegisterOf(s: Scope, t: Tensor): nat {
    if t in s.varMap then s.varMap[t] else 0
  }

  function OperandRegisters(s: Scope, ts: seq<Tensor>): seq<nat> {
    seq(|ts|, k requires 0 <= k < |ts| => RegisterOf(s, ts[k]))
  }

  /** One node: its operands, then its operator into a fresh register. The map keeps an older entry. */
  function CompileNode(w: World, cmd: Command, s: Scope): Scope
    requires cmd.action.Plain? && cmd.outputs != []
  {
    var s1 := ReadOperands(w, cmd.inputs, s);
    var t := cmd.outputs[0];
    s1.(varMap := if t in s1.varMap then s1.varMap else s1.varMap[t := s1.varIdx],
        varIdx := s1.varIdx + 1,
        body := s1.body + [Compute(s1.varIdx, cmd.action.op, OperandRegisters(s1, cmd.inputs))])
  }

  /** The commands a region may hold: a plain operator with one output. */
  ghost predicate Compilable(region: seq<Command>) {
    forall k :: 0 <= k < |region| ==> region[k].action.Plain? && |region[k].outputs| == 1
  }

  function CompileNodes(w: World, region: seq<Command>): Scope
    requires Compilable(region)
  {
    if region == [] then EmptyScope
    else CompileNode(w, region[|region| - 1], CompileNodes(w, region[..|region| - 1]))
  }

  /** The generator's symbol tables; the code is kept beside them. */
  class VarScope {
    var varIdx: nat
    var varMap: map<Tensor, nat>
    var used: set<Tensor>
    var inputs: seq<Tensor>
    var outputs: seq<Tensor>

    constructor ()
      ensures varIdx == 0 && varMap == map[] && used == {} && inputs == [] && outputs == []
    {
      varIdx, varMap, used, inputs, outputs := 0, map[], {}, [], [];
    }

    ghost predicate Shows(s: Scope)
      reads this
    {
      varIdx == s.varIdx && varMap == s.varMap && used == s.used && inputs == s.inputs
    }

    function HasVar(t: Tensor): bool
      reads this
    {
      t in varMap
    }

    method AddVar(t: Tensor) returns (name: nat)
      modifies this`varIdx, this`varMap
      ensures name == old(varIdx) && varIdx == old(varIdx) + 1
      ensures varMap == if t in old(varMap) then old(varMap) else old(varMap)[t := name]
    {
      name := varIdx;
      varIdx := varIdx + 1;
      if t !in varMap {
        varMap := varMap[t := name];
      }
    }

    method AddInput(t: Tensor) returns (arg: nat)
      modifies this`inputs
      ensures inputs == old(inputs) + [t] && arg == |old(inputs)|
    {
      arg := |inputs|;
      inputs := inputs + [t];
    }

    method SetUse(t: Tensor)
      modifies this`used
      ensures used == old(used) + {t}
    {
      used := used + {t};
    }

    /** The variables that no operand used, in the map's own order. */
    method ComputeOutput()
      modifies this`outputs
      ensures forall t :: t in outputs <==> t in varMap && t !in used
      ensures forall i, j :: 0 <= i < j < |outputs| ==> outputs[i] != outputs[j]
    {
      outputs := [];
      var rest := varMap.Keys;
      while rest != {}
        invariant rest <= varMap.Keys
        invariant forall t :: t in outputs <==> t in varMap && t !in used && t !in rest
        invariant forall i, j :: 0 <= i < j < |outputs| ==> outputs[i] != outputs[j]
        decreases rest
      {
        var t :| t in rest;
        rest := rest - {t};
        if t !in used {
          outputs := outputs + [t];
        }
      }
    }
  }

  /** The kernel of a region, its loaded inputs and its stored outputs. */
  ghost predicate IsKernelOf(w: World, region: seq<Command>, kernel: Kernel, inputs: seq<Tensor>, outputs: seq<Tensor>)
    requires Compilable(region)
  {
    var s := CompileNodes(w, region);
    && kernel.body == s.body && inputs == s.inputs
    && (forall t :: t in outputs <==> t in s.varMap && t !in s.used)
    && (forall i, j :: 0 <= i < j < |outputs| ==> outputs[i] != outputs[j])
    && kernel.stores == OperandRegisters(s, outputs)
  }

  /** The register of one operand, with the code that fills it if it is new. */
  method ReadInput(w: World, t: Tensor, scope: VarScope, body0: seq<Instr>, ghost s: Scope)
    returns (register: nat, body: seq<Instr>)
    requires scope.Shows(s) && body0 == s.body
    modifies scope
    ensures scope.Shows(ReadOperand(w, t, s)) && body == ReadOperand(w, t, s).body
    ensures t in ReadOperand(w, t, s).varMap && register == ReadOperand(w, t, s).varMap[t]
  {
    body := body0;
    if scope.HasVar(t) {
      register := scope.varMap[t];
    } else {
      register := scope.AddVar(t);
      if w.describe(t).size == 1 && w.describe(t).constant {
        body := body + [Number(register, w.describe(t).value)];
      } else if w.describe(t).size == 1 {
        var arg := scope.AddInput(t);
        body := body + [LoadScalar(register, arg)];
      } else {
        var arg := scope.AddInput(t);
        body := body + [Load(register, arg)];
      }
    }
    scope.SetUse(t);
  }

  /** The operands of one command: its register list and the code that fills new registers. */
  method ReadInputs(w: World, inputs: seq<Tensor>, scope: VarScope, body0: seq<Instr>, ghost s0: Scope)
    returns (registers: seq<nat>, body: seq<Instr>)
    requires scope.Shows(s0) && body0 == s0.body
    modifies scope
    ensures scope.Shows(ReadOperands(w, inputs, s0)) && body == ReadOperands(w, inputs, s0).body
    ensures registers == OperandRegisters(ReadOperands(w, inputs, s0), inputs)
  {
    registers, body := [], body0;
    var i := 0;
    assert inputs[..0] == [];
    while i < |inputs|
      invariant 0 <= i <= |inputs| && |registers| == i
      invariant scope.Shows(ReadOperands(w, inputs[..i], s0)) && body == ReadOperands(w, inputs[..i], s0).body
      invariant forall k :: 0 <= k < i ==>
        inputs[k] in ReadOperands(w, inputs[..i], s0).varMap &&
        registers[k] == ReadOperands(w, inputs[..i], s0).varMap[inputs[k]]
    {
      assert inputs[..i + 1][..i] == inputs[..i];
      var register;
      register, body := ReadInput(w, inputs[i], scope, body, ReadOperands(w, inputs[..i], s0));
      registers := registers + [register];
      i := i + 1;
    }
    assert inputs[..i] == inputs;
  }

  /** The code of the nodes in the given order. */
  method EmitNodes(w: World, region: seq<Command>, scope: VarScope) returns (body: seq<Instr>)
    requires Compilable(region) && scope.Shows(CompileNodes(w, []))
    modifies scope
    ensures scope.Shows(CompileNodes(w, region)) && body == CompileNodes(w, region).body
  {
    body := [];
    var n := 0;
    assert region[..0] == [];
    while n < |region|
      invariant 0 <= n <= |region|
      invariant scope.Shows(CompileNodes(w, region[..n])) && body == CompileNodes(w, region[..n]).body
    {
      var cmd := region[n];
      assert region[..n + 1][..n] == region[..n];
      var registers;
      registers, body := ReadInputs(w, cmd.inputs, scope, body, CompileNodes(w, region[..n]));
      var tmpVar := scope.AddVar(cmd.outputs[0]);
      body := body + [Compute(tmpVar, cmd.action.op, registers)];
      n := n + 1;
    }
    assert region[..n] == region;
  }

  /** The registers of the outputs. */
  method ListStores(scope: VarScope, outputs: seq<Tensor>, ghost s: Scope) returns (stores: seq<nat>)
    requires scope.Shows(s) && forall t :: t in outputs ==> t in s.varMap
    ensures stores == OperandRegisters(s, outputs)
  {
    stores := [];
    var k := 0;
    while k < |outputs|
      invariant 0 <= k <= |outputs| && |stores| == k
      invariant forall j :: 0 <= j < k ==> stores[j] == RegisterOf(s, outputs[j])
    {
      assert outputs[k] in outputs;
      stores := stores + [scope.varMap[outputs[k]]];
      k := k + 1;
    }
  }

  method BuildKernel(w: World, region: seq<Command>) returns (kernel: Kernel, inputs: seq<Tensor>, outputs: seq<Tensor>)
    requires Compilable(region)
    ensures IsKernelOf(w, region, kernel, inputs, outputs)
  {
    var scope := new VarScope();
    var body := EmitNodes(w, region, scope);
    scope.ComputeOutput();
    inputs, outputs := scope.inputs, scope.outputs;
    var stores := ListStores(scope, outputs, CompileNodes(w, region));
    kernel := Kernel(body, stores);
  }
}
