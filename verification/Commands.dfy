/**
 Commands over tensors and what running them does. A tensor's value is its buffer, a sequence
 of scalars; an elementwise operator computes each lane of its output from that lane of its
 inputs, where a one-element input is broadcast. Every other operator is an opaque function
 of its whole inputs.
 */
module Commands {
  type Tensor = nat
  type Scalar = real
  type Buffer = seq<Scalar>
  type State = map<Tensor, Buffer>

  datatype OpKind = BinaryOp | UnaryOp | ReLU | ReLU6 | Eltwise | Raster | OtherOp
  datatype Op = Op(kind: OpKind, attribute: int)

  /** Straight-line code of a generated kernel; registers and kernel arguments are numbered. */
  datatype Instr =
    | Number(dst: nat, value: Scalar)
    | LoadScalar(dst: nat, arg: nat)
    | Load(dst: nat, arg: nat)
    | Compute(dst: nat, op: Op, args: seq<nat>)

  /** Output k of the kernel stores register stores[k]. */
  datatype Kernel = Kernel(body: seq<Instr>, stores: seq<nat>)

  /** What a command runs: an operator, a generated kernel, or nothing (a null op). */
  datatype Action = Plain(op: Op) | Fused(kernel: Kernel) | Erased

  datatype Command = Command(action: Action, inputs: seq<Tensor>, outputs: seq<Tensor>, imageFits: bool)

  /** The fixed facts about a tensor: its element count and, for a constant scalar, its value. */
  datatype Describe = Describe(size: nat, constant: bool, value: Scalar)

  /** Tensor descriptions and the meaning of the operators. */
  datatype World = World(
    describe: Tensor -> Describe,
    scalarFn: (Op, seq<Scalar>) -> Scalar,
    bufferFn: (Op, seq<Buffer>, nat, nat) -> Scalar)

  predicate Elementwise(kind: OpKind) {
    kind == BinaryOp || kind == UnaryOp || kind == ReLU || kind == ReLU6 || kind == Eltwise
  }

  /** `isLegal` for OpenCL and Metal; imageFits is the OpenCL image size limit. */
  predicate IsLegal(cmd: Command) {
    cmd.action.Plain? && Elementwise(cmd.action.op.kind) && cmd.imageFits
  }

  function Get(st: State, t: Tensor): Buffer {
    if t in st then st[t] else []
  }

  function Cell(v: Buffer, o: nat): Scalar {
    if o < |v| then v[o] else 0.0
  }

  /** The scalar that lane o of an elementwise operator reads from buffer v. */
  function Lane(v: Buffer, o: nat): Scalar {
    if |v| == 1 then v[0] else Cell(v, o)
  }

  function LaneArgs(inputs: seq<Tensor>, st: State, o: nat): seq<Scalar> {
    seq(|inputs|, k requires 0 <= k < |inputs| => Lane(Get(st, inputs[k]), o))
  }

  function Args(inputs: seq<Tensor>, st: State): seq<Buffer> {
    seq(|inputs|, k requires 0 <= k < |inputs| => Get(st, inputs[k]))
  }

  type Registers = map<nat, Scalar>

  function Reg(r: Registers, i: nat): Scalar {
    if i in r then r[i] else 0.0
  }

  function RegArgs(r: Registers, args: seq<nat>): seq<Scalar> {
    seq(|args|, k requires 0 <= k < |args| => Reg(r, args[k]))
  }

  function Arg(ins: seq<Buffer>, k: nat): Buffer {
    if k < |ins| then ins[k] else []
  }

  function ExecInstr(w: World, i: Instr, ins: seq<Buffer>, o: nat, r: Registers): Registers {
    match i
    case Number(dst, v) => r[dst := v]
    case LoadScalar(dst, k) => r[dst := Cell(Arg(ins, k), 0)]
    case Load(dst, k) => r[dst := Cell(Arg(ins, k), o)]
    case Compute(dst, op, args) => r[dst := w.scalarFn(op, RegArgs(r, args))]
  }

  /** One thread of the kernel: the body at one offset. */
  function ExecBody(w: World, body: seq<Instr>, ins: seq<Buffer>, o: nat): Registers {
    if body == [] then map[]
    else ExecInstr(w, body[|body| - 1], ins, o, ExecBody(w, body[..|body| - 1], ins, o))
  }

  /** Element o of output k of a command that runs in state st. */
  function OutElement(w: World, cmd: Command, st: State, k: nat, o: nat): Scalar {
    match cmd.action
    case Plain(op) =>
      if Elementwise(op.kind) then w.scalarFn(op, LaneArgs(cmd.inputs, st, o))
      else w.bufferFn(op, Args(cmd.inputs, st), k, o)
    case Fused(kernel) =>
      if k < |kernel.stores| then Reg(ExecBody(w, kernel.body, Args(cmd.inputs, st), o), kernel.stores[k]) else 0.0
    case Erased => 0.0
  }

  function OutBuffer(w: World, cmd: Command, st: State, k: nat): (v: Buffer)
    requires k < |cmd.outputs|
    ensures |v| == w.describe(cmd.outputs[k]).size
  {
    seq(w.describe(cmd.outputs[k]).size, o requires 0 <= o => OutElement(w, cmd, st, k, o))
  }

  function IndexOf(ts: seq<Tensor>, t: Tensor): (k: nat)
    requires t in ts
    ensures k < |ts| && ts[k] == t
  {
    if ts[0] == t then 0 else 1 + IndexOf(ts[1..], t)
  }

  /** A command overwrites its outputs; a command without an op does nothing. */
  function Step(w: World, cmd: Command, st: State): State {
    if cmd.action.Erased? then st
    else
      map t | t in st.Keys + (set t | t in cmd.outputs) ::
        if t in cmd.outputs then OutBuffer(w, cmd, st, IndexOf(cmd.outputs, t)) else st[t]
  }

  /** The state after the first n commands. */
  function RunTo(w: World, cmds: seq<Command>, st: State, n: nat): State
    requires n <= |cmds|
  {
    if n == 0 then st else Step(w, cmds[n - 1], RunTo(w, cmds, st, n - 1))
  }

  function Run(w: World, cmds: seq<Command>, st: State): State {
    RunTo(w, cmds, st, |cmds|)
  }

  lemma StepGet(w: World, cmd: Command, st: State, t: Tensor)
    ensures Get(Step(w, cmd, st), t) ==
      if !cmd.action.Erased? && t in cmd.outputs then OutBuffer(w, cmd, st, IndexOf(cmd.outputs, t)) else Get(st, t)
  {
  }
}
