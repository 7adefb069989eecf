/**
 Saving variables as a list of operators with tensor numbers, and loading them again
 (express/Expr.cpp:1022-1060, 1131-1224): the loaded graph is the saved one, renumbered.
 */
module SaveLoad {
  import opened Wrappers
  import opened ExprModel
  import opened Sessions
  import opened ExprGraphs
  import opened ExprCreate
  import opened ExecuteOrder

  /** A saved operator; data is the contents of constants and parameters, dims the shape of leaves. */
  datatype OpT = OpT(op: Option<nat>, kind: LeafType, data: Option<seq<real>>, dims: Shape, inputIndexes: seq<nat>,
    outputIndexes: seq<nat>)

  datatype NetT = NetT(oplists: seq<OpT>, tensorCount: nat)

  // ---------------------------------------------------------------- numbering

  /** The number of the first output of the k-th expression saved. */
  function TensorOffset(nodes: Nodes, order: seq<nat>, k: nat): nat
    requires k <= |order| && InGraph(nodes, order)
  {
    if k == 0 then 0 else TensorOffset(nodes, order, k - 1) + nodes[order[k - 1]].outputs
  }

  predicate InGraph(nodes: Nodes, order: seq<nat>) {
    forall k :: 0 <= k < |order| ==> order[k] < |nodes|
  }

  lemma SortedInGraph(nodes: Nodes, order: seq<nat>)
    requires Sorted(nodes, order)
    ensures InGraph(nodes, order)
  {
    forall k: nat | k < |order| ensures order[k] < |nodes| {
      assert InputsBefore(nodes, order, k);
    }
  }

  lemma {:induction false} OffsetRises(nodes: Nodes, order: seq<nat>, i: nat, j: nat)
    requires InGraph(nodes, order) && i < j <= |order|
    ensures TensorOffset(nodes, order, i) + nodes[order[i]].outputs <= TensorOffset(nodes, order, j)
    decreases j
  {
    if i < j - 1 {
      OffsetRises(nodes, order, i, j - 1);
    }
  }

  /** Index t is the number of port p, which the j-th expression has. */
  ghost predicate IsNumber(nodes: Nodes, order: seq<nat>, t: nat, p: Port, j: nat)
    requires InGraph(nodes, order)
  {
    j < |order| && order[j] == p.expr && t == TensorOffset(nodes, order, j) + p.index && p.index < nodes[p.expr].outputs
  }

  /** Numbers of outputs are consecutive; numbers of inputs are those of earlier outputs. */
  ghost predicate RecordOk(nodes: Nodes, values: seq<Value>, order: seq<nat>, op: OpT, k: nat)
    requires InGraph(nodes, order) && |values| == |nodes| && k < |order|
  {
    var e := order[k];
    && op.op == nodes[e].op && op.kind == nodes[e].kind && op.dims == values[e].dims
    && op.data == (if IsLeaf(nodes, e) && nodes[e].kind != Input then Some(values[e].data) else None)
    && |op.outputIndexes| == nodes[e].outputs && |op.inputIndexes| == |nodes[e].inputs|
    && (forall v :: 0 <= v < |op.outputIndexes| ==> op.outputIndexes[v] == TensorOffset(nodes, order, k) + v)
    && (forall i :: 0 <= i < |op.inputIndexes| ==> InputOk(nodes, order, op.inputIndexes[i], nodes[e].inputs[i], k))
  }

  ghost predicate InputOk(nodes: Nodes, order: seq<nat>, t: nat, p: Port, k: nat)
    requires InGraph(nodes, order)
  {
    exists j: nat :: j < k && IsNumber(nodes, order, t, p, j)
  }

  ghost predicate RecordAt(nodes: Nodes, values: seq<Value>, order: seq<nat>, oplists: seq<OpT>, k: nat)
    requires InGraph(nodes, order) && |values| == |nodes| && k < |order| && k < |oplists|
  {
    RecordOk(nodes, values, order, oplists[k], k)
  }

  ghost predicate Saved(nodes: Nodes, values: seq<Value>, order: seq<nat>, net: NetT)
    requires |values| == |nodes|
  {
    && InGraph(nodes, order) && |net.oplists| == |order| && net.tensorCount == TensorOffset(nodes, order, |order|)
    && forall k: nat :: k < |order| ==> RecordAt(nodes, values, order, net.oplists, k)
  }

  // ---------------------------------------------------------------- saving

  /** varIndexInfo: where each expression's outputs start. */
  method NumberTensors(g: ExprGraph, order: seq<nat>) returns (varIndexInfo: map<nat, nat>, tensorOffset: nat)
    requires InGraph(g.nodes, order) && Distinct(order)
    ensures tensorOffset == TensorOffset(g.nodes, order, |order|)
    ensures Indexed(g.nodes, order, varIndexInfo)
  {
    varIndexInfo, tensorOffset := map[], 0;
    for i := 0 to |order|
      invariant tensorOffset == TensorOffset(g.nodes, order, i)
      invariant forall k: nat :: k < i ==> IndexedAt(g.nodes, order, varIndexInfo, k)
    {
      ghost var before := varIndexInfo;
      varIndexInfo := varIndexInfo[order[i] := tensorOffset];
      forall k: nat | k < i + 1 ensures IndexedAt(g.nodes, order, varIndexInfo, k) {
        assert k < i ==> IndexedAt(g.nodes, order, before, k);
      }
      tensorOffset := tensorOffset + g.nodes[order[i]].outputs;
    }
  }

  ghost predicate Indexed(nodes: Nodes, order: seq<nat>, varIndexInfo: map<nat, nat>)
    requires InGraph(nodes, order)
  {
    forall j: nat :: j < |order| ==> IndexedAt(nodes, order, varIndexInfo, j)
  }

  ghost predicate IndexedAt(nodes: Nodes, order: seq<nat>, varIndexInfo: map<nat, nat>, j: nat)
    requires InGraph(nodes, order) && j < |order|
  {
    order[j] in varIndexInfo && varIndexInfo[order[j]] == TensorOffset(nodes, order, j)
  }

  lemma InputNumbered(nodes: Nodes, order: seq<nat>, varIndexInfo: map<nat, nat>, k: nat, i: nat)
    requires Acyclic(nodes) && Sorted(nodes, order) && InGraph(nodes, order) && k < |order|
    requires Indexed(nodes, order, varIndexInfo)
    requires i < |nodes[order[k]].inputs|
    ensures var p := nodes[order[k]].inputs[i];
      p.expr in varIndexInfo && InputOk(nodes, order, varIndexInfo[p.expr] + p.index, p, k)
  {
    assert InputsBefore(nodes, order, k) && NodeOk(nodes, order[k]);
    var p := nodes[order[k]].inputs[i];
    var j: nat :| j < k && order[..k][j] == p.expr;
    assert order[j] == p.expr && IsPort(nodes, p) && IndexedAt(nodes, order, varIndexInfo, j);
    assert IsNumber(nodes, order, varIndexInfo[p.expr] + p.index, p, j);
  }

  /** The numbers of the inputs of the k-th expression. */
  method SaveInputs(nodes: Nodes, order: seq<nat>, varIndexInfo: map<nat, nat>, k: nat) returns (inputIndexes: seq<nat>)
    requires Acyclic(nodes) && Sorted(nodes, order) && InGraph(nodes, order) && k < |order|
    requires Indexed(nodes, order, varIndexInfo)
    ensures |inputIndexes| == |nodes[order[k]].inputs|
    ensures forall i :: 0 <= i < |inputIndexes| ==> InputOk(nodes, order, inputIndexes[i], nodes[order[k]].inputs[i], k)
  {
    var inputs := nodes[order[k]].inputs;
    inputIndexes := [];
    for i := 0 to |inputs|
      invariant |inputIndexes| == i
      invariant forall n :: 0 <= n < i ==> InputOk(nodes, order, inputIndexes[n], inputs[n], k)
    {
      InputNumbered(nodes, order, varIndexInfo, k, i);
      inputIndexes := inputIndexes + [varIndexInfo[inputs[i].expr] + inputs[i].index];
    }
  }

  /** One record. */
  method SaveOp(nodes: Nodes, values: seq<Value>, order: seq<nat>, varIndexInfo: map<nat, nat>, k: nat)
    returns (op: OpT)
    requires Acyclic(nodes) && |values| == |nodes|
    requires Sorted(nodes, order) && InGraph(nodes, order) && k < |order| && Indexed(nodes, order, varIndexInfo)
    ensures RecordOk(nodes, values, order, op, k)
  {
    assert IndexedAt(nodes, order, varIndexInfo, k);
    var inputIndexes := SaveInputs(nodes, order, varIndexInfo, k);
    var e := order[k];
    var offset := varIndexInfo[e];
    var outputIndexes := seq<nat>(nodes[e].outputs, v requires 0 <= v => offset + v);
    var data := if IsLeaf(nodes, e) && nodes[e].kind != Input then Some(values[e].data) else None;
    op := OpT(nodes[e].op, nodes[e].kind, data, values[e].dims, inputIndexes, outputIndexes);
  }

  /** All records, in execution order. */
  method SaveOps(nodes: Nodes, values: seq<Value>, order: seq<nat>, varIndexInfo: map<nat, nat>)
    returns (oplists: seq<OpT>)
    requires Acyclic(nodes) && |values| == |nodes|
    requires Sorted(nodes, order) && InGraph(nodes, order) && Indexed(nodes, order, varIndexInfo)
    ensures |oplists| == |order| && forall k: nat :: k < |order| ==> RecordAt(nodes, values, order, oplists, k)
  {
    oplists := [];
    for k := 0 to |order|
      invariant |oplists| == k && forall n: nat :: n < k ==> RecordAt(nodes, values, order, oplists, n)
    {
      ghost var before := oplists;
      var op := SaveOp(nodes, values, order, varIndexInfo, k);
      oplists := oplists + [op];
      forall n: nat | n < k + 1 ensures RecordAt(nodes, values, order, oplists, n) {
        assert n < k ==> RecordAt(nodes, values, order, before, n);
      }
    }
  }

  /** Saves everything that vars need. */
  method Save(g: ExprGraph, vars: seq<nat>) returns (net: NetT, ghost order: seq<nat>)
    requires g.Valid() && forall e :: e in vars ==> e < |g.nodes|
    modifies g`visited
    ensures g.Valid() && Sorted(g.nodes, order) && Saved(g.nodes, g.values, order, net)
    ensures forall e: nat :: e in order <==> Wanted(g.nodes, vars, e)
  {
    var executeOrder := GetExecuteOrder(g, vars);
    order := executeOrder;
    SortedInGraph(g.nodes, order);
    var varIndexInfo, tensorOffset := NumberTensors(g, executeOrder);
    var oplists := SaveOps(g.nodes, g.values, executeOrder, varIndexInfo);
    net := NetT(oplists, tensorOffset);
  }

  // ---------------------------------------------------------------- loading

  /** Loaded expression j is expression order[j], with its inputs renumbered. */
  ghost predicate NodeCopied(nodes: Nodes, order: seq<nat>, nodes2: Nodes, j: nat)
    requires InGraph(nodes, order) && j < |order| && j < |nodes2|
  {
    var e := order[j];
    && nodes2[j].op == nodes[e].op && nodes2[j].kind == nodes[e].kind && nodes2[j].outputs == nodes[e].outputs
    && |nodes2[j].inputs| == |nodes[e].inputs|
    && forall i :: 0 <= i < |nodes[e].inputs| ==> PortCopied(order, nodes[e].inputs[i], nodes2[j].inputs[i], j)
  }

  ghost predicate PortCopied(order: seq<nat>, p: Port, q: Port, j: nat) {
    q.expr < j && q.expr < |order| && order[q.expr] == p.expr && q.index == p.index
  }

  /** The first n loaded expressions are copies. */
  ghost predicate Copied(nodes: Nodes, order: seq<nat>, nodes2: Nodes, n: nat)
    requires InGraph(nodes, order) && n <= |order|
  {
    |nodes2| == n && forall j: nat :: j < n ==> NodeCopied(nodes, order, nodes2, j)
  }

  /** Contents and shapes of the copies; the contents of INPUT leaves are not saved, and an unknown batch becomes 1. */
  ghost predicate ContentsCopied(nodes: Nodes, values: seq<Value>, order: seq<nat>, values2: seq<Value>, j: nat)
    requires InGraph(nodes, order) && |values| == |nodes| && j < |order| && j < |values2|
  {
    var e := order[j];
    IsLeaf(nodes, e) ==>
      && (nodes[e].kind != Input ==> values2[j] == values[e])
      && (nodes[e].kind == Input ==> values2[j].dims == KnownBatch(values[e].dims))
  }

  function KnownBatch(dims: Shape): Shape {
    if |dims| >= 1 && dims[0] == -1 then dims[0 := 1] else dims
  }

  /** Variable t of the first n expressions is tensor t. */
  ghost predicate Numbered(nodes: Nodes, order: seq<nat>, variable: seq<Port>, variableMap: map<nat, Port>, n: nat)
    requires InGraph(nodes, order) && n <= |order|
  {
    && |variable| == TensorOffset(nodes, order, n)
    && (forall t: nat :: t in variableMap <==> t < |variable|)
    && (forall t: nat :: t < |variable| ==> variableMap[t] == variable[t])
    && (forall j: nat, v: nat :: j < n && v < nodes[order[j]].outputs ==> NumberedAt(nodes, order, variable, j, v))
  }

  ghost predicate NumberedAt(nodes: Nodes, order: seq<nat>, variable: seq<Port>, j: nat, v: nat)
    requires InGraph(nodes, order) && j < |order|
  {
    TensorOffset(nodes, order, j) + v < |variable| && variable[TensorOffset(nodes, order, j) + v] == Port(j, v)
  }

  /** The inputs of a record: variables of expressions loaded before. */
  method LoadInputs(op: OpT, variableMap: map<nat, Port>, ghost nodes: Nodes, ghost order: seq<nat>,
      ghost variable: seq<Port>, ghost k: nat)
    returns (inputs: seq<Port>)
    requires InGraph(nodes, order) && k < |order| && Numbered(nodes, order, variable, variableMap, k)
    requires |op.inputIndexes| == |nodes[order[k]].inputs|
    requires forall i :: 0 <= i < |op.inputIndexes| ==>
      InputOk(nodes, order, op.inputIndexes[i], nodes[order[k]].inputs[i], k)
    ensures |inputs| == |op.inputIndexes|
    ensures forall i :: 0 <= i < |inputs| ==>
      PortCopied(order, nodes[order[k]].inputs[i], inputs[i], k) &&
      inputs[i].index < nodes[order[inputs[i].expr]].outputs
  {
    inputs := [];
    for i := 0 to |op.inputIndexes|
      invariant |inputs| == i
      invariant forall n :: 0 <= n < i ==>
        PortCopied(order, nodes[order[k]].inputs[n], inputs[n], k) &&
        inputs[n].index < nodes[order[inputs[n].expr]].outputs
    {
      ghost var p := nodes[order[k]].inputs[i];
      ghost var j: nat :| j < k && IsNumber(nodes, order, op.inputIndexes[i], p, j);
      assert NumberedAt(nodes, order, variable, j, p.index);
      if op.inputIndexes[i] !in variableMap {
        break;
      }
      inputs := inputs + [variableMap[op.inputIndexes[i]]];
    }
  }

  /** Variables for the outputs of a record that have none yet. */
  method NewVariables(op: OpT, variable0: seq<Port>, variableMap0: map<nat, Port>, k: nat, ghost nodes: Nodes,
      ghost order: seq<nat>)
    returns (variable: seq<Port>, variableMap: map<nat, Port>)
    requires InGraph(nodes, order) && k < |order| && Numbered(nodes, order, variable0, variableMap0, k)
    requires |op.outputIndexes| == nodes[order[k]].outputs
    requires forall v :: 0 <= v < |op.outputIndexes| ==> op.outputIndexes[v] == TensorOffset(nodes, order, k) + v
    ensures Numbered(nodes, order, variable, variableMap, k + 1)
  {
    variable, variableMap := variable0, variableMap0;
    for v := 0 to |op.outputIndexes|
      invariant |variable| == TensorOffset(nodes, order, k) + v && variable0 <= variable
      invariant forall t: nat :: t in variableMap <==> t < |variable|
      invariant forall t: nat :: t < |variable| ==> variableMap[t] == variable[t]
      invariant forall n: nat :: n < v ==> NumberedAt(nodes, order, variable, k, n)
    {
      ghost var before := variable;
      if op.outputIndexes[v] !in variableMap {
        variableMap := variableMap[op.outputIndexes[v] := Port(k, v)];
        variable := variable + [Port(k, v)];
      }
      forall n: nat | n < v + 1 ensures NumberedAt(nodes, order, variable, k, n) {
        assert n < v ==> NumberedAt(nodes, order, before, k, n);
      }
    }
    forall j: nat, v: nat | j < k + 1 && v < nodes[order[j]].outputs ensures NumberedAt(nodes, order, variable, j, v) {
      assert j < k ==> NumberedAt(nodes, order, variable0, j, v);
    }
  }

  /** The node that loading a record makes. */
  lemma LoadedNode(nodes: Nodes, order: seq<nat>, nodes2: Nodes, node: Node, k: nat)
    requires Acyclic(nodes) && InGraph(nodes, order) && k < |order| && Copied(nodes, order, nodes2, k)
    requires NodeCopied(nodes, order, nodes2 + [node], k)
    ensures Copied(nodes, order, nodes2 + [node], k + 1)
  {
    forall j: nat | j < k + 1 ensures NodeCopied(nodes, order, nodes2 + [node], j) {
      if j < k {
        assert NodeCopied(nodes, order, nodes2, j);
      }
    }
  }

  /** The inputs of a record name outputs that the loaded graph has. */
  lemma PortsLoaded(nodes: Nodes, order: seq<nat>, nodes2: Nodes, inputs: seq<Port>, k: nat)
    requires InGraph(nodes, order) && k < |order| && Copied(nodes, order, nodes2, k)
    requires |inputs| == |nodes[order[k]].inputs|
    requires forall i :: 0 <= i < |inputs| ==>
      PortCopied(order, nodes[order[k]].inputs[i], inputs[i], k) &&
      inputs[i].index < nodes[order[inputs[i].expr]].outputs
    ensures forall i :: 0 <= i < |inputs| ==> IsPort(nodes2, inputs[i])
  {
    forall i | 0 <= i < |inputs| ensures IsPort(nodes2, inputs[i]) {
      assert PortCopied(order, nodes[order[k]].inputs[i], inputs[i], k);
      assert NodeCopied(nodes, order, nodes2, inputs[i].expr);
    }
  }

  /** One record: a leaf, or an operator on variables loaded before. */
  method LoadOp(g: ExprGraph, op: OpT, inputs: seq<Port>, memory: seq<real>, ghost nodes: Nodes,
      ghost values: seq<Value>, ghost order: seq<nat>, ghost k: nat)
    requires g.Valid() && Acyclic(nodes) && InGraph(nodes, order) && k < |order| && |values| == |nodes|
    requires Copied(nodes, order, g.nodes, k) && RecordOk(nodes, values, order, op, k)
    requires |inputs| == |op.inputIndexes|
    requires forall i :: 0 <= i < |inputs| ==>
      PortCopied(order, nodes[order[k]].inputs[i], inputs[i], k) &&
      inputs[i].index < nodes[order[inputs[i].expr]].outputs
    modifies g
    ensures g.Valid() && (old(g.Sound()) ==> g.Sound()) && Copied(nodes, order, g.nodes, k + 1)
    ensures old(g.values) <= g.values
    ensures ContentsCopied(nodes, values, order, g.values, k)
  {
    assert NodeOk(nodes, order[k]);
    PortsLoaded(nodes, order, g.nodes, inputs, k);
    if op.op.None? {
      var dims := if op.kind == Input then KnownBatch(op.dims) else op.dims;
      LoadedNode(nodes, order, g.nodes, Node(None, [], 1, op.kind), k);
      CreateLeaf(g, op.kind, dims, op.data, memory);
    } else {
      LoadedNode(nodes, order, g.nodes, Node(op.op, inputs, |op.outputIndexes|, Input), k);
      CreateExpr(g, op.op.value, inputs, |op.outputIndexes|);
    }
  }

  /** The loaded graph is a copy of what was saved: same operators, inputs, contents and shapes. */
  ghost predicate Loaded(nodes: Nodes, values: seq<Value>, order: seq<nat>, g: ExprGraph, n: nat)
    requires InGraph(nodes, order) && |values| == |nodes| && n <= |order|
    reads g
  {
    && g.Valid() && g.Sound() && Copied(nodes, order, g.nodes, n)
    && forall j: nat :: j < n ==> ContentsCopied(nodes, values, order, g.values, j)
  }

  /** Loads the records one by one. */
  method LoadStep(g: ExprGraph, net: NetT, k: nat, variable0: seq<Port>, variableMap0: map<nat, Port>,
      memory: seq<real>,
      ghost nodes: Nodes, ghost values: seq<Value>, ghost order: seq<nat>)
      returns (variable: seq<Port>, variableMap: map<nat, Port>)
    requires Acyclic(nodes) && |values| == |nodes| && Saved(nodes, values, order, net) && k < |order|
    requires Loaded(nodes, values, order, g, k) && Numbered(nodes, order, variable0, variableMap0, k)
    modifies g
    ensures Loaded(nodes, values, order, g, k + 1) && Numbered(nodes, order, variable, variableMap, k + 1)
  {
    assert RecordAt(nodes, values, order, net.oplists, k);
    ghost var values0 := g.values;
    var op := net.oplists[k];
    var inputs := LoadInputs(op, variableMap0, nodes, order, variable0, k);
    LoadOp(g, op, inputs, memory, nodes, values, order, k);
    forall j: nat | j < k + 1 ensures ContentsCopied(nodes, values, order, g.values, j) {
      assert j < k ==> ContentsCopied(nodes, values, order, values0, j);
    }
    variable, variableMap := NewVariables(op, variable0, variableMap0, k, nodes, order);
  }

  /** Loads a saved net: variable t is tensor t. */
  method Load(sem: Semantics, net: NetT, memory: seq<real>, ghost nodes: Nodes, ghost values: seq<Value>,
      ghost order: seq<nat>)
    returns (g: ExprGraph, variable: seq<Port>)
    requires Acyclic(nodes) && |values| == |nodes| && Saved(nodes, values, order, net)
    ensures fresh(g) && g.sem == sem && Loaded(nodes, values, order, g, |order|) && |variable| == net.tensorCount
    ensures forall j: nat, v: nat :: j < |order| && v < nodes[order[j]].outputs ==>
      NumberedAt(nodes, order, variable, j, v)
  {
    g := new ExprGraph(sem);
    variable := [];
    var variableMap: map<nat, Port> := map[];
    for k := 0 to |net.oplists|
      invariant fresh(g) && g.sem == sem && Loaded(nodes, values, order, g, k)
      invariant Numbered(nodes, order, variable, variableMap, k)
    {
      variable, variableMap := LoadStep(g, net, k, variable, variableMap, memory, nodes, values, order);
    }
  }

  /** Saving and loading gives a copy of everything that vars need, and leaves the saved graph as it was. */
  method RoundTrip(g: ExprGraph, vars: seq<nat>, memory: seq<real>)
    returns (g2: ExprGraph, variable: seq<Port>, ghost order: seq<nat>)
    requires g.Valid() && forall e :: e in vars ==> e < |g.nodes|
    modifies g`visited
    ensures g.Valid() && fresh(g2) && InGraph(g.nodes, order)
    ensures Loaded(g.nodes, g.values, order, g2, |order|)
    ensures forall e: nat :: e in order <==> Wanted(g.nodes, vars, e)
    ensures |variable| == TensorOffset(g.nodes, order, |order|)
    ensures forall j: nat, v: nat :: j < |order| && v < g.nodes[order[j]].outputs ==>
      NumberedAt(g.nodes, order, variable, j, v)
  {
    var net;
    net, order := Save(g, vars);
    g2, variable := Load(g.sem, net, memory, g.nodes, g.values, order);
  }

  // ---------------------------------------------------------------- meaning

  /** Copies mean the same once the INPUT leaves hold the same. */
  lemma {:induction false} CopyMeansTheSame<T>(f: (nat, seq<T>, nat) -> T, nodes: Nodes, values: seq<T>,
      order: seq<nat>, nodes2: Nodes, values2: seq<T>, j: nat, v: nat)
    requires Acyclic(nodes) && Acyclic(nodes2) && |values| == |nodes| && |values2| == |nodes2|
    requires InGraph(nodes, order) && Copied(nodes, order, nodes2, |order|)
    requires forall i: nat :: i < |order| ==> IsLeaf(nodes, order[i]) ==> values2[i] == values[order[i]]
    requires j < |order| && v < nodes[order[j]].outputs
    ensures IsPort(nodes2, Port(j, v))
    ensures Den(f, nodes2, values2, Port(j, v)) == Den(f, nodes, values, Port(order[j], v))
    decreases j, 1, 0
  {
    assert NodeCopied(nodes, order, nodes2, j);
    if !IsLeaf(nodes, order[j]) {
      PrefixMeansTheSame(f, nodes, values, order, nodes2, values2, j, |nodes[order[j]].inputs|);
    }
  }

  lemma {:induction false} PrefixMeansTheSame<T>(f: (nat, seq<T>, nat) -> T, nodes: Nodes, values: seq<T>,
      order: seq<nat>, nodes2: Nodes, values2: seq<T>, j: nat, n: nat)
    requires Acyclic(nodes) && Acyclic(nodes2) && |values| == |nodes| && |values2| == |nodes2|
    requires InGraph(nodes, order) && Copied(nodes, order, nodes2, |order|)
    requires forall i: nat :: i < |order| ==> IsLeaf(nodes, order[i]) ==> values2[i] == values[order[i]]
    requires j < |order| && n <= |nodes[order[j]].inputs|
    ensures NodeCopied(nodes, order, nodes2, j)
    ensures DenPrefix(f, nodes2, values2, j, n) == DenPrefix(f, nodes, values, order[j], n)
    decreases j, 0, n
  {
    assert NodeCopied(nodes, order, nodes2, j) && NodeOk(nodes, order[j]);
    if n > 0 {
      var p, q := nodes[order[j]].inputs[n - 1], nodes2[j].inputs[n - 1];
      assert PortCopied(order, p, q, j);
      PrefixMeansTheSame(f, nodes, values, order, nodes2, values2, j, n - 1);
      CopyMeansTheSame(f, nodes, values, order, nodes2, values2, q.expr, q.index);
    }
  }
}
