/**
 The lazy expression graph (express/Expr.cpp, express/Utils.hpp) as values: what an expression
 denotes, what its shape is when inferred from scratch, and what it depends on. Expressions are
 numbered in creation order, so that inputs have smaller numbers.
 */
module ExprModel {
  import opened Wrappers

  type Shape = seq<int>

  /** A tensor's contents, with the dimensions they were made for. */
  datatype Value = Value(dims: Shape, data: seq<real>)

  /** Output `index` of expression `expr`; a Variable. */
  datatype Port = Port(expr: nat, index: nat)

  datatype LeafType = Input | Constant | Trainable

  /** What is fixed when an expression is created; leaves have no operator, and operators are never constants. */
  datatype Node = Node(op: Option<nat>, inputs: seq<Port>, outputs: nat, kind: LeafType)

  type Nodes = seq<Node>

  function Dims(vs: seq<Value>): (shapes: seq<Shape>)
    ensures |shapes| == |vs| && forall i :: 0 <= i < |vs| ==> shapes[i] == vs[i].dims
  {
    seq(|vs|, i requires 0 <= i < |vs| => vs[i].dims)
  }

  /**
   Operators as functions of their inputs. An operator is prepared for inputs of some sizes before it
   runs; apply takes these sizes, the inputs it then gets, and an output's index.
   */
  datatype Semantics = Semantics(
    apply: (nat, seq<Shape>, seq<Value>, nat) -> seq<real>,
    inferable: (nat, seq<Shape>) -> bool,
    infer: (nat, seq<Shape>, nat) -> Shape)
  {
    /** Output k of an operator that was prepared for `sizes` and runs on vs. */
    function Exec(op: nat, sizes: seq<Shape>, vs: seq<Value>, k: nat): Value {
      Value(infer(op, sizes, k), apply(op, sizes, vs, k))
    }

    /** Operators prepared for the very inputs they get. */
    function Whole(): (nat, seq<Value>, nat) -> Value {
      (op: nat, vs: seq<Value>, k: nat) => Exec(op, Dims(vs), vs, k)
    }
  }

  predicate IsPort(nodes: Nodes, p: Port) {
    p.expr < |nodes| && p.index < nodes[p.expr].outputs
  }

  /** Expression e is among the first n inputs. */
  ghost predicate Among(inputs: seq<Port>, n: nat, e: nat) {
    exists k: nat :: k < n && k < |inputs| && inputs[k].expr == e
  }

  predicate IsLeaf(nodes: Nodes, e: nat)
    requires e < |nodes|
  {
    nodes[e].op.None?
  }

  ghost predicate NodeOk(nodes: Nodes, e: nat)
    requires e < |nodes|
  {
    && (if IsLeaf(nodes, e) then nodes[e].inputs == [] && nodes[e].outputs == 1 else nodes[e].kind.Input?)
    && forall i :: 0 <= i < |nodes[e].inputs| ==> nodes[e].inputs[i].expr < e && IsPort(nodes, nodes[e].inputs[i])
  }

  ghost predicate Acyclic(nodes: Nodes) {
    forall e: nat :: e < |nodes| ==> NodeOk(nodes, e)
  }

  // ---------------------------------------------------------------- meaning

  /**
   The value of p computed from scratch from the leaves' current contents, where f gives the
   outputs of an operator. With shapes for contents this is shape inference from scratch.
   */
  ghost function Den<T>(f: (nat, seq<T>, nat) -> T, nodes: Nodes, values: seq<T>, p: Port): T
    requires Acyclic(nodes) && |values| == |nodes| && IsPort(nodes, p)
    decreases p.expr, 1, 0
  {
    if IsLeaf(nodes, p.expr) then values[p.expr]
    else
      assert NodeOk(nodes, p.expr);
      f(nodes[p.expr].op.value, DenPrefix(f, nodes, values, p.expr, |nodes[p.expr].inputs|), p.index)
  }

  /** The values of the first n inputs of e. */
  ghost function DenPrefix<T>(f: (nat, seq<T>, nat) -> T, nodes: Nodes, values: seq<T>, e: nat, n: nat): (vs: seq<T>)
    requires Acyclic(nodes) && |values| == |nodes| && e < |nodes| && n <= |nodes[e].inputs|
    ensures |vs| == n
    decreases e, 0, n
  {
    if n == 0 then []
    else
      assert NodeOk(nodes, e);
      DenPrefix(f, nodes, values, e, n - 1) + [Den(f, nodes, values, nodes[e].inputs[n - 1])]
  }

  lemma {:induction false} DenPrefixAt<T>(f: (nat, seq<T>, nat) -> T, nodes: Nodes, values: seq<T>, e: nat, n: nat,
      i: nat)
    requires Acyclic(nodes) && |values| == |nodes| && e < |nodes| && i < n <= |nodes[e].inputs|
    ensures NodeOk(nodes, e) && DenPrefix(f, nodes, values, e, n)[i] == Den(f, nodes, values, nodes[e].inputs[i])
  {
    assert NodeOk(nodes, e);
    if i < n - 1 {
      DenPrefixAt(f, nodes, values, e, n - 1, i);
    }
  }

  /** Shape inference from scratch succeeds for e. */
  ghost predicate HasShape(sem: Semantics, nodes: Nodes, shapes: seq<Shape>, e: nat)
    requires Acyclic(nodes) && |shapes| == |nodes| && e < |nodes|
    decreases e
  {
    IsLeaf(nodes, e) || (
      && NodeOk(nodes, e)
      && (forall i: nat :: i < |nodes[e].inputs| ==> HasShape(sem, nodes, shapes, nodes[e].inputs[i].expr))
      && sem.inferable(nodes[e].op.value, DenPrefix(sem.infer, nodes, shapes, e, |nodes[e].inputs|)))
  }

  /** The value computed from scratch has the shape inferred from scratch. */
  lemma {:induction false} DenDims(sem: Semantics, nodes: Nodes, values: seq<Value>, shapes: seq<Shape>, p: Port)
    requires Acyclic(nodes) && |values| == |nodes| && shapes == Dims(values) && IsPort(nodes, p)
    ensures Den(sem.Whole(), nodes, values, p).dims == Den(sem.infer, nodes, shapes, p)
    decreases p.expr, 1, 0
  {
    if !IsLeaf(nodes, p.expr) {
      DenPrefixDims(sem, nodes, values, shapes, p.expr, |nodes[p.expr].inputs|);
    }
  }

  lemma {:induction false} DenPrefixDims(sem: Semantics, nodes: Nodes, values: seq<Value>, shapes: seq<Shape>, e: nat,
      n: nat)
    requires Acyclic(nodes) && |values| == |nodes| && shapes == Dims(values)
    requires e < |nodes| && n <= |nodes[e].inputs|
    ensures Dims(DenPrefix(sem.Whole(), nodes, values, e, n)) == DenPrefix(sem.infer, nodes, shapes, e, n)
    decreases e, 0, n
  {
    if n > 0 {
      assert NodeOk(nodes, e);
      DenPrefixDims(sem, nodes, values, shapes, e, n - 1);
      DenDims(sem, nodes, values, shapes, nodes[e].inputs[n - 1]);
    }
  }

  /** What an expression with a shape depends on has a shape. */
  lemma {:induction false} HasShapeBelow(sem: Semantics, nodes: Nodes, shapes: seq<Shape>, e: nat, d: nat)
    requires Acyclic(nodes) && |shapes| == |nodes| && e < |nodes| && d < |nodes|
    requires HasShape(sem, nodes, shapes, e) && DependsOn(nodes, e, d)
    ensures HasShape(sem, nodes, shapes, d)
    decreases e
  {
    var i: nat :| i < |nodes[e].inputs| && InputLeadsTo(nodes, e, i, d);
    if nodes[e].inputs[i].expr != d {
      HasShapeBelow(sem, nodes, shapes, nodes[e].inputs[i].expr, d);
    }
  }

  /** Expression e has leaf or expression d among its transitive inputs. */
  ghost predicate DependsOn(nodes: Nodes, e: nat, d: nat)
    requires Acyclic(nodes)
    decreases e
  {
    e < |nodes| && NodeOk(nodes, e) &&
    exists i: nat :: i < |nodes[e].inputs| && InputLeadsTo(nodes, e, i, d)
  }

  ghost predicate InputLeadsTo(nodes: Nodes, e: nat, i: nat, d: nat)
    requires Acyclic(nodes) && e < |nodes| && NodeOk(nodes, e) && i < |nodes[e].inputs|
    decreases e, 0
  {
    nodes[e].inputs[i].expr == d || DependsOn(nodes, nodes[e].inputs[i].expr, d)
  }

  lemma {:induction false} DependsTransitive(nodes: Nodes, y: nat, x: nat, e: nat)
    requires Acyclic(nodes) && DependsOn(nodes, y, x) && DependsOn(nodes, x, e)
    ensures DependsOn(nodes, y, e)
    decreases y
  {
    var i: nat :| i < |nodes[y].inputs| && InputLeadsTo(nodes, y, i, x);
    if nodes[y].inputs[i].expr != x {
      DependsTransitive(nodes, nodes[y].inputs[i].expr, x, e);
    }
    assert InputLeadsTo(nodes, y, i, e);
  }

  /** Changing the contents of a leaf only matters to what depends on it. */
  lemma {:induction false} DenUnaffected<T>(f: (nat, seq<T>, nat) -> T, nodes: Nodes, values: seq<T>, leaf: nat, v: T,
      p: Port)
    requires Acyclic(nodes) && |values| == |nodes| && IsPort(nodes, p) && leaf < |nodes|
    requires p.expr != leaf && !DependsOn(nodes, p.expr, leaf)
    ensures Den(f, nodes, values[leaf := v], p) == Den(f, nodes, values, p)
    decreases p.expr, 1, 0
  {
    if !IsLeaf(nodes, p.expr) {
      DenPrefixUnaffected(f, nodes, values, leaf, v, p.expr, |nodes[p.expr].inputs|);
    }
  }

  lemma {:induction false} DenPrefixUnaffected<T>(f: (nat, seq<T>, nat) -> T, nodes: Nodes, values: seq<T>, leaf: nat,
      v: T, e: nat, n: nat)
    requires Acyclic(nodes) && |values| == |nodes| && e < |nodes| && n <= |nodes[e].inputs| && leaf < |nodes|
    requires !DependsOn(nodes, e, leaf)
    ensures DenPrefix(f, nodes, values[leaf := v], e, n) == DenPrefix(f, nodes, values, e, n)
    decreases e, 0, n
  {
    if n > 0 {
      assert NodeOk(nodes, e);
      assert !InputLeadsTo(nodes, e, n - 1, leaf);
      DenPrefixUnaffected(f, nodes, values, leaf, v, e, n - 1);
      DenUnaffected(f, nodes, values, leaf, v, nodes[e].inputs[n - 1]);
    }
  }

  lemma {:induction false} HasShapeUnaffected(sem: Semantics, nodes: Nodes, leaves: seq<Shape>, e: nat, dims: Shape,
      x: nat)
    requires Acyclic(nodes) && |leaves| == |nodes| && e < |nodes| && x < |nodes| && !DependsOn(nodes, x, e)
    ensures HasShape(sem, nodes, leaves[e := dims], x) == HasShape(sem, nodes, leaves, x)
    decreases x
  {
    assert NodeOk(nodes, x);
    DenPrefixUnaffected(sem.infer, nodes, leaves, e, dims, x, |nodes[x].inputs|);
    forall i: nat | i < |nodes[x].inputs|
      ensures HasShape(sem, nodes, leaves[e := dims], nodes[x].inputs[i].expr) ==
        HasShape(sem, nodes, leaves, nodes[x].inputs[i].expr)
    {
      assert !InputLeadsTo(nodes, x, i, e);
      HasShapeUnaffected(sem, nodes, leaves, e, dims, nodes[x].inputs[i].expr);
    }
  }

  /** A set of expressions that is closed under consumers and holds those of d holds everything that depends on d. */
  lemma {:induction false} ClosedCoversDependents(nodes: Nodes, d: nat, covered: set<nat>, e: nat)
    requires Acyclic(nodes) && e < |nodes| && DependsOn(nodes, e, d)
    requires forall x: nat, i: nat ::
      x < |nodes| && i < |nodes[x].inputs| && (nodes[x].inputs[i].expr == d || nodes[x].inputs[i].expr in covered) ==>
        x in covered
    ensures e in covered
    decreases e
  {
    assert NodeOk(nodes, e);
    var i: nat :| i < |nodes[e].inputs| && InputLeadsTo(nodes, e, i, d);
    if nodes[e].inputs[i].expr != d {
      ClosedCoversDependents(nodes, d, covered, nodes[e].inputs[i].expr);
    }
  }

  // ---------------------------------------------------------------- growing the graph

  lemma {:induction false} DenGrows<T>(f: (nat, seq<T>, nat) -> T, nodes: Nodes, values: seq<T>, node: Node, v: T,
      p: Port)
    requires Acyclic(nodes) && Acyclic(nodes + [node]) && |values| == |nodes| && IsPort(nodes, p)
    ensures IsPort(nodes + [node], p)
    ensures Den(f, nodes + [node], values + [v], p) == Den(f, nodes, values, p)
    decreases p.expr, 1, 0
  {
    if !IsLeaf(nodes, p.expr) {
      DenPrefixGrows(f, nodes, values, node, v, p.expr, |nodes[p.expr].inputs|);
    }
  }

  lemma {:induction false} DenPrefixGrows<T>(f: (nat, seq<T>, nat) -> T, nodes: Nodes, values: seq<T>, node: Node, v: T,
      e: nat, n: nat)
    requires Acyclic(nodes) && Acyclic(nodes + [node]) && |values| == |nodes| && e < |nodes| && n <= |nodes[e].inputs|
    ensures DenPrefix(f, nodes + [node], values + [v], e, n) == DenPrefix(f, nodes, values, e, n)
    decreases e, 0, n
  {
    if n > 0 {
      assert NodeOk(nodes, e);
      DenPrefixGrows(f, nodes, values, node, v, e, n - 1);
      DenGrows(f, nodes, values, node, v, nodes[e].inputs[n - 1]);
    }
  }

  lemma {:induction false} HasShapeGrows(sem: Semantics, nodes: Nodes, shapes: seq<Shape>, node: Node, v: Shape, e: nat)
    requires Acyclic(nodes) && Acyclic(nodes + [node]) && |shapes| == |nodes| && e < |nodes|
    ensures HasShape(sem, nodes + [node], shapes + [v], e) == HasShape(sem, nodes, shapes, e)
    decreases e
  {
    assert NodeOk(nodes, e) && NodeOk(nodes + [node], e);
    DenPrefixGrows(sem.infer, nodes, shapes, node, v, e, |nodes[e].inputs|);
    forall i: nat | i < |nodes[e].inputs|
      ensures HasShape(sem, nodes + [node], shapes + [v], nodes[e].inputs[i].expr) ==
        HasShape(sem, nodes, shapes, nodes[e].inputs[i].expr)
    {
      HasShapeGrows(sem, nodes, shapes, node, v, nodes[e].inputs[i].expr);
    }
  }
}
