/**
 `resize` of a variable that an operator computes (express/Expr.cpp:748-782): the test that should refuse it compares
 the expression's type, which is INPUT for operators too. The new dimensions are recorded as if they had been inferred.
 */
module ResizeOperators {
  import opened Wrappers
  import opened ExprModel
  import opened Sessions
  import opened ExprGraphs
  import opened InformDirty
  import opened InferShapes

  /** Recorded shapes with the first replaced; an output without one has no dimensions. */
  function WithFirst(info: seq<Shape>, dims: Shape, outputs: nat): (r: seq<Shape>)
    requires outputs > 0
    ensures |r| == outputs && r[0] == dims && forall k: nat :: 0 < k < outputs && k < |info| ==> r[k] == info[k]
  {
    seq(outputs, k requires 0 <= k => if k == 0 then dims else if k < |info| then info[k] else [])
  }

  function FirstShape(info: seq<Shape>): Shape {
    if info == [] then [] else info[0]
  }

  /** The shapes before anything is marked. */
  function Overwritten(s: Shapes, e: nat, dims: Shape, outputs: nat): Shapes
    requires outputs > 0 && e < |s.infos| && e < |s.dirty| && e < |s.valid|
  {
    s.(infos := s.infos[e := WithFirst(s.infos[e], dims, outputs)], dirty := s.dirty[e := false],
      valid := s.valid[e := true])
  }

  /** The walk from e is finished. */
  ghost predicate Walked(sem: Semantics, nodes: Nodes, s0: Shapes, e: nat, dims: Shape, s: Shapes) {
    && InfosOk(sem, nodes, s0) && e < |nodes| && !IsLeaf(nodes, e) && nodes[e].outputs > 0 && ShapesFor(nodes, s)
    && var s1 := Overwritten(s0, e, dims, nodes[e].outputs);
      && MarkedBy(s1, s) && Grew(Marks(s1), Marks(s)) && ConsumersIn(nodes, e, Marks(s))
      && Closed(nodes, Marks(s1), Marks(s)) && OnlyOpen(nodes, Marks(s1), Marks(s), e)
  }

  /** An input of an expression that is not marked is as it was, and is not e. */
  lemma InputAsBefore(sem: Semantics, nodes: Nodes, s0: Shapes, e: nat, dims: Shape, s: Shapes, x: nat, i: nat)
    requires Walked(sem, nodes, s0, e, dims, s) && x < |nodes| && !Marks(s)[x] && i < |nodes[x].inputs|
    ensures NodeOk(nodes, x)
    ensures var y := nodes[x].inputs[i].expr;
      y != e && s.dirty[y] == s0.dirty[y] && s.valid[y] == s0.valid[y]
  {
    assert NodeOk(nodes, x);
    var y, s1 := nodes[x].inputs[i].expr, Overwritten(s0, e, dims, nodes[e].outputs);
    assert Consumes(nodes, x, y);
    assert New(Marks(s1), Marks(s), y) ==> ConsumersIn(nodes, y, Marks(s));
  }

  /** All others stay as they should be. */
  lemma OthersStayOk(sem: Semantics, nodes: Nodes, s0: Shapes, e: nat, dims: Shape, s: Shapes, x: nat)
    requires Walked(sem, nodes, s0, e, dims, s) && x < |nodes| && x != e
    ensures InfoOk(sem, nodes, s, x)
  {
    var s1 := Overwritten(s0, e, dims, nodes[e].outputs);
    assert InfoOk(sem, nodes, s0, x) && NodeOk(nodes, x);
    if New(Marks(s1), Marks(s), x) {
      assert Open(nodes, Marks(s1), x, e);
    } else if IsLeaf(nodes, x) {
      assert s.infos[x] == s0.infos[x];
    } else if !Marks(s)[x] {
      forall i: nat | i < |nodes[x].inputs|
        ensures var y := nodes[x].inputs[i].expr; s.dirty[y] == s0.dirty[y] && s.valid[y] == s0.valid[y]
      {
        InputAsBefore(sem, nodes, s0, e, dims, s, x, i);
      }
      if !s.valid[x] {
        StillRefuted(sem, nodes, s0, s, x);
      }
    }
  }

  lemma StillRefuted(sem: Semantics, nodes: Nodes, s0: Shapes, s: Shapes, x: nat)
    requires ShapesFor(nodes, s0) && ShapesFor(nodes, s) && s.leaves == s0.leaves && x < |nodes| && !IsLeaf(nodes, x)
    requires NodeOk(nodes, x) && Refuted(sem, nodes, s0, x)
    requires forall i: nat :: i < |nodes[x].inputs| ==>
      var y := nodes[x].inputs[i].expr; s.dirty[y] == s0.dirty[y] && s.valid[y] == s0.valid[y]
    ensures Refuted(sem, nodes, s, x)
  {
    if i: nat :| i < |nodes[x].inputs| && InputInvalid(nodes, s0, x, i) {
      assert InputInvalid(nodes, s, x, i);
    }
  }

  /** e does not depend on itself, so nothing it reads was touched. */
  lemma BelowUntouched(sem: Semantics, nodes: Nodes, s0: Shapes, e: nat, dims: Shape, s: Shapes, y: nat)
    requires Walked(sem, nodes, s0, e, dims, s) && y <= e
    ensures y < e ==> s.dirty[y] == s0.dirty[y]
    ensures y == e ==> !s.dirty[y] && s.valid[y]
  {
    var s1 := Overwritten(s0, e, dims, nodes[e].outputs);
    if New(Marks(s1), Marks(s), y) {
      OpenDepends(nodes, Marks(s1), y, e);
      DependsOnSmaller(nodes, y, e);
    }
  }

  lemma {:induction false} DependsOnSmaller(nodes: Nodes, y: nat, e: nat)
    requires Acyclic(nodes) && DependsOn(nodes, y, e)
    ensures e < y
    decreases y
  {
    var i: nat :| i < |nodes[y].inputs| && InputLeadsTo(nodes, y, i, e);
    if nodes[y].inputs[i].expr != e {
      DependsOnSmaller(nodes, nodes[y].inputs[i].expr, e);
    }
  }

  /** The shapes of what e reads are known, and inference gives the new dimensions and the other outputs' shapes. */
  ghost predicate InferredAs(sem: Semantics, nodes: Nodes, s: Shapes, e: nat, dims: Shape)
    requires ShapesFor(nodes, s) && e < |nodes| && nodes[e].outputs > 0
  {
    && HasShape(sem, nodes, s.leaves, e) && InputsInfoClean(nodes, s, e)
    && dims == Den(sem.infer, nodes, s.leaves, Port(e, 0))
    && forall k: nat :: 0 < k < nodes[e].outputs ==>
        Den(sem.infer, nodes, s.leaves, Port(e, k)) == if k < |s.infos[e]| then s.infos[e][k] else []
  }

  /** Recorded shapes stay right exactly if the new dimensions are those that inference would give. */
  lemma RightIffInferred(sem: Semantics, nodes: Nodes, s0: Shapes, e: nat, dims: Shape, s: Shapes)
    requires Walked(sem, nodes, s0, e, dims, s)
    ensures InfosOk(sem, nodes, s) <==> InferredAs(sem, nodes, s0, e, dims)
  {
    forall x: nat | x < |nodes| && x != e ensures InfoOk(sem, nodes, s, x) {
      OthersStayOk(sem, nodes, s0, e, dims, s, x);
    }
    assert NodeOk(nodes, e);
    BelowUntouched(sem, nodes, s0, e, dims, s, e);
    forall i: nat | i < |nodes[e].inputs|
      ensures s.dirty[nodes[e].inputs[i].expr] == s0.dirty[nodes[e].inputs[i].expr]
    {
      BelowUntouched(sem, nodes, s0, e, dims, s, nodes[e].inputs[i].expr);
    }
    assert s.infos[e] == WithFirst(s0.infos[e], dims, nodes[e].outputs);
    assert InfosOk(sem, nodes, s) <==> InfoOk(sem, nodes, s, e);
    if InfoIsInferred(sem, nodes, s, e) {
      forall k: nat | k < nodes[e].outputs ensures s.infos[e][k] == Den(sem.infer, nodes, s.leaves, Port(e, k)) {
      }
    }
  }

  /** So where the shape was known, other dimensions always make it wrong. */
  lemma KnownShapeGoesWrong(sem: Semantics, nodes: Nodes, s0: Shapes, e: nat, dims: Shape)
    requires InfosOk(sem, nodes, s0) && e < |nodes| && !IsLeaf(nodes, e) && nodes[e].outputs > 0
    requires !s0.dirty[e] && FirstShape(s0.infos[e]) != dims
    ensures !InferredAs(sem, nodes, s0, e, dims)
  {
    assert InfoOk(sem, nodes, s0, e);
    assert s0.infos[e][0] == Den(sem.infer, nodes, s0.leaves, Port(e, 0));
  }

  /** The expression itself. */
  method Overwrite(g: ExprGraph, e: nat, dims: Shape)
    requires ShapesFor(g.nodes, g.shapes) && e < |g.nodes| && g.nodes[e].outputs > 0 && |g.unwritten| == |g.nodes|
    modifies g`shapes, g`unwritten
    ensures g.shapes == Overwritten(old(g.shapes), e, dims, g.nodes[e].outputs)
    ensures g.unwritten == old(g.unwritten)[e := true]
  {
    g.shapes := Overwritten(g.shapes, e, dims, g.nodes[e].outputs);
    g.unwritten := g.unwritten[e := true];
  }

  /**
   New dimensions for a variable that an operator computes. They are given out as its shape from now on; what is
   recorded stays right exactly if inference would give them. Dependents and their caches are marked as for a leaf. What
   caches store stays right in any case.
   */
  method Resize(g: ExprGraph, e: nat, dims: Shape)
    requires g.Valid() && e < |g.nodes| && !IsLeaf(g.nodes, e) && g.nodes[e].outputs > 0
    modifies g`shapes, g`shapeDirty, g`unwritten
    ensures g.Shaped() && ShapesFor(g.nodes, g.shapes)
    ensures FirstShape(old(g.shapes).infos[e]) == dims ==>
      g.shapes == old(g.shapes) && g.shapeDirty == old(g.shapeDirty) && g.unwritten == old(g.unwritten)
    ensures FirstShape(old(g.shapes).infos[e]) != dims ==>
      Walked(g.sem, g.nodes, old(g.shapes), e, dims, g.shapes) && !g.shapes.dirty[e] && g.shapes.infos[e][0] == dims
    ensures FirstShape(old(g.shapes).infos[e]) != dims ==>
      (g.Valid() <==> InferredAs(g.sem, g.nodes, old(g.shapes), e, dims))
    ensures FirstShape(old(g.shapes).infos[e]) != dims ==>
      var m := Marks(Overwritten(old(g.shapes), e, dims, g.nodes[e].outputs));
      DirtiedBy(g.at, m, Marks(g.shapes), old(g.shapeDirty), g.shapeDirty) &&
      forall y: nat :: New(m, Marks(g.shapes), y) <==> Open(g.nodes, m, y, e)
    ensures old(g.Sound()) ==>
      Fresh(g.sem, g.nodes, g.values, g.at, g.tensors, g.contentDirty, g.shapeDirty) &&
      AllSized(g.sem, g.nodes, g.shapes.leaves, g.sessions, g.sizing, g.shapeDirty)
  {
    if FirstShape(g.shapes.infos[e]) == dims {
      return;
    }
    ghost var s0 := g.shapes;
    Overwrite(g, e, dims);
    MarkOutputs(g, e);
    RightIffInferred(g.sem, g.nodes, s0, e, dims, g.shapes);
    BelowUntouched(g.sem, g.nodes, s0, e, dims, g.shapes, e);
    ghost var m := Marks(Overwritten(s0, e, dims, g.nodes[e].outputs));
    forall y: nat | Open(g.nodes, m, y, e) ensures New(m, Marks(g.shapes), y) {
      OpenIsMarked(g.nodes, m, Marks(g.shapes), y, e);
    }
  }
}
