/**
 Shape inference on demand (express/Expr.cpp:308-364) and its invalidation when an input is
 resized (express/Expr.cpp:748-782, 936-975), which stops at expressions that are dirty already.
 */
module InferShapes {
  import opened Wrappers
  import opened ExprModel
  import opened Sessions
  import opened ExprGraphs
  import opened InformDirty
  import opened SpreadingShapes

  // ---------------------------------------------------------------- inference

  lemma {:induction false} InvalidHasNoShape(sem: Semantics, nodes: Nodes, s: Shapes, e: nat)
    requires InfosOk(sem, nodes, s) && e < |nodes| && !s.valid[e]
    ensures !HasShape(sem, nodes, s.leaves, e)
    decreases e
  {
    assert InfoOk(sem, nodes, s, e) && NodeOk(nodes, e);
    if i: nat :| i < |nodes[e].inputs| && InputInvalid(nodes, s, e, i) {
      InvalidHasNoShape(sem, nodes, s, nodes[e].inputs[i].expr);
    }
  }

  lemma Invalidate(sem: Semantics, nodes: Nodes, s: Shapes, e: nat)
    requires InfosOk(sem, nodes, s) && e < |nodes| && !IsLeaf(nodes, e) && s.dirty[e] && Refuted(sem, nodes, s, e)
    ensures InfosOk(sem, nodes, s.(valid := s.valid[e := false]))
  {
    var s' := s.(valid := s.valid[e := false]);
    forall x: nat | x < |nodes| ensures InfoOk(sem, nodes, s', x) {
      assert InfoOk(sem, nodes, s, x);
      assert InputsInfoClean(nodes, s, x) ==> InputsInfoClean(nodes, s', x);
      if !IsLeaf(nodes, x) && Refuted(sem, nodes, s, x) {
        if i: nat :| i < |nodes[x].inputs| && InputInvalid(nodes, s, x, i) {
          assert InputInvalid(nodes, s', x, i);
        }
      }
    }
  }

  ghost function Cleaned(s: Shapes, e: nat, info: seq<Shape>): Shapes
    requires e < |s.infos| && e < |s.dirty|
  {
    s.(infos := s.infos[e := info], dirty := s.dirty[e := false])
  }

  lemma Clean(sem: Semantics, nodes: Nodes, s: Shapes, e: nat, info: seq<Shape>)
    requires InfosOk(sem, nodes, s) && e < |nodes| && !IsLeaf(nodes, e) && s.valid[e] && InputsInfoClean(nodes, s, e)
    requires sem.inferable(nodes[e].op.value, DenPrefix(sem.infer, nodes, s.leaves, e, |nodes[e].inputs|))
    requires InfoIsInferred(sem, nodes, s.(infos := s.infos[e := info]), e)
    ensures InfosOk(sem, nodes, Cleaned(s, e, info)) && HasShape(sem, nodes, s.leaves, e)
  {
    var s' := Cleaned(s, e, info);
    forall i: nat | i < |nodes[e].inputs| ensures HasShape(sem, nodes, s.leaves, nodes[e].inputs[i].expr) {
      assert InfoOk(sem, nodes, s, nodes[e].inputs[i].expr);
    }
    forall x: nat | x < |nodes| ensures InfoOk(sem, nodes, s', x) {
      assert InfoOk(sem, nodes, s, x);
      assert InputsInfoClean(nodes, s, x) ==> InputsInfoClean(nodes, s', x);
      if !IsLeaf(nodes, x) && Refuted(sem, nodes, s, x) {
        if i: nat :| i < |nodes[x].inputs| && InputInvalid(nodes, s, x, i) {
          assert InputInvalid(nodes, s', x, i);
        }
      }
    }
  }

  /** Inference only clears dirt and only takes validity away, below n. */
  ghost predicate Settles(s: Shapes, s': Shapes, n: nat) {
    && s'.leaves == s.leaves && |s'.infos| == |s.infos| && |s'.dirty| == |s.dirty| && |s'.valid| == |s.valid|
    && (forall e: nat :: e < |s.dirty| && !s.dirty[e] ==> !s'.dirty[e])
    && (forall e: nat :: e < |s.valid| && !s.valid[e] ==> !s'.valid[e])
    && (forall e: nat :: n <= e < |s.dirty| ==> s'.dirty[e] == s.dirty[e])
    && (forall e: nat :: n <= e < |s.valid| ==> s'.valid[e] == s.valid[e])
  }

  /** The recorded shapes of the inputs of e. */
  method InputShapes(g: ExprGraph, e: nat) returns (vs: seq<Shape>)
    requires InfosOk(g.sem, g.nodes, g.shapes) && e < |g.nodes| && InputsInfoClean(g.nodes, g.shapes, e)
    ensures vs == DenPrefix(g.sem.infer, g.nodes, g.shapes.leaves, e, |g.nodes[e].inputs|)
  {
    vs := [];
    var inputs := g.nodes[e].inputs;
    for i := 0 to |inputs|
      invariant vs == DenPrefix(g.sem.infer, g.nodes, g.shapes.leaves, e, i)
    {
      var p := inputs[i];
      assert InfoOk(g.sem, g.nodes, g.shapes, p.expr) && IsPort(g.nodes, p);
      assert InfoIsInferred(g.sem, g.nodes, g.shapes, p.expr);
      assert p == Port(p.expr, p.index);
      vs := vs + [g.shapes.infos[p.expr][p.index]];
    }
  }

  /** `computeInfo`: records the outputs' shapes, or fails. */
  method ComputeInfo(g: ExprGraph, e: nat) returns (ok: bool)
    requires InfosOk(g.sem, g.nodes, g.shapes) && e < |g.nodes| && !IsLeaf(g.nodes, e)
    requires InputsInfoClean(g.nodes, g.shapes, e) && g.shapes.valid[e] && g.shapes.dirty[e]
    modifies g`shapes
    ensures InfosOk(g.sem, g.nodes, g.shapes) && Settles(old(g.shapes), g.shapes, e + 1)
    ensures ok <==> HasShape(g.sem, g.nodes, g.shapes.leaves, e)
    ensures ok ==> !g.shapes.dirty[e]
    ensures !ok ==> !g.shapes.valid[e]
  {
    var vs := InputShapes(g, e);
    var op := g.nodes[e].op.value;
    ok := g.sem.inferable(op, vs);
    if ok {
      var infer := g.sem.infer;
      var info := seq(g.nodes[e].outputs, k requires 0 <= k => infer(op, vs, k));
      Clean(g.sem, g.nodes, g.shapes, e, info);
      g.shapes := g.shapes.(infos := g.shapes.infos[e := info], dirty := g.shapes.dirty[e := false]);
    } else {
      Invalidate(g.sem, g.nodes, g.shapes, e);
      g.shapes := g.shapes.(valid := g.shapes.valid[e := false]);
    }
  }

  /** The shape of e is known afterwards exactly if inference from scratch succeeds, and is that shape. */
  method RequireInfo(g: ExprGraph, e: nat) returns (ok: bool)
    requires InfosOk(g.sem, g.nodes, g.shapes) && e < |g.nodes|
    modifies g`shapes
    ensures InfosOk(g.sem, g.nodes, g.shapes) && Settles(old(g.shapes), g.shapes, e + 1)
    ensures ok <==> HasShape(g.sem, g.nodes, g.shapes.leaves, e)
    ensures ok ==> !g.shapes.dirty[e] && InfoIsInferred(g.sem, g.nodes, g.shapes, e)
    ensures !ok ==> !g.shapes.valid[e]
    decreases e, 1
  {
    assert InfoOk(g.sem, g.nodes, g.shapes, e) && NodeOk(g.nodes, e);
    if !g.shapes.dirty[e] {
      return true;
    }
    if !g.shapes.valid[e] {
      InvalidHasNoShape(g.sem, g.nodes, g.shapes, e);
      return false;
    }
    ok := RequireInputs(g, e);
    if !ok {
      return;
    }
    ok := ComputeInfo(g, e);
    assert InfoOk(g.sem, g.nodes, g.shapes, e);
  }

  /** The shapes of all inputs; a failing one makes e invalid. */
  method RequireInputs(g: ExprGraph, e: nat) returns (ok: bool)
    requires InfosOk(g.sem, g.nodes, g.shapes) && e < |g.nodes| && !IsLeaf(g.nodes, e) && g.shapes.dirty[e]
    requires g.shapes.valid[e]
    modifies g`shapes
    ensures InfosOk(g.sem, g.nodes, g.shapes) && Settles(old(g.shapes), g.shapes, e + 1)
    ensures ok ==> InputsInfoClean(g.nodes, g.shapes, e) && g.shapes.dirty[e] && g.shapes.valid[e]
    ensures !ok ==> !g.shapes.valid[e] && !HasShape(g.sem, g.nodes, g.shapes.leaves, e)
    decreases e, 0
  {
    var inputs := g.nodes[e].inputs;
    assert NodeOk(g.nodes, e);
    for i := 0 to |inputs|
      invariant InfosOk(g.sem, g.nodes, g.shapes) && Settles(old(g.shapes), g.shapes, e)
      invariant NodeOk(g.nodes, e) && forall k: nat :: k < i ==> !g.shapes.dirty[inputs[k].expr]
    {
      var known := RequireInfo(g, inputs[i].expr);
      if !known {
        assert InputInvalid(g.nodes, g.shapes, e, i);
        Invalidate(g.sem, g.nodes, g.shapes, e);
        g.shapes := g.shapes.(valid := g.shapes.valid[e := false]);
        InvalidHasNoShape(g.sem, g.nodes, g.shapes, e);
        return false;
      }
    }
    return true;
  }

  // ---------------------------------------------------------------- invalidation

  /** Where the walk stops: dirty and valid already. */
  ghost function Marks(s: Shapes): (m: seq<bool>)
    requires |s.valid| == |s.dirty|
    ensures |m| == |s.dirty| && forall e: nat :: e < |m| ==> m[e] == (s.dirty[e] && s.valid[e])
  {
    seq(|s.dirty|, e requires 0 <= e < |s.dirty| => s.dirty[e] && s.valid[e])
  }

  /** The walk from e comes to y: e is an input of y, directly or through expressions where it does not stop. */
  ghost predicate Open(nodes: Nodes, m: seq<bool>, y: nat, e: nat)
    requires Acyclic(nodes) && |m| == |nodes|
    decreases y
  {
    y < |nodes| && NodeOk(nodes, y) && !m[y] && exists i: nat :: i < |nodes[y].inputs| && OpenInput(nodes, m, y, i, e)
  }

  ghost predicate OpenInput(nodes: Nodes, m: seq<bool>, y: nat, i: nat, e: nat)
    requires Acyclic(nodes) && |m| == |nodes| && y < |nodes| && NodeOk(nodes, y) && i < |nodes[y].inputs|
    decreases y, 0
  {
    nodes[y].inputs[i].expr == e || Open(nodes, m, nodes[y].inputs[i].expr, e)
  }

  lemma {:induction false} OpenDepends(nodes: Nodes, m: seq<bool>, y: nat, e: nat)
    requires Acyclic(nodes) && |m| == |nodes| && Open(nodes, m, y, e)
    ensures DependsOn(nodes, y, e)
    decreases y
  {
    var i: nat :| i < |nodes[y].inputs| && OpenInput(nodes, m, y, i, e);
    if nodes[y].inputs[i].expr != e {
      OpenDepends(nodes, m, nodes[y].inputs[i].expr, e);
    }
    assert InputLeadsTo(nodes, y, i, e);
  }

  /** What is open from x with more marks is open from what x is open from. */
  lemma {:induction false} OpenThrough(nodes: Nodes, m0: seq<bool>, m: seq<bool>, y: nat, x: nat, e: nat)
    requires Acyclic(nodes) && |m0| == |nodes| && |m| == |nodes| && Grew(m0, m)
    requires Open(nodes, m0, x, e) && Open(nodes, m, y, x)
    ensures Open(nodes, m0, y, e)
    decreases y
  {
    var i: nat :| i < |nodes[y].inputs| && OpenInput(nodes, m, y, i, x);
    if nodes[y].inputs[i].expr != x {
      OpenThrough(nodes, m0, m, nodes[y].inputs[i].expr, x, e);
    }
    assert OpenInput(nodes, m0, y, i, e);
  }

  ghost predicate OnlyOpen(nodes: Nodes, m0: seq<bool>, m: seq<bool>, e: nat)
    requires Acyclic(nodes) && |m0| == |nodes|
  {
    forall y: nat :: New(m0, m, y) ==> Open(nodes, m0, y, e)
  }

  /** A finished walk has marked exactly what it comes to. */
  lemma {:induction false} OpenIsMarked(nodes: Nodes, m0: seq<bool>, m: seq<bool>, y: nat, e: nat)
    requires Acyclic(nodes) && |m0| == |nodes| && Grew(m0, m) && ConsumersIn(nodes, e, m) && Closed(nodes, m0, m)
    requires Open(nodes, m0, y, e)
    ensures New(m0, m, y)
    decreases y
  {
    var i: nat :| i < |nodes[y].inputs| && OpenInput(nodes, m0, y, i, e);
    var x := nodes[y].inputs[i].expr;
    assert Consumes(nodes, y, x);
    if x != e {
      OpenIsMarked(nodes, m0, m, x, e);
      assert ConsumersIn(nodes, x, m);
    }
  }

  /** Marking x and then everything below it extends a walk. */
  lemma OpenStep(nodes: Nodes, e: nat, x: nat, m0: seq<bool>, m1: seq<bool>, m2: seq<bool>)
    requires Acyclic(nodes) && |m0| == |nodes| && Grew(m0, m1) && x < |nodes| && !m1[x] && Grew(m1[x := true], m2)
    requires Closed(nodes, m0, m1) && OnlyOpen(nodes, m0, m1, e)
    requires Closed(nodes, m1[x := true], m2) && OnlyOpen(nodes, m1[x := true], m2, x)
    requires ConsumersIn(nodes, x, m2) && Consumes(nodes, x, e)
    ensures Grew(m0, m2) && Closed(nodes, m0, m2) && OnlyOpen(nodes, m0, m2, e)
    ensures forall y: nat :: New(m0, m2, y) <==> New(m0, m1, y) || y == x || New(m1[x := true], m2, y)
    ensures forall y: nat :: y < |m1| && m1[y] ==> m2[y]
  {
    GrowStep(nodes, x, m0, m1, m2);
    var m := m1[x := true];
    assert Open(nodes, m0, x, e) by {
      assert NodeOk(nodes, x);
      var i: nat :| i < |nodes[x].inputs| && nodes[x].inputs[i].expr == e;
      assert OpenInput(nodes, m0, x, i, e);
    }
    forall y: nat | New(m0, m2, y) ensures Open(nodes, m0, y, e) {
      if y != x && !New(m0, m1, y) {
        OpenThrough(nodes, m0, m, y, x, e);
      }
    }
  }

  /** What was newly marked is dirty and valid; nothing else changed. */
  ghost predicate MarkedBy(s: Shapes, s': Shapes) {
    && s'.leaves == s.leaves && s'.infos == s.infos
    && |s.valid| == |s.dirty| && |s'.dirty| == |s.dirty| && |s'.valid| == |s.valid|
    && forall e: nat :: e < |s.dirty| && !New(Marks(s), Marks(s'), e) ==>
         s'.dirty[e] == s.dirty[e] && s'.valid[e] == s.valid[e]
  }

  /** `setInfoDirty` on x. */
  method SetInfoDirty(g: ExprGraph, x: nat) returns (more: bool)
    requires g.Shaped() && ShapesFor(g.nodes, g.shapes) && CachesOk(g.nodes, g.at, g.sessions) && x < |g.nodes|
    modifies g`shapes, g`shapeDirty
    ensures more == !Marks(old(g.shapes))[x] && |g.shapeDirty| == |old(g.shapeDirty)|
    ensures !more ==> g.shapes == old(g.shapes) && g.shapeDirty == old(g.shapeDirty)
    ensures more ==>
      g.shapes == old(g.shapes).(dirty := old(g.shapes).dirty[x := true], valid := old(g.shapes).valid[x := true])
    ensures more ==> forall c: nat :: c < |g.shapeDirty| ==>
      (g.shapeDirty[c] <==> old(g.shapeDirty)[c] || g.at.cacheOf[x] == Some(c))
  {
    if g.shapes.dirty[x] && g.shapes.valid[x] {
      return false;
    }
    g.shapes := g.shapes.(dirty := g.shapes.dirty[x := true], valid := g.shapes.valid[x := true]);
    if g.at.cacheOf[x].Some? {
      assert PlaceOk(g.nodes, g.at, g.sessions, x);
      g.shapeDirty := g.shapeDirty[g.at.cacheOf[x].value := true];
    }
    more := true;
  }

  /** Marks everything below e, not going on from what was marked before. */
  method MarkOutputs(g: ExprGraph, e: nat)
    requires g.Shaped() && ShapesFor(g.nodes, g.shapes) && Linked(g.nodes, g.to) && CachesOk(g.nodes, g.at, g.sessions)
    requires e < |g.nodes|
    modifies g`shapes, g`shapeDirty
    ensures g.Shaped() && ShapesFor(g.nodes, g.shapes) && MarkedBy(old(g.shapes), g.shapes)
    ensures Grew(Marks(old(g.shapes)), Marks(g.shapes)) && ConsumersIn(g.nodes, e, Marks(g.shapes))
    ensures Closed(g.nodes, Marks(old(g.shapes)), Marks(g.shapes))
    ensures OnlyOpen(g.nodes, Marks(old(g.shapes)), Marks(g.shapes), e)
    ensures DirtiedBy(g.at, Marks(old(g.shapes)), Marks(g.shapes), old(g.shapeDirty), g.shapeDirty)
    decreases |g.nodes| - e, 0
  {
    ghost var s0, d0 := g.shapes, g.shapeDirty;
    for i := 0 to |g.to[e]|
      invariant g.Shaped() && ShapesFor(g.nodes, g.shapes) && MarkedBy(s0, g.shapes) && Grew(Marks(s0), Marks(g.shapes))
      invariant forall k :: 0 <= k < i ==> g.to[e][k] < |g.nodes| && Marks(g.shapes)[g.to[e][k]]
      invariant Closed(g.nodes, Marks(s0), Marks(g.shapes)) && OnlyOpen(g.nodes, Marks(s0), Marks(g.shapes), e)
      invariant DirtiedBy(g.at, Marks(s0), Marks(g.shapes), d0, g.shapeDirty)
    {
      assert g.to[e][i] in g.to[e];
      ConsumerDepends(g.nodes, g.to[e][i], e);
      MarkConsumer(g, e, g.to[e][i], s0, d0);
    }
    forall x: nat | Consumes(g.nodes, x, e) ensures Marks(g.shapes)[x] {
      assert x in g.to[e];
    }
  }

  /** Marks consumer x of e and, if it was not marked, everything below it. */
  method MarkConsumer(g: ExprGraph, e: nat, x: nat, ghost s0: Shapes, ghost d0: seq<bool>)
    requires g.Shaped() && ShapesFor(g.nodes, g.shapes) && Linked(g.nodes, g.to) && CachesOk(g.nodes, g.at, g.sessions)
    requires Consumes(g.nodes, x, e) && ShapesFor(g.nodes, s0)
    requires MarkedBy(s0, g.shapes) && Grew(Marks(s0), Marks(g.shapes))
    requires Closed(g.nodes, Marks(s0), Marks(g.shapes)) && OnlyOpen(g.nodes, Marks(s0), Marks(g.shapes), e)
    requires DirtiedBy(g.at, Marks(s0), Marks(g.shapes), d0, g.shapeDirty)
    modifies g`shapes, g`shapeDirty
    ensures g.Shaped() && ShapesFor(g.nodes, g.shapes) && MarkedBy(s0, g.shapes)
    ensures Grew(Marks(old(g.shapes)), Marks(g.shapes)) && Grew(Marks(s0), Marks(g.shapes)) && Marks(g.shapes)[x]
    ensures Closed(g.nodes, Marks(s0), Marks(g.shapes)) && OnlyOpen(g.nodes, Marks(s0), Marks(g.shapes), e)
    ensures DirtiedBy(g.at, Marks(s0), Marks(g.shapes), d0, g.shapeDirty)
    decreases |g.nodes| - x, 1
  {
    ghost var s1, d1 := g.shapes, g.shapeDirty;
    var more := SetInfoDirty(g, x);
    if more {
      ghost var s, d := g.shapes, g.shapeDirty;
      assert Marks(s) == Marks(s1)[x := true];
      MarkOutputs(g, x);
      OpenStep(g.nodes, e, x, Marks(s0), Marks(s1), Marks(g.shapes));
      DirtiedStep(g.at, x, Marks(s0), Marks(s1), Marks(g.shapes), d0, d1, d, g.shapeDirty);
    }
  }

  // ---------------------------------------------------------------- resizing a leaf

  /** The shapes right after leaf e gets new dimensions, before anything is marked. */
  function Reshaped(s: Shapes, e: nat, dims: Shape): Shapes
    requires e < |s.leaves| && e < |s.infos| && e < |s.dirty| && e < |s.valid|
  {
    Shapes(s.leaves[e := dims], s.infos[e := [dims]], s.dirty[e := false], s.valid[e := true])
  }

  /** A finished walk from e over shapes s that were consistent with other dimensions of e. */
  ghost predicate Walked(sem: Semantics, nodes: Nodes, s0: Shapes, e: nat, dims: Shape, s: Shapes) {
    && InfosOk(sem, nodes, s0) && e < |nodes| && IsLeaf(nodes, e) && ShapesFor(nodes, s)
    && MarkedBy(Reshaped(s0, e, dims), s) && Grew(Marks(s0), Marks(s))
    && ConsumersIn(nodes, e, Marks(s)) && Closed(nodes, Marks(s0), Marks(s))
    && OnlyDependents(nodes, Marks(s0), Marks(s), e)
  }

  /** The marks of s0 are those right after the resize as well. */
  lemma ReshapedMarks(sem: Semantics, nodes: Nodes, s0: Shapes, e: nat, dims: Shape)
    requires InfosOk(sem, nodes, s0) && e < |nodes| && IsLeaf(nodes, e)
    ensures Reshaped(s0, e, dims).dirty == s0.dirty && Reshaped(s0, e, dims).valid == s0.valid
    ensures Marks(Reshaped(s0, e, dims)) == Marks(s0)
  {
    assert InfoOk(sem, nodes, s0, e);
  }

  /** An input of an expression that was not marked was not marked either, and is not e. */
  lemma UnmarkedInput(sem: Semantics, nodes: Nodes, s0: Shapes, e: nat, dims: Shape, s: Shapes, x: nat, i: nat)
    requires Walked(sem, nodes, s0, e, dims, s) && x < |nodes| && !Marks(s)[x] && i < |nodes[x].inputs|
    ensures NodeOk(nodes, x)
    ensures var y := nodes[x].inputs[i].expr;
      y != e && s.dirty[y] == s0.dirty[y] && s.valid[y] == s0.valid[y]
  {
    assert NodeOk(nodes, x);
    ReshapedMarks(sem, nodes, s0, e, dims);
    var y := nodes[x].inputs[i].expr;
    assert Consumes(nodes, x, y);
    assert New(Marks(s0), Marks(s), y) ==> ConsumersIn(nodes, y, Marks(s));
  }

  /** What is clean after the walk was clean before and does not depend on e, although the walk stopped early. */
  lemma {:induction false} CleanIsUnaffected(sem: Semantics, nodes: Nodes, s0: Shapes, e: nat, dims: Shape, s: Shapes,
      x: nat)
    requires Walked(sem, nodes, s0, e, dims, s) && x < |nodes| && !s.dirty[x]
    ensures !DependsOn(nodes, x, e) && !s0.dirty[x]
    ensures !IsLeaf(nodes, x) ==> InputsInfoClean(nodes, s, x)
    decreases x
  {
    ReshapedMarks(sem, nodes, s0, e, dims);
    assert InfoOk(sem, nodes, s0, x) && NodeOk(nodes, x);
    assert !New(Marks(s0), Marks(s), x);
    forall i: nat | i < |nodes[x].inputs| ensures !s.dirty[nodes[x].inputs[i].expr] && !InputLeadsTo(nodes, x, i, e) {
      UnmarkedInput(sem, nodes, s0, e, dims, s, x, i);
      assert !s0.dirty[nodes[x].inputs[i].expr];
      CleanIsUnaffected(sem, nodes, s0, e, dims, s, nodes[x].inputs[i].expr);
    }
  }

  lemma CleanStaysOk(sem: Semantics, nodes: Nodes, s0: Shapes, e: nat, dims: Shape, s: Shapes, x: nat)
    requires Walked(sem, nodes, s0, e, dims, s) && x < |nodes| && !IsLeaf(nodes, x) && !s.dirty[x]
    ensures s.valid[x] && HasShape(sem, nodes, s.leaves, x) && InputsInfoClean(nodes, s, x)
    ensures InfoIsInferred(sem, nodes, s, x)
  {
    ReshapedMarks(sem, nodes, s0, e, dims);
    CleanIsUnaffected(sem, nodes, s0, e, dims, s, x);
    HasShapeUnaffected(sem, nodes, s0.leaves, e, dims, x);
    assert InfoOk(sem, nodes, s0, x) && !New(Marks(s0), Marks(s), x);
    forall k: nat | k < nodes[x].outputs ensures s.infos[x][k] == Den(sem.infer, nodes, s.leaves, Port(x, k)) {
      DenUnaffected(sem.infer, nodes, s0.leaves, e, dims, Port(x, k));
    }
  }

  lemma InvalidStaysRefuted(sem: Semantics, nodes: Nodes, s0: Shapes, e: nat, dims: Shape, s: Shapes, x: nat)
    requires Walked(sem, nodes, s0, e, dims, s) && x < |nodes| && !IsLeaf(nodes, x) && !s.valid[x]
    ensures Refuted(sem, nodes, s, x)
  {
    ReshapedMarks(sem, nodes, s0, e, dims);
    assert InfoOk(sem, nodes, s0, x) && NodeOk(nodes, x);
    assert !New(Marks(s0), Marks(s), x) && Refuted(sem, nodes, s0, x);
    forall i: nat | i < |nodes[x].inputs|
      ensures var y := nodes[x].inputs[i].expr; y != e && s.dirty[y] == s0.dirty[y] && s.valid[y] == s0.valid[y]
    {
      UnmarkedInput(sem, nodes, s0, e, dims, s, x, i);
    }
    if i: nat :| i < |nodes[x].inputs| && InputInvalid(nodes, s0, x, i) {
      assert InputInvalid(nodes, s, x, i);
    } else {
      forall i: nat | i < |nodes[x].inputs| ensures !s.dirty[nodes[x].inputs[i].expr] && !InputLeadsTo(nodes, x, i, e) {
        CleanIsUnaffected(sem, nodes, s0, e, dims, s, nodes[x].inputs[i].expr);
      }
      assert !DependsOn(nodes, x, e);
      DenPrefixUnaffected(sem.infer, nodes, s0.leaves, e, dims, x, |nodes[x].inputs|);
    }
  }

  /** The early stop is sound: recorded shapes that still count are those of the new dimensions. */
  lemma WalkKeepsInfos(sem: Semantics, nodes: Nodes, s0: Shapes, e: nat, dims: Shape, s: Shapes)
    requires Walked(sem, nodes, s0, e, dims, s)
    ensures InfosOk(sem, nodes, s)
  {
    ReshapedMarks(sem, nodes, s0, e, dims);
    forall x: nat | x < |nodes| ensures InfoOk(sem, nodes, s, x) {
      assert InfoOk(sem, nodes, s0, x) && NodeOk(nodes, x);
      if IsLeaf(nodes, x) {
        assert !DependsOn(nodes, x, e) && !New(Marks(s0), Marks(s), x);
        assert InfoIsInferred(sem, nodes, s, x) by {
          assert s0.infos[x][0] == Den(sem.infer, nodes, s0.leaves, Port(x, 0));
        }
      } else {
        if !s.dirty[x] {
          CleanStaysOk(sem, nodes, s0, e, dims, s, x);
        }
        if !s.valid[x] {
          InvalidStaysRefuted(sem, nodes, s0, e, dims, s, x);
        }
      }
    }
  }

  // ---------------------------------------------------------------- what a resize reaches

  /** Cache c holds an expression that the walk from e comes to. */
  ghost predicate HoldsOpen(nodes: Nodes, at: Placement, m: seq<bool>, c: nat, e: nat)
    requires Acyclic(nodes) && Placed(nodes, at) && |m| == |nodes|
  {
    exists y: nat :: y < |nodes| && at.cacheOf[y] == Some(c) && Open(nodes, m, y, e)
  }

  /**
   The guard: every cache that holds something depending on e is marked already or will be found. It fails where
   all the dependents that a cache holds are waiting for their shape since an earlier resize, while the cache
   has been resized since, for the sake of other expressions in it.
   */
  ghost predicate Exposed(nodes: Nodes, at: Placement, m: seq<bool>, shapeDirty: seq<bool>, e: nat)
    requires Acyclic(nodes) && Placed(nodes, at) && |m| == |nodes|
  {
    forall c: nat :: c < |shapeDirty| && CachesDependent(nodes, at, c, e) ==>
      shapeDirty[c] || HoldsOpen(nodes, at, m, c, e)
  }

  /** The dimensions do not change, or the guard holds. */
  ghost predicate Guarded(g: ExprGraph, e: nat, dims: Shape)
    requires g.Valid() && e < |g.nodes|
    reads g
  {
    g.shapes.leaves[e] == dims || Exposed(g.nodes, g.at, Marks(g.shapes), g.shapeDirty, e)
  }

  lemma TouchedIffOpen(nodes: Nodes, at: Placement, m0: seq<bool>, m: seq<bool>, c: nat, e: nat)
    requires Acyclic(nodes) && Placed(nodes, at) && |m0| == |nodes| && Grew(m0, m) && ConsumersIn(nodes, e, m)
    requires Closed(nodes, m0, m) && OnlyOpen(nodes, m0, m, e)
    ensures Touches(at, m0, m, c) <==> HoldsOpen(nodes, at, m0, c, e)
  {
    if Touches(at, m0, m, c) {
      var y: nat :| New(m0, m, y) && y < |at.cacheOf| && at.cacheOf[y] == Some(c);
      assert Open(nodes, m0, y, e);
    }
    if HoldsOpen(nodes, at, m0, c, e) {
      var y: nat :| y < |nodes| && at.cacheOf[y] == Some(c) && Open(nodes, m0, y, e);
      OpenIsMarked(nodes, m0, m, y, e);
    }
  }

  /** An expression whose shape is known is always found. */
  lemma {:induction false} CleanIsOpen(sem: Semantics, nodes: Nodes, s: Shapes, y: nat, e: nat)
    requires InfosOk(sem, nodes, s) && y < |nodes| && !s.dirty[y] && DependsOn(nodes, y, e)
    ensures Open(nodes, Marks(s), y, e)
    decreases y
  {
    assert InfoOk(sem, nodes, s, y) && NodeOk(nodes, y);
    var i: nat :| i < |nodes[y].inputs| && InputLeadsTo(nodes, y, i, e);
    if nodes[y].inputs[i].expr != e {
      CleanIsOpen(sem, nodes, s, nodes[y].inputs[i].expr, e);
    }
    assert OpenInput(nodes, Marks(s), y, i, e);
  }

  /** Whatever a cache computes is for something placed there. */
  lemma EntryDepends(nodes: Nodes, at: Placement, sessions: seq<Session>, c: nat, j: nat, e: nat)
    requires Acyclic(nodes) && Placed(nodes, at) && c < |sessions| && CacheOk(nodes, at, sessions, c)
    requires j < |sessions[c].pipeline| && DependsOn(nodes, sessions[c].pipeline[j].expr, e)
    ensures CachesDependent(nodes, at, c, e)
  {
    var x := sessions[c].pipeline[j].expr;
    assert Serves(nodes, at, c, x);
    var y: nat :| y < |nodes| && at.cacheOf[y] == Some(c) && (y == x || (Acyclic(nodes) && DependsOn(nodes, y, x)));
    if y != x {
      DependsTransitive(nodes, y, x, e);
    }
    assert DependentIn(nodes, at, y, c, e);
  }

  /** If every cache that holds a dependent of e is marked, the others are what they were. */
  lemma ResizeKeepsSound(sem: Semantics, nodes: Nodes, values: seq<Value>, at: Placement, sessions: seq<Session>,
      tensors: seq<seq<Value>>, z: Sizing, contentDirty: seq<bool>, dirty0: seq<bool>, dirty: seq<bool>, e: nat,
      v: Value)
    requires Acyclic(nodes) && |values| == |nodes| && Placed(nodes, at) && CachesOk(nodes, at, sessions)
    requires SizingFor(sessions, z) && |tensors| == |sessions| && |contentDirty| == |sessions|
    requires |dirty0| == |sessions| && |dirty| == |sessions| && e < |nodes| && IsLeaf(nodes, e)
    requires forall c: nat :: c < |dirty| ==>
      (dirty0[c] ==> dirty[c]) && (CachesDependent(nodes, at, c, e) ==> dirty[c])
    requires Fresh(sem, nodes, values, at, tensors, contentDirty, dirty0)
    requires AllSized(sem, nodes, Dims(values), sessions, z, dirty0)
    ensures Fresh(sem, nodes, values[e := v], at, tensors, contentDirty, dirty)
    ensures AllSized(sem, nodes, Dims(values[e := v]), sessions, z, dirty)
  {
    forall c: nat | c < |sessions| && !contentDirty[c] && !dirty[c]
      ensures HoldsAll(sem.Whole(), nodes, values[e := v], at, tensors[c], c)
    {
      forall y: nat | y < |nodes| && at.cacheOf[y] == Some(c) ensures y != e && !DependsOn(nodes, y, e) {
        assert PlaceOk(nodes, at, sessions, y) && !DependentIn(nodes, at, y, c, e);
      }
      HoldsAllUnaffected(sem.Whole(), nodes, values, at, tensors[c], c, e, v);
    }
    assert Dims(values[e := v]) == Dims(values)[e := v.dims];
    forall c: nat | c < |sessions| && !dirty[c]
      ensures CacheSized(sem, nodes, Dims(values[e := v]), sessions, z, c)
    {
      assert CacheSized(sem, nodes, Dims(values), sessions, z, c) && CacheOk(nodes, at, sessions, c);
      forall j: nat | j < |sessions[c].pipeline| ensures !DependsOn(nodes, sessions[c].pipeline[j].expr, e) {
        if DependsOn(nodes, sessions[c].pipeline[j].expr, e) {
          EntryDepends(nodes, at, sessions, c, j, e);
        }
      }
      SizedUnaffected(sem, nodes, Dims(values), at, sessions[c], z.dims[c], z.sizes[c], e, v.dims);
    }
  }

  /** What a resize does to shapes and marks: expressions and caches are marked exactly where the walk from e comes. */
  ghost predicate Remarked(nodes: Nodes, at: Placement, e: nat, dims: Shape, s0: Shapes, d0: seq<bool>, s: Shapes,
      d: seq<bool>)
    requires ShapesFor(nodes, s0) && ShapesFor(nodes, s) && Placed(nodes, at) && e < |nodes|
  {
    && s.leaves == s0.leaves[e := dims] && MarkedBy(Reshaped(s0, e, dims), s) && |d| == |d0|
    && (forall y: nat :: New(Marks(s0), Marks(s), y) <==> Open(nodes, Marks(s0), y, e))
    && (forall x: nat :: x < |nodes| && DependsOn(nodes, x, e) ==> s.dirty[x])
    && (forall c: nat :: c < |d| ==> (d[c] <==> d0[c] || HoldsOpen(nodes, at, Marks(s0), c, e)))
    && (Exposed(nodes, at, Marks(s0), d0, e) <==>
      forall c: nat :: c < |d| && CachesDependent(nodes, at, c, e) ==> d[c])
  }

  lemma WalkRemarks(sem: Semantics, nodes: Nodes, at: Placement, e: nat, dims: Shape, s0: Shapes, d0: seq<bool>,
      s: Shapes, d: seq<bool>)
    requires Walked(sem, nodes, s0, e, dims, s) && OnlyOpen(nodes, Marks(s0), Marks(s), e) && Placed(nodes, at)
    requires DirtiedBy(at, Marks(s0), Marks(s), d0, d)
    ensures Remarked(nodes, at, e, dims, s0, d0, s, d)
  {
    forall y: nat ensures New(Marks(s0), Marks(s), y) <==> Open(nodes, Marks(s0), y, e) {
      if Open(nodes, Marks(s0), y, e) {
        OpenIsMarked(nodes, Marks(s0), Marks(s), y, e);
      }
    }
    forall x: nat | x < |nodes| && DependsOn(nodes, x, e) ensures s.dirty[x] {
      if !s.dirty[x] {
        CleanIsUnaffected(sem, nodes, s0, e, dims, s, x);
      }
    }
    forall c: nat | c < |d| ensures d[c] <==> d0[c] || HoldsOpen(nodes, at, Marks(s0), c, e) {
      TouchedIffOpen(nodes, at, Marks(s0), Marks(s), c, e);
    }
  }

  /** Cache c runs an operator that reads leaf e itself. */
  ghost predicate Reads(nodes: Nodes, s: Session, e: nat) {
    exists j: nat, i: nat :: ReadsAt(nodes, s, e, j, i)
  }

  ghost predicate ReadsAt(nodes: Nodes, s: Session, e: nat, j: nat, i: nat) {
    j < |s.pipeline| && s.pipeline[j].expr < |nodes| && i < |nodes[s.pipeline[j].expr].inputs|
    && nodes[s.pipeline[j].expr].inputs[i].expr == e
  }

  /** Such a cache is prepared for the dimensions that the leaf had. */
  lemma ReaderIsUnsized(sem: Semantics, nodes: Nodes, shapes: seq<Shape>, s: Session, dims: seq<Shape>,
      sizes: seq<seq<Shape>>, dims': seq<Shape>, e: nat, d: Shape)
    requires Acyclic(nodes) && |shapes| == |nodes| && e < |nodes| && IsLeaf(nodes, e) && shapes[e] != d
    requires Reads(nodes, s, e) && Sized(sem, nodes, shapes, s, dims, sizes)
    ensures !Sized(sem, nodes, shapes[e := d], s, dims', sizes)
  {
    var j: nat, i: nat :| ReadsAt(nodes, s, e, j, i);
    var x := s.pipeline[j].expr;
    assert SizedAt(sem, nodes, shapes, s, sizes, j);
    DenPrefixAt(sem.infer, nodes, shapes, x, |nodes[x].inputs|, i);
    DenPrefixAt(sem.infer, nodes, shapes[e := d], x, |nodes[x].inputs|, i);
    assert !SizedAt(sem, nodes, shapes[e := d], s, sizes, j);
  }

  /** Every cache that reads the leaf itself is marked. */
  ghost predicate ReadersMarked(nodes: Nodes, sessions: seq<Session>, shapeDirty: seq<bool>, e: nat) {
    forall c: nat :: c < |sessions| && c < |shapeDirty| && Reads(nodes, sessions[c], e) ==> shapeDirty[c]
  }

  /** Where one of them is not, it is no longer sized. */
  lemma SizedMeansMarked(sem: Semantics, nodes: Nodes, shapes: seq<Shape>, sessions: seq<Session>, z: Sizing,
      d0: seq<bool>, d1: seq<bool>, e: nat, dims: Shape)
    requires Acyclic(nodes) && |shapes| == |nodes| && SizingFor(sessions, z) && |d0| == |sessions| == |d1|
    requires e < |nodes| && IsLeaf(nodes, e) && shapes[e] != dims && AllSized(sem, nodes, shapes, sessions, z, d0)
    requires forall c: nat :: c < |d0| && d0[c] ==> d1[c]
    requires AllSized(sem, nodes, shapes[e := dims], sessions, z, d1)
    ensures ReadersMarked(nodes, sessions, d1, e)
  {
    forall c: nat | c < |sessions| && Reads(nodes, sessions[c], e) ensures d1[c] {
      if !d1[c] {
        assert CacheSized(sem, nodes, shapes, sessions, z, c);
        assert CacheSized(sem, nodes, shapes[e := dims], sessions, z, c);
        ReaderIsUnsized(sem, nodes, shapes, sessions[c], z.dims[c], z.sizes[c], z.dims[c], e, dims);
      }
    }
  }

  // ---------------------------------------------------------------- exactly when caches stay right

  /** Clean caches hold the right contents, and no unmarked cache runs for outdated sizes. */
  ghost predicate SoundFor(sem: Semantics, nodes: Nodes, values: seq<Value>, at: Placement, sessions: seq<Session>,
      tensors: seq<seq<Value>>, z: Sizing, contentDirty: seq<bool>, shapeDirty: seq<bool>)
    requires Acyclic(nodes) && |values| == |nodes| && Placed(nodes, at) && SizingFor(sessions, z)
    requires |tensors| == |sessions| && |contentDirty| == |sessions| && |shapeDirty| == |sessions|
  {
    && Fresh(sem, nodes, values, at, tensors, contentDirty, shapeDirty)
    && AllSized(sem, nodes, Dims(values), sessions, z, shapeDirty)
  }

  /** Whatever the operators are for which they are right now, and whatever leaf e gets, caches stay right. */
  ghost predicate StaySound(nodes: Nodes, values: seq<Value>, at: Placement, sessions: seq<Session>,
      tensors: seq<seq<Value>>, z: Sizing, contentDirty: seq<bool>, d0: seq<bool>, d1: seq<bool>, e: nat)
    requires Acyclic(nodes) && |values| == |nodes| && Placed(nodes, at) && SizingFor(sessions, z) && e < |nodes|
    requires |tensors| == |sessions| && |contentDirty| == |sessions| && |d0| == |sessions| && |d1| == |sessions|
  {
    forall sem: Semantics, v: Value ::
      StaysSound(sem, nodes, values, at, sessions, tensors, z, contentDirty, d0, d1, e, v)
  }

  ghost predicate StaysSound(sem: Semantics, nodes: Nodes, values: seq<Value>, at: Placement, sessions: seq<Session>,
      tensors: seq<seq<Value>>, z: Sizing, contentDirty: seq<bool>, d0: seq<bool>, d1: seq<bool>, e: nat, v: Value)
    requires Acyclic(nodes) && |values| == |nodes| && Placed(nodes, at) && SizingFor(sessions, z) && e < |nodes|
    requires |tensors| == |sessions| && |contentDirty| == |sessions| && |d0| == |sessions| && |d1| == |sessions|
  {
    SoundFor(sem, nodes, values, at, sessions, tensors, z, contentDirty, d0) ==>
      SoundFor(sem, nodes, values[e := v], at, sessions, tensors, z, contentDirty, d1)
  }

  /** The marks that the walk from e adds. */
  ghost predicate MarksFound(nodes: Nodes, at: Placement, m: seq<bool>, d0: seq<bool>, d1: seq<bool>, e: nat)
    requires Acyclic(nodes) && Placed(nodes, at) && |m| == |nodes|
  {
    |d1| == |d0| && forall c: nat :: c < |d1| ==> (d1[c] <==> d0[c] || HoldsOpen(nodes, at, m, c, e))
  }

  /**
   Where the guard fails, caches are wrong for some operators for which they were right: a leaf can get a shape such
   that an unmarked cache holds a dependent y of it, and every run of that cache, whatever it reads, gives y another
   value than the one from scratch.
   */
  lemma UnexposedGoesWrong(sem: Semantics, nodes: Nodes, values: seq<Value>, at: Placement, sessions: seq<Session>,
      tensors: seq<seq<Value>>, z: Sizing, contentDirty: seq<bool>, m: seq<bool>, d0: seq<bool>, d1: seq<bool>, e: nat)
    returns (sem': Semantics, v: Value, c: nat, y: nat)
    requires Acyclic(nodes) && |values| == |nodes| && Placed(nodes, at) && CachesOk(nodes, at, sessions)
    requires SizingFor(sessions, z) && |tensors| == |sessions| && |contentDirty| == |sessions|
    requires |d0| == |sessions| && |m| == |nodes| && e < |nodes| && IsLeaf(nodes, e)
    requires SoundFor(sem, nodes, values, at, sessions, tensors, z, contentDirty, d0)
    requires MarksFound(nodes, at, m, d0, d1, e) && !Exposed(nodes, at, m, d0, e)
    ensures SoundFor(sem', nodes, values, at, sessions, tensors, z, contentDirty, d0)
    ensures !SoundFor(sem', nodes, values[e := v], at, sessions, tensors, z, contentDirty, d1)
    ensures c < |sessions| && !d1[c] && y < |nodes| && at.cacheOf[y] == Some(c) && DependsOn(nodes, y, e)
    ensures var after := values[e := v];
      forall held: seq<seq<Value>>, own: seq<Value> ::
        RunIsWrong(sem', nodes, after, held, sessions[c], z.sizes[c], own, y, at.offsetOf[y])
  {
    var w := AbsentExists(sem, nodes, Dims(values));
    sem', v := Spreading(sem, w), Value(w, []);
    FreshSame(sem, nodes, values, w, at, tensors, contentDirty, d0);
    forall k: nat | k < |sessions| && !d0[k] ensures CacheSized(sem', nodes, Dims(values), sessions, z, k) {
      assert CacheSized(sem, nodes, Dims(values), sessions, z, k);
      SizedSame(sem, nodes, Dims(values), w, sessions[k], z.dims[k], z.sizes[k]);
    }
    c :| c < |d0| && CachesDependent(nodes, at, c, e) && !d0[c] && !HoldsOpen(nodes, at, m, c, e);
    y :| y < |nodes| && DependentIn(nodes, at, y, c, e);
    assert PlaceOk(nodes, at, sessions, y) && CacheSized(sem, nodes, Dims(values), sessions, z, c);
    var s := sessions[c];
    var j: nat :| j < |s.pipeline| && IsEntry(s, j, y, at.offsetOf[y]);
    assert Dims(values[e := v]) == Dims(values)[e := w];
    NoLongerSized(sem, nodes, Dims(values), w, s, z.dims[c], z.sizes[c], z.dims[c], e, j);
    assert !CacheSized(sem', nodes, Dims(values[e := v]), sessions, z, c);
    var after := values[e := v];
    forall held: seq<seq<Value>>, own: seq<Value>
      ensures RunIsWrong(sem', nodes, after, held, s, z.sizes[c], own, y, at.offsetOf[y])
    {
      if Done(RunStep(sem', nodes, s, z.sizes[c]), nodes, after, held, s, own, Value([], []), |s.pipeline|) {
        StaleRunIsWrong(sem, nodes, values, v, held, s, z.dims[c], z.sizes[c], own, e, j);
      }
    }
  }

  /** If own is what a run of session s stores, then no output of y is among it from `first` on. */
  ghost predicate RunIsWrong(sem: Semantics, nodes: Nodes, values: seq<Value>, held: seq<seq<Value>>, s: Session,
      sizes: seq<seq<Shape>>, own: seq<Value>, y: nat, first: nat)
    requires Acyclic(nodes) && |values| == |nodes| && y < |nodes|
  {
    Done(RunStep(sem, nodes, s, sizes), nodes, values, held, s, own, Value([], []), |s.pipeline|) ==>
      first + nodes[y].outputs <= |own| &&
      forall k: nat :: k < nodes[y].outputs ==> own[first + k] != Den(sem.Whole(), nodes, values, Port(y, k))
  }

  /** Caches stay right whatever the operators and the leaf's new value are exactly if the guard holds. */
  lemma RightIffExposed(sem: Semantics, nodes: Nodes, values: seq<Value>, at: Placement, sessions: seq<Session>,
      tensors: seq<seq<Value>>, z: Sizing, contentDirty: seq<bool>, m: seq<bool>, d0: seq<bool>, d1: seq<bool>, e: nat)
    requires Acyclic(nodes) && |values| == |nodes| && Placed(nodes, at) && CachesOk(nodes, at, sessions)
    requires SizingFor(sessions, z) && |tensors| == |sessions| && |contentDirty| == |sessions|
    requires |d0| == |sessions| && |m| == |nodes| && e < |nodes| && IsLeaf(nodes, e)
    requires SoundFor(sem, nodes, values, at, sessions, tensors, z, contentDirty, d0)
    requires MarksFound(nodes, at, m, d0, d1, e)
    ensures Exposed(nodes, at, m, d0, e) <==>
      StaySound(nodes, values, at, sessions, tensors, z, contentDirty, d0, d1, e)
  {
    if Exposed(nodes, at, m, d0, e) {
      forall sem': Semantics, v: Value
        ensures StaysSound(sem', nodes, values, at, sessions, tensors, z, contentDirty, d0, d1, e, v)
      {
        if SoundFor(sem', nodes, values, at, sessions, tensors, z, contentDirty, d0) {
          ResizeKeepsSound(sem', nodes, values, at, sessions, tensors, z, contentDirty, d0, d1, e, v);
        }
      }
    } else {
      var sem', v, c, y := UnexposedGoesWrong(sem, nodes, values, at, sessions, tensors, z, contentDirty, m, d0, d1, e);
      assert !StaysSound(sem', nodes, values, at, sessions, tensors, z, contentDirty, d0, d1, e, v);
    }
  }

  /** The same for the operators that there are and the value that the leaf gets. */
  lemma ResizedSound(sem: Semantics, nodes: Nodes, values: seq<Value>, at: Placement, sessions: seq<Session>,
      tensors: seq<seq<Value>>, z: Sizing, contentDirty: seq<bool>, m: seq<bool>, d0: seq<bool>, d1: seq<bool>, e: nat,
      v: Value)
    requires Acyclic(nodes) && |values| == |nodes| && Placed(nodes, at) && CachesOk(nodes, at, sessions)
    requires SizingFor(sessions, z) && |tensors| == |sessions| && |contentDirty| == |sessions|
    requires |d0| == |sessions| && |m| == |nodes| && e < |nodes| && IsLeaf(nodes, e) && values[e].dims != v.dims
    requires SoundFor(sem, nodes, values, at, sessions, tensors, z, contentDirty, d0)
    requires MarksFound(nodes, at, m, d0, d1, e)
    ensures Exposed(nodes, at, m, d0, e) ==>
      SoundFor(sem, nodes, values[e := v], at, sessions, tensors, z, contentDirty, d1)
    ensures SoundFor(sem, nodes, values[e := v], at, sessions, tensors, z, contentDirty, d1) ==>
      ReadersMarked(nodes, sessions, d1, e)
    ensures Exposed(nodes, at, m, d0, e) <==>
      StaySound(nodes, values, at, sessions, tensors, z, contentDirty, d0, d1, e)
  {
    RightIffExposed(sem, nodes, values, at, sessions, tensors, z, contentDirty, m, d0, d1, e);
    assert StaySound(nodes, values, at, sessions, tensors, z, contentDirty, d0, d1, e) ==>
      StaysSound(sem, nodes, values, at, sessions, tensors, z, contentDirty, d0, d1, e, v);
    if SoundFor(sem, nodes, values[e := v], at, sessions, tensors, z, contentDirty, d1) {
      assert Dims(values[e := v]) == Dims(values)[e := v.dims];
      SizedMeansMarked(sem, nodes, Dims(values), sessions, z, d0, d1, e, v.dims);
    }
  }

  /** The leaf itself. */
  method Reallocate(g: ExprGraph, e: nat, dims: Shape, memory: seq<real>)
    requires g.Shaped() && ShapesFor(g.nodes, g.shapes) && e < |g.nodes|
    modifies g`shapes, g`unwritten, g`values
    ensures g.shapes == Reshaped(old(g.shapes), e, dims)
    ensures g.unwritten == old(g.unwritten)[e := true] && g.values == old(g.values)[e := Value(dims, memory)]
  {
    g.values := g.values[e := Value(dims, memory)];
    g.shapes := Reshaped(g.shapes, e, dims);
    g.unwritten := g.unwritten[e := true];
  }

  /** The leaf and the marks. */
  method Remark(g: ExprGraph, e: nat, dims: Shape, memory: seq<real>)
    requires g.Valid() && e < |g.nodes| && IsLeaf(g.nodes, e)
    modifies g`shapes, g`shapeDirty, g`unwritten, g`values
    ensures g.Valid()
    ensures Remarked(g.nodes, g.at, e, dims, old(g.shapes), old(g.shapeDirty), g.shapes, g.shapeDirty)
    ensures g.unwritten == old(g.unwritten)[e := true] && g.values == old(g.values)[e := Value(dims, memory)]
  {
    ghost var s0, d0 := g.shapes, g.shapeDirty;
    ReshapedMarks(g.sem, g.nodes, s0, e, dims);
    Reallocate(g, e, dims, memory);
    MarkOutputs(g, e);
    forall y: nat | Open(g.nodes, Marks(s0), y, e) ensures DependsOn(g.nodes, y, e) {
      OpenDepends(g.nodes, Marks(s0), y, e);
    }
    WalkRemarks(g.sem, g.nodes, g.at, e, dims, s0, d0, g.shapes, g.shapeDirty);
    WalkKeepsInfos(g.sem, g.nodes, s0, e, dims, g.shapes);
  }

  lemma SoundIsSoundFor(g: ExprGraph)
    requires g.Runnable()
    ensures g.Sound() <==>
      SoundFor(g.sem, g.nodes, g.values, g.at, g.sessions, g.tensors, g.sizing, g.contentDirty, g.shapeDirty)
  {
  }

  /**
   New dimensions for a leaf. Its contents are fresh memory, and an INPUT has to be written again; everything that
   depends on it has to be inferred again. Caches stay right if the guard holds, and for all operators and all new
   values of the leaf exactly if it holds. Where a cache that reads the leaf itself ends up unmarked, they do not.
   */
  method Resize(g: ExprGraph, e: nat, dims: Shape, memory: seq<real>)
    requires g.Valid() && e < |g.nodes| && IsLeaf(g.nodes, e)
    modifies g`shapes, g`shapeDirty, g`unwritten, g`values
    ensures g.Valid()
    ensures if old(g.shapes).leaves[e] == dims then
        && g.shapes == old(g.shapes) && g.shapeDirty == old(g.shapeDirty)
        && g.unwritten == old(g.unwritten) && g.values == old(g.values)
      else
        && Remarked(g.nodes, g.at, e, dims, old(g.shapes), old(g.shapeDirty), g.shapes, g.shapeDirty)
        && g.unwritten == old(g.unwritten)[e := true] && g.values == old(g.values)[e := Value(dims, memory)]
    ensures old(g.Sound() && Guarded(g, e, dims)) ==> g.Sound()
    ensures old(g.Sound()) && old(g.shapes).leaves[e] != dims ==>
      (old(Guarded(g, e, dims)) <==>
        StaySound(g.nodes, old(g.values), g.at, g.sessions, g.tensors, g.sizing, g.contentDirty, old(g.shapeDirty),
          g.shapeDirty, e))
    ensures old(g.Sound()) && g.Sound() && old(g.shapes).leaves[e] != dims ==>
      ReadersMarked(g.nodes, g.sessions, g.shapeDirty, e)
  {
    if g.shapes.leaves[e] == dims {
      return;
    }
    ghost var m, d0, values0 := Marks(g.shapes), g.shapeDirty, g.values;
    SoundIsSoundFor(g);
    Remark(g, e, dims, memory);
    SoundIsSoundFor(g);
    if old(g.Sound()) {
      ResizedSound(g.sem, g.nodes, values0, g.at, g.sessions, g.tensors, g.sizing, g.contentDirty, m, d0, g.shapeDirty,
        e, Value(dims, memory));
    }
  }
}
