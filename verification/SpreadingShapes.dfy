/**
 Shape inference that shows where a shape gets to: an operator with an input of one particular shape, which nothing has
 now, gives that shape; otherwise it infers what it did. So every statement about what there is now stays true, and a
 leaf that gets that shape passes it on to all its dependents.
 */
module SpreadingShapes {
  import opened Wrappers
  import opened ExprModel
  import opened Sessions
  import opened ExprGraphs

  function Spreading(sem: Semantics, w: Shape): Semantics {
    sem.(infer := (op: nat, sizes: seq<Shape>, k: nat) => if w in sizes then w else sem.infer(op, sizes, k))
  }

  // ---------------------------------------------------------------- a shape that nothing has

  lemma {:induction false} OutputsBounded(sem: Semantics, nodes: Nodes, shapes: seq<Shape>, e: nat, n: nat)
    returns (b: nat)
    requires Acyclic(nodes) && |shapes| == |nodes| && e < |nodes| && n <= nodes[e].outputs
    ensures forall k: nat :: k < n ==> |Den(sem.infer, nodes, shapes, Port(e, k))| < b
  {
    if n == 0 {
      b := 0;
    } else {
      b := OutputsBounded(sem, nodes, shapes, e, n - 1);
      b := b + |Den(sem.infer, nodes, shapes, Port(e, n - 1))| + 1;
    }
  }

  lemma {:induction false} PortsBounded(sem: Semantics, nodes: Nodes, shapes: seq<Shape>, n: nat) returns (b: nat)
    requires Acyclic(nodes) && |shapes| == |nodes| && n <= |nodes|
    ensures forall p: Port :: IsPort(nodes, p) && p.expr < n ==> |Den(sem.infer, nodes, shapes, p)| < b
  {
    if n == 0 {
      b := 0;
    } else {
      var before := PortsBounded(sem, nodes, shapes, n - 1);
      var last := OutputsBounded(sem, nodes, shapes, n - 1, nodes[n - 1].outputs);
      b := before + last;
      forall p: Port | IsPort(nodes, p) && p.expr < n ensures |Den(sem.infer, nodes, shapes, p)| < b {
        assert p == Port(p.expr, p.index);
      }
    }
  }

  ghost predicate Absent(sem: Semantics, nodes: Nodes, shapes: seq<Shape>, w: Shape)
    requires Acyclic(nodes) && |shapes| == |nodes|
  {
    forall p: Port :: IsPort(nodes, p) ==> Den(sem.infer, nodes, shapes, p) != w
  }

  lemma AbsentExists(sem: Semantics, nodes: Nodes, shapes: seq<Shape>) returns (w: Shape)
    requires Acyclic(nodes) && |shapes| == |nodes|
    ensures Absent(sem, nodes, shapes, w)
  {
    var b := PortsBounded(sem, nodes, shapes, |nodes|);
    w := seq(b, _ => 0);
  }

  // ---------------------------------------------------------------- what there is now stays

  /** f and g give the same for what the operators read now. */
  ghost predicate SameNow<T>(f: (nat, seq<T>, nat) -> T, g: (nat, seq<T>, nat) -> T, nodes: Nodes, values: seq<T>)
    requires Acyclic(nodes) && |values| == |nodes|
  {
    forall e: nat, k: nat :: e < |nodes| && !IsLeaf(nodes, e) ==> SameAt(f, g, nodes, values, e, k)
  }

  ghost predicate SameAt<T>(f: (nat, seq<T>, nat) -> T, g: (nat, seq<T>, nat) -> T, nodes: Nodes, values: seq<T>,
      e: nat, k: nat)
    requires Acyclic(nodes) && |values| == |nodes| && e < |nodes| && !IsLeaf(nodes, e)
  {
    var vs := DenPrefix(f, nodes, values, e, |nodes[e].inputs|);
    g(nodes[e].op.value, vs, k) == f(nodes[e].op.value, vs, k)
  }

  lemma {:induction false} DenSame<T>(f: (nat, seq<T>, nat) -> T, g: (nat, seq<T>, nat) -> T, nodes: Nodes,
      values: seq<T>, p: Port)
    requires Acyclic(nodes) && |values| == |nodes| && SameNow(f, g, nodes, values) && IsPort(nodes, p)
    ensures Den(g, nodes, values, p) == Den(f, nodes, values, p)
    decreases p.expr, 1, 0
  {
    if !IsLeaf(nodes, p.expr) {
      assert SameAt(f, g, nodes, values, p.expr, p.index);
      DenPrefixSame(f, g, nodes, values, p.expr, |nodes[p.expr].inputs|);
    }
  }

  lemma {:induction false} DenPrefixSame<T>(f: (nat, seq<T>, nat) -> T, g: (nat, seq<T>, nat) -> T, nodes: Nodes,
      values: seq<T>, e: nat, n: nat)
    requires Acyclic(nodes) && |values| == |nodes| && SameNow(f, g, nodes, values)
    requires e < |nodes| && n <= |nodes[e].inputs|
    ensures DenPrefix(g, nodes, values, e, n) == DenPrefix(f, nodes, values, e, n)
    decreases e, 0, n
  {
    if n > 0 {
      assert NodeOk(nodes, e);
      DenPrefixSame(f, g, nodes, values, e, n - 1);
      DenSame(f, g, nodes, values, nodes[e].inputs[n - 1]);
    }
  }

  lemma {:induction false} AbsentInPrefix(sem: Semantics, nodes: Nodes, shapes: seq<Shape>, w: Shape, e: nat, n: nat)
    requires Acyclic(nodes) && |shapes| == |nodes| && Absent(sem, nodes, shapes, w)
    requires e < |nodes| && n <= |nodes[e].inputs|
    ensures w !in DenPrefix(sem.infer, nodes, shapes, e, n)
  {
    forall i: nat | i < n ensures DenPrefix(sem.infer, nodes, shapes, e, n)[i] != w {
      DenPrefixAt(sem.infer, nodes, shapes, e, n, i);
    }
  }

  lemma ShapesSame(sem: Semantics, nodes: Nodes, shapes: seq<Shape>, w: Shape)
    requires Acyclic(nodes) && |shapes| == |nodes| && Absent(sem, nodes, shapes, w)
    ensures SameNow(sem.infer, Spreading(sem, w).infer, nodes, shapes)
  {
    forall e: nat, k: nat | e < |nodes| && !IsLeaf(nodes, e)
      ensures SameAt(sem.infer, Spreading(sem, w).infer, nodes, shapes, e, k)
    {
      AbsentInPrefix(sem, nodes, shapes, w, e, |nodes[e].inputs|);
    }
  }

  lemma ValuesSame(sem: Semantics, nodes: Nodes, values: seq<Value>, w: Shape)
    requires Acyclic(nodes) && |values| == |nodes| && Absent(sem, nodes, Dims(values), w)
    ensures SameNow(sem.Whole(), Spreading(sem, w).Whole(), nodes, values)
  {
    forall e: nat, k: nat | e < |nodes| && !IsLeaf(nodes, e)
      ensures SameAt(sem.Whole(), Spreading(sem, w).Whole(), nodes, values, e, k)
    {
      AbsentInPrefix(sem, nodes, Dims(values), w, e, |nodes[e].inputs|);
      DenPrefixDims(sem, nodes, values, Dims(values), e, |nodes[e].inputs|);
    }
  }

  lemma {:induction false} HasShapeSame(sem: Semantics, nodes: Nodes, shapes: seq<Shape>, w: Shape, e: nat)
    requires Acyclic(nodes) && |shapes| == |nodes| && Absent(sem, nodes, shapes, w) && e < |nodes|
    requires HasShape(sem, nodes, shapes, e)
    ensures HasShape(Spreading(sem, w), nodes, shapes, e)
    decreases e
  {
    if !IsLeaf(nodes, e) {
      ShapesSame(sem, nodes, shapes, w);
      DenPrefixSame(sem.infer, Spreading(sem, w).infer, nodes, shapes, e, |nodes[e].inputs|);
      forall i: nat | i < |nodes[e].inputs|
        ensures HasShape(Spreading(sem, w), nodes, shapes, nodes[e].inputs[i].expr)
      {
        HasShapeSame(sem, nodes, shapes, w, nodes[e].inputs[i].expr);
      }
    }
  }

  lemma HoldsSame<T>(f: (nat, seq<T>, nat) -> T, g: (nat, seq<T>, nat) -> T, nodes: Nodes, values: seq<T>, own: seq<T>,
      e: nat, first: nat)
    requires Acyclic(nodes) && |values| == |nodes| && SameNow(f, g, nodes, values)
    requires Holds(f, nodes, values, own, e, first)
    ensures Holds(g, nodes, values, own, e, first)
  {
    forall k: nat | k < nodes[e].outputs ensures HoldsAt(g, nodes, values, own, Port(e, k), first + k) {
      assert HoldsAt(f, nodes, values, own, Port(e, k), first + k);
      DenSame(f, g, nodes, values, Port(e, k));
    }
  }

  lemma SizedSame(sem: Semantics, nodes: Nodes, shapes: seq<Shape>, w: Shape, s: Session, dims: seq<Shape>,
      sizes: seq<seq<Shape>>)
    requires Acyclic(nodes) && |shapes| == |nodes| && Absent(sem, nodes, shapes, w)
    requires Sized(sem, nodes, shapes, s, dims, sizes)
    ensures Sized(Spreading(sem, w), nodes, shapes, s, dims, sizes)
  {
    ShapesSame(sem, nodes, shapes, w);
    forall j: nat | j < |s.pipeline|
      ensures Holds(Spreading(sem, w).infer, nodes, shapes, dims, s.pipeline[j].expr, s.pipeline[j].first)
      ensures SizedAt(Spreading(sem, w), nodes, shapes, s, sizes, j)
    {
      var e := s.pipeline[j].expr;
      assert SizedAt(sem, nodes, shapes, s, sizes, j);
      HoldsSame(sem.infer, Spreading(sem, w).infer, nodes, shapes, dims, e, s.pipeline[j].first);
      HasShapeSame(sem, nodes, shapes, w, e);
      DenPrefixSame(sem.infer, Spreading(sem, w).infer, nodes, shapes, e, |nodes[e].inputs|);
    }
  }

  lemma FreshSame(sem: Semantics, nodes: Nodes, values: seq<Value>, w: Shape, at: Placement, tensors: seq<seq<Value>>,
      contentDirty: seq<bool>, shapeDirty: seq<bool>)
    requires Acyclic(nodes) && |values| == |nodes| && Absent(sem, nodes, Dims(values), w) && Placed(nodes, at)
    requires |contentDirty| == |tensors| && |shapeDirty| == |tensors|
    requires Fresh(sem, nodes, values, at, tensors, contentDirty, shapeDirty)
    ensures Fresh(Spreading(sem, w), nodes, values, at, tensors, contentDirty, shapeDirty)
  {
    ValuesSame(sem, nodes, values, w);
    forall c: nat, e: nat |
        c < |tensors| && !contentDirty[c] && !shapeDirty[c] && e < |nodes| && at.cacheOf[e] == Some(c)
      ensures Holds(Spreading(sem, w).Whole(), nodes, values, tensors[c], e, at.offsetOf[e])
    {
      assert HoldsAll(sem.Whole(), nodes, values, at, tensors[c], c);
      HoldsSame(sem.Whole(), Spreading(sem, w).Whole(), nodes, values, tensors[c], e, at.offsetOf[e]);
    }
  }

  // ---------------------------------------------------------------- where it gets to

  /** A leaf of that shape passes it on to everything that depends on it. */
  lemma {:induction false} ReachesDependents(sem: Semantics, nodes: Nodes, shapes: seq<Shape>, w: Shape, e: nat, y: nat)
    requires Acyclic(nodes) && |shapes| == |nodes| && e < |nodes| && IsLeaf(nodes, e) && shapes[e] == w
    requires DependsOn(nodes, y, e)
    ensures !IsLeaf(nodes, y) && w in DenPrefix(Spreading(sem, w).infer, nodes, shapes, y, |nodes[y].inputs|)
    ensures forall k: nat :: k < nodes[y].outputs ==> Den(Spreading(sem, w).infer, nodes, shapes, Port(y, k)) == w
    decreases y
  {
    var i: nat :| i < |nodes[y].inputs| && InputLeadsTo(nodes, y, i, e);
    var p := nodes[y].inputs[i];
    assert NodeOk(nodes, y);
    if p.expr != e {
      ReachesDependents(sem, nodes, shapes, w, e, p.expr);
      assert p == Port(p.expr, p.index);
    }
    DenPrefixAt(Spreading(sem, w).infer, nodes, shapes, y, |nodes[y].inputs|, i);
    assert DenPrefix(Spreading(sem, w).infer, nodes, shapes, y, |nodes[y].inputs|)[i] == w;
  }

  /** A session that computes such an expression is prepared for other sizes. */
  lemma NoLongerSized(sem: Semantics, nodes: Nodes, shapes: seq<Shape>, w: Shape, s: Session, dims: seq<Shape>,
      sizes: seq<seq<Shape>>, dims': seq<Shape>, e: nat, j: nat)
    requires Acyclic(nodes) && |shapes| == |nodes| && Absent(sem, nodes, shapes, w) && e < |nodes| && IsLeaf(nodes, e)
    requires Sized(sem, nodes, shapes, s, dims, sizes) && j < |s.pipeline| && DependsOn(nodes, s.pipeline[j].expr, e)
    ensures !Sized(Spreading(sem, w), nodes, shapes[e := w], s, dims', sizes)
  {
    var y := s.pipeline[j].expr;
    assert SizedAt(sem, nodes, shapes, s, sizes, j);
    AbsentInPrefix(sem, nodes, shapes, w, y, |nodes[y].inputs|);
    ReachesDependents(sem, nodes, shapes[e := w], w, e, y);
    assert !SizedAt(Spreading(sem, w), nodes, shapes[e := w], s, sizes, j);
  }

  /** And gives all its outputs another shape than they should have, whatever it reads. */
  lemma StaleRunIsWrong(sem: Semantics, nodes: Nodes, values: seq<Value>, v: Value, tensors: seq<seq<Value>>,
      s: Session, dims: seq<Shape>, sizes: seq<seq<Shape>>, own: seq<Value>, e: nat, j: nat)
    requires Acyclic(nodes) && |values| == |nodes| && Absent(sem, nodes, Dims(values), v.dims)
    requires e < |nodes| && IsLeaf(nodes, e) && Sized(sem, nodes, Dims(values), s, dims, sizes)
    requires j < |s.pipeline| && DependsOn(nodes, s.pipeline[j].expr, e)
    requires Done(RunStep(Spreading(sem, v.dims), nodes, s, sizes), nodes, values[e := v], tensors, s, own,
      Value([], []), |s.pipeline|)
    ensures s.pipeline[j].first + nodes[s.pipeline[j].expr].outputs <= |own|
    ensures var y := s.pipeline[j].expr;
      forall k: nat :: k < nodes[y].outputs ==>
        own[s.pipeline[j].first + k] != Den(Spreading(sem, v.dims).Whole(), nodes, values[e := v], Port(y, k))
  {
    var w, y, first, values' := v.dims, s.pipeline[j].expr, s.pipeline[j].first, values[e := v];
    var sem' := Spreading(sem, w);
    assert SizedAt(sem, nodes, Dims(values), s, sizes, j);
    AbsentInPrefix(sem, nodes, Dims(values), w, y, |nodes[y].inputs|);
    assert Dims(values') == Dims(values)[e := w];
    ReachesDependents(sem, nodes, Dims(values'), w, e, y);
    var vs := Inputs(values', tensors, s, own, Value([], []), j);
    assert EntryDone(RunStep(sem', nodes, s, sizes), nodes, values', tensors, s, own, Value([], []), j);
    forall k: nat | k < nodes[y].outputs ensures own[first + k] != Den(sem'.Whole(), nodes, values', Port(y, k)) {
      assert own[first + k] == RunStep(sem', nodes, s, sizes)(j, vs, k);
      assert own[first + k].dims == sem.infer(nodes[y].op.value, sizes[j], k);
      assert own[first + k].dims == Den(sem.infer, nodes, Dims(values), Port(y, k));
      DenDims(sem', nodes, values', Dims(values'), Port(y, k));
    }
  }
}
