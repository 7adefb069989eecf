/**
 The state of the lazy executor: every expression's and cache's fields (express/Utils.hpp:22-76,
 include/MNN/expr/Expr.hpp), one sequence per field, indexed by creation order.
 */
module ExprGraphs {
  import opened Wrappers
  import opened ExprModel
  import opened Sessions

  // ---------------------------------------------------------------- consumer lists

  /** Expression x has e among its inputs. */
  ghost predicate Consumes(nodes: Nodes, x: nat, e: nat) {
    x < |nodes| && exists i: nat :: i < |nodes[x].inputs| && nodes[x].inputs[i].expr == e
  }

  /** Consumer lists hold exactly the consumers. */
  ghost predicate Linked(nodes: Nodes, to: seq<seq<nat>>) {
    |to| == |nodes| && forall e: nat, x: nat :: e < |nodes| ==> (x in to[e] <==> Consumes(nodes, x, e))
  }

  ghost predicate Unvisited(visited: seq<bool>) {
    forall e: nat :: e < |visited| ==> !visited[e]
  }

  // ---------------------------------------------------------------- caches

  /** Expression e is placed in cache c, or something placed there depends on it. */
  ghost predicate Serves(nodes: Nodes, at: Placement, c: nat, e: nat)
    requires Placed(nodes, at)
  {
    exists y: nat :: y < |nodes| && at.cacheOf[y] == Some(c) && (y == e || (Acyclic(nodes) && DependsOn(nodes, y, e)))
  }

  /** Something placed in cache c depends on something placed in cache d. */
  ghost predicate GroupReads(nodes: Nodes, cacheOf: seq<Option<nat>>, c: nat, d: nat) {
    Acyclic(nodes) && exists y: nat, x: nat ::
      y < |cacheOf| && x < |cacheOf| && cacheOf[y] == Some(c) && cacheOf[x] == Some(d) && DependsOn(nodes, y, x)
  }

  /** What cache c reads is older than c and needed, and it computes nothing that is not asked for. */
  ghost predicate CacheOk(nodes: Nodes, at: Placement, sessions: seq<Session>, c: nat)
    requires Placed(nodes, at) && c < |sessions|
  {
    && SessionOk(nodes, at, sessions[c])
    && (forall d :: d in sessions[c].inputs ==> d < c && GroupReads(nodes, at.cacheOf, c, d))
    && (forall l :: l in sessions[c].inputInside ==> l < |nodes| && IsLeaf(nodes, l) && nodes[l].kind.Input?)
    && (forall j: nat :: j < |sessions[c].pipeline| ==> Serves(nodes, at, c, sessions[c].pipeline[j].expr))
  }

  /** An expression's cache computes it. */
  ghost predicate PlaceOk(nodes: Nodes, at: Placement, sessions: seq<Session>, e: nat)
    requires Placed(nodes, at) && e < |nodes|
  {
    at.cacheOf[e].Some? ==>
      && !IsLeaf(nodes, e) && at.cacheOf[e].value < |sessions|
      && HasEntry(sessions[at.cacheOf[e].value], e, at.offsetOf[e])
  }

  ghost predicate CachesOk(nodes: Nodes, at: Placement, sessions: seq<Session>)
    requires Placed(nodes, at)
  {
    && (forall c: nat :: c < |sessions| ==> CacheOk(nodes, at, sessions, c))
    && (forall e: nat :: e < |nodes| ==> PlaceOk(nodes, at, sessions, e))
  }

  ghost predicate Allocated(sessions: seq<Session>, tensors: seq<seq<Value>>) {
    |tensors| == |sessions| && forall c: nat :: c < |sessions| ==> |tensors[c]| == sessions[c].tensors
  }

  /**
   What each cache's session was resized for: the dimensions of its tensors, the sizes of the inputs that each
   operator was prepared for, and whether the last resize failed (mNeedResize), so that it cannot run.
   */
  datatype Sizing = Sizing(dims: seq<seq<Shape>>, sizes: seq<seq<seq<Shape>>>, needResize: seq<bool>)

  ghost predicate SizingFor(sessions: seq<Session>, z: Sizing) {
    && |z.dims| == |sessions| && |z.sizes| == |sessions| && |z.needResize| == |sessions|
    && forall c: nat :: c < |sessions| ==> |z.dims[c]| == sessions[c].tensors
  }

  /** Cache c is resized for the shapes that its expressions have now. */
  ghost predicate CacheSized(sem: Semantics, nodes: Nodes, shapes: seq<Shape>, sessions: seq<Session>, z: Sizing,
      c: nat)
    requires Acyclic(nodes) && |shapes| == |nodes| && SizingFor(sessions, z) && c < |sessions|
  {
    !z.needResize[c] && Sized(sem, nodes, shapes, sessions[c], z.dims[c], z.sizes[c])
  }

  /** Every cache is, or is marked to be resized before it runs again. */
  ghost predicate AllSized(sem: Semantics, nodes: Nodes, shapes: seq<Shape>, sessions: seq<Session>, z: Sizing,
      shapeDirty: seq<bool>)
    requires Acyclic(nodes) && |shapes| == |nodes| && SizingFor(sessions, z) && |shapeDirty| == |sessions|
  {
    forall c: nat :: c < |sessions| && !shapeDirty[c] ==> CacheSized(sem, nodes, shapes, sessions, z, c)
  }

  /** Every expression placed in a clean cache is stored there with its value from scratch. */
  ghost predicate Fresh(sem: Semantics, nodes: Nodes, values: seq<Value>, at: Placement, tensors: seq<seq<Value>>,
      contentDirty: seq<bool>, shapeDirty: seq<bool>)
    requires Acyclic(nodes) && |values| == |nodes| && Placed(nodes, at)
    requires |contentDirty| == |tensors| && |shapeDirty| == |tensors|
  {
    forall c: nat :: c < |tensors| && !contentDirty[c] && !shapeDirty[c] ==>
      HoldsAll(sem.Whole(), nodes, values, at, tensors[c], c)
  }

  // ---------------------------------------------------------------- shapes

  /** The shape side of the state. */
  datatype Shapes = Shapes(leaves: seq<Shape>, infos: seq<seq<Shape>>, dirty: seq<bool>, valid: seq<bool>)

  ghost predicate ShapesFor(nodes: Nodes, s: Shapes) {
    Acyclic(nodes) && |s.leaves| == |nodes| && |s.infos| == |nodes| && |s.dirty| == |nodes| && |s.valid| == |nodes|
  }

  ghost predicate InputsInfoClean(nodes: Nodes, s: Shapes, e: nat)
    requires ShapesFor(nodes, s) && e < |nodes|
  {
    NodeOk(nodes, e) && forall i: nat :: i < |nodes[e].inputs| ==> !s.dirty[nodes[e].inputs[i].expr]
  }

  /** The recorded shapes are those inferred from scratch. */
  ghost predicate InfoIsInferred(sem: Semantics, nodes: Nodes, s: Shapes, e: nat)
    requires ShapesFor(nodes, s) && e < |nodes|
  {
    |s.infos[e]| == nodes[e].outputs &&
    forall k: nat :: k < nodes[e].outputs ==> s.infos[e][k] == Den(sem.infer, nodes, s.leaves, Port(e, k))
  }

  ghost predicate InputInvalid(nodes: Nodes, s: Shapes, e: nat, i: nat)
    requires ShapesFor(nodes, s) && e < |nodes| && i < |nodes[e].inputs|
  {
    NodeOk(nodes, e) && !s.valid[nodes[e].inputs[i].expr]
  }

  /** Why an expression is invalid: an input is, or inference fails on its inputs' known shapes. */
  ghost predicate Refuted(sem: Semantics, nodes: Nodes, s: Shapes, e: nat)
    requires ShapesFor(nodes, s) && e < |nodes| && !IsLeaf(nodes, e)
  {
    || (exists i: nat :: i < |nodes[e].inputs| && InputInvalid(nodes, s, e, i))
    || (InputsInfoClean(nodes, s, e) &&
        !sem.inferable(nodes[e].op.value, DenPrefix(sem.infer, nodes, s.leaves, e, |nodes[e].inputs|)))
  }

  /** A clean expression has clean inputs and the shape inferred from scratch; an invalid one is refuted. */
  ghost predicate InfoOk(sem: Semantics, nodes: Nodes, s: Shapes, e: nat)
    requires ShapesFor(nodes, s) && e < |nodes|
  {
    if IsLeaf(nodes, e) then !s.dirty[e] && s.valid[e] && InfoIsInferred(sem, nodes, s, e)
    else
      && (!s.dirty[e] ==>
            s.valid[e] && HasShape(sem, nodes, s.leaves, e) && InputsInfoClean(nodes, s, e)
            && InfoIsInferred(sem, nodes, s, e))
      && (!s.valid[e] ==> Refuted(sem, nodes, s, e))
  }

  ghost predicate InfosOk(sem: Semantics, nodes: Nodes, s: Shapes) {
    ShapesFor(nodes, s) && forall e: nat :: e < |nodes| ==> InfoOk(sem, nodes, s, e)
  }

  // ---------------------------------------------------------------- the state

  class ExprGraph {
    const sem: Semantics

    /** Operator, inputs and type of each expression, and its consumers (mTo; one entry per input position). */
    var nodes: Nodes
    var to: seq<seq<nat>>

    /** The contents of leaves, and whether they have yet to be written (mInside->mContentDirty). */
    var values: seq<Value>
    var unwritten: seq<bool>

    /** mOutputInfos, of leaves and of operators, with mInfoDirty and mValid. */
    var shapes: Shapes

    var visited: seq<bool>

    /** mCache and mCacheOffset. */
    var at: Placement

    /** The compute caches: pipelines, tensors, what they are resized for, mContentDirty and mShapeDirty. */
    var sessions: seq<Session>
    var tensors: seq<seq<Value>>
    var sizing: Sizing
    var contentDirty: seq<bool>
    var shapeDirty: seq<bool>

    constructor (semantics: Semantics)
      ensures sem == semantics && nodes == [] && sessions == []
      ensures Valid() && Sound()
    {
      sem := semantics;
      nodes, to, values, unwritten, visited := [], [], [], [], [];
      shapes := Shapes([], [], [], []);
      at := Placement([], []);
      sessions, tensors, contentDirty, shapeDirty := [], [], [], [];
      sizing := Sizing([], [], []);
    }

    ghost predicate Shaped()
      reads this
    {
      && Acyclic(nodes) && Placed(nodes, at)
      && |values| == |nodes| && |unwritten| == |nodes| && |visited| == |nodes|
      && |tensors| == |sessions| && |contentDirty| == |sessions| && |shapeDirty| == |sessions|
    }

    /** What computing caches needs and keeps. */
    ghost predicate Runnable()
      reads this
    {
      && Shaped() && CachesOk(nodes, at, sessions) && Allocated(sessions, tensors) && SizingFor(sessions, sizing)
      && InfosOk(sem, nodes, shapes) && shapes.leaves == Dims(values)
    }

    /** What every operation keeps. */
    ghost predicate Valid()
      reads this
    {
      Runnable() && Linked(nodes, to) && Unvisited(visited)
    }

    /** What makes reads right: clean caches hold the right contents, and no cache runs for outdated sizes. */
    ghost predicate Sound()
      requires Runnable()
      reads this
    {
      && Fresh(sem, nodes, values, at, tensors, contentDirty, shapeDirty)
      && AllSized(sem, nodes, shapes.leaves, sessions, sizing, shapeDirty)
    }
  }
}
