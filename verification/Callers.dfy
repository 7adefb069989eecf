/**
 The machine without caches, as a caller sees it: the leaves' contents, and notes that a caller can keep of which
 variables are computed together, which shapes have been asked for, and what has been computed since a resize.
 */
module Callers {
  import opened Wrappers
  import opened ExprModel
  import opened Sessions
  import opened ExprGraphs
  import opened CacheWalks
  import opened ResizeCaches
  import opened InformDirty
  import opened InferShapes
  import opened ExprCreate
  import opened ExprRead

  /**
   group: the variables prepared together, by number; known: asked for a shape, and given one, since a resize last
   concerned them; unsized: groups not computed since they were made, or since a resize last concerned a member
   that was known.
   */
  datatype World = World(nodes: Nodes, values: seq<Value>, unwritten: seq<bool>,
    group: seq<Option<nat>>, known: seq<bool>, unsized: seq<bool>)

  const Empty: World := World([], [], [], [], [], [])

  ghost predicate WorldOk(w: World) {
    && Acyclic(w.nodes) && |w.values| == |w.nodes| && |w.unwritten| == |w.nodes|
    && |w.group| == |w.nodes| && |w.known| == |w.nodes|
  }

  ghost predicate Shaped(sem: Semantics, w: World, e: nat)
    requires WorldOk(w) && e < |w.nodes|
  {
    HasShape(sem, w.nodes, Dims(w.values), e)
  }

  // ---------------------------------------------------------------- groups

  /** Computing group c may involve group d. */
  ghost predicate Reach(nodes: Nodes, group: seq<Option<nat>>, c: nat, d: nat)
    decreases c
  {
    d == c || exists m: nat :: m < c && GroupReads(nodes, group, c, m) && Reach(nodes, group, m, d)
  }

  lemma {:induction false} UnderIsReach(nodes: Nodes, at: Placement, sessions: seq<Session>, c: nat, d: nat)
    requires Acyclic(nodes) && Placed(nodes, at) && CachesOk(nodes, at, sessions) && Ordered(sessions)
    requires c < |sessions| && Under(sessions, c, d)
    ensures Reach(nodes, at.cacheOf, c, d)
    decreases c
  {
    if d != c {
      var m: nat :| m in sessions[c].inputs && Under(sessions, m, d);
      assert CacheOk(nodes, at, sessions, c);
      UnderIsReach(nodes, at, sessions, m, d);
    }
  }

  /** Every member of the groups that computing e may involve has a shape. */
  ghost predicate AllShaped(sem: Semantics, w: World, e: nat)
    requires WorldOk(w) && e < |w.nodes|
  {
    forall x: nat :: x < |w.nodes| && MayInvolve(w, e, x) ==> Shaped(sem, w, x)
  }

  ghost predicate MayInvolve(w: World, e: nat, x: nat)
    requires WorldOk(w) && e < |w.nodes| && x < |w.nodes|
  {
    w.group[e].Some? && w.group[x].Some? && Reach(w.nodes, w.group, w.group[e].value, w.group[x].value)
  }

  // ---------------------------------------------------------------- notes

  /** Asking e for its shape tells that of x. */
  ghost predicate Tells(sem: Semantics, w: World, e: nat, x: nat)
    requires WorldOk(w)
  {
    e < |w.nodes| && !IsLeaf(w.nodes, e) && Shaped(sem, w, e) && (x == e || DependsOn(w.nodes, e, x))
  }

  ghost predicate Told(sem: Semantics, w: World, es: seq<nat>, x: nat)
    requires WorldOk(w)
  {
    exists e: nat :: e in es && Tells(sem, w, e, x)
  }

  /** After the shapes of es were asked for. */
  ghost function Asked(sem: Semantics, w: World, es: seq<nat>): (r: World)
    requires WorldOk(w)
    ensures WorldOk(r)
  {
    w.(known := seq(|w.known|, x requires 0 <= x < |w.known| => w.known[x] || Told(sem, w, es, x)))
  }

  /** The expressions among vars that have an operator but no group. */
  ghost function Ungrouped(w: World, vars: seq<nat>): (es: seq<nat>)
    requires WorldOk(w)
    ensures forall e: nat :: e in es <==> e in vars && e < |w.nodes| && !IsLeaf(w.nodes, e) && w.group[e].None?
  {
    if vars == [] then []
    else
      var e := vars[|vars| - 1];
      assert vars == vars[..|vars| - 1] + [e];
      Ungrouped(w, vars[..|vars| - 1]) +
      if e < |w.nodes| && !IsLeaf(w.nodes, e) && w.group[e].None? then [e] else []
  }

  /** After es were made a group. */
  ghost function Grouped(w: World, es: seq<nat>): (r: World)
    requires WorldOk(w)
    ensures WorldOk(r)
  {
    if es == [] then w
    else w.(
      group := seq(|w.group|, x requires 0 <= x < |w.group| => if x in es then Some(|w.unsized|) else w.group[x]),
      unsized := w.unsized + [true])
  }

  /** Computing some of es may resize group d. */
  ghost predicate Involves(w: World, es: seq<nat>, d: nat) {
    exists e: nat :: e in es && e < |w.group| && w.group[e].Some? && Reach(w.nodes, w.group, w.group[e].value, d)
  }

  /** After es were computed. */
  ghost function Computed(w: World, es: seq<nat>): (r: World)
    requires WorldOk(w)
    ensures WorldOk(r)
  {
    w.(unsized := seq(|w.unsized|, d requires 0 <= d < |w.unsized| => w.unsized[d] && !Involves(w, es, d)))
  }

  /** A known member of group c depends on leaf e. */
  ghost predicate KnownDependent(w: World, c: nat, e: nat)
    requires WorldOk(w)
  {
    exists x: nat :: x < |w.nodes| && w.group[x] == Some(c) && w.known[x] && DependsOn(w.nodes, x, e)
  }

  /** After leaf e got new dimensions. */
  ghost function Reshape(w: World, e: nat, v: Value): (r: World)
    requires WorldOk(w) && e < |w.nodes|
    ensures WorldOk(r)
  {
    w.(values := w.values[e := v], unwritten := w.unwritten[e := true],
      known := seq(|w.known|, x requires 0 <= x < |w.known| => w.known[x] && !DependsOn(w.nodes, x, e)),
      unsized := seq(|w.unsized|, c requires 0 <= c < |w.unsized| => w.unsized[c] || KnownDependent(w, c, e)))
  }

  // ---------------------------------------------------------------- requests

  datatype Request =
    | MakeLeaf(kind: LeafType, dims: Shape, data: Option<seq<real>>)
    | MakeExpr(op: nat, inputs: seq<Port>, outputs: nat)
    | WriteLeaf(expr: nat, contents: seq<real>)
    | ResizeLeaf(expr: nat, dims: Shape)
    | AskShape(port: Port)
    | ReadValue(port: Port)
    | Prepare(vars: seq<nat>)
    | ComputeNow(vars: seq<nat>)

  datatype Answer = Silent | ShapeIs(info: Option<Shape>) | ValueIs(value: Option<Value>)

  /** The request only names what exists, and resizes only leaves. */
  predicate Allowed(nodes: Nodes, r: Request) {
    match r
    case MakeLeaf(_, _, _) => true
    case MakeExpr(_, inputs, _) => forall i :: 0 <= i < |inputs| ==> IsPort(nodes, inputs[i])
    case WriteLeaf(e, _) => e < |nodes|
    case ResizeLeaf(e, _) => e < |nodes| && IsLeaf(nodes, e)
    case AskShape(p) => IsPort(nodes, p)
    case ReadValue(p) => IsPort(nodes, p)
    case Prepare(vars) => forall e :: e in vars ==> e < |nodes|
    case ComputeNow(vars) => forall e :: e in vars ==> e < |nodes|
  }

  ghost function AfterPrepare(sem: Semantics, w: World, vars: seq<nat>): (r: World)
    requires WorldOk(w)
    ensures WorldOk(r)
  {
    var es := Ungrouped(w, vars);
    Grouped(Asked(sem, w, es), es)
  }

  /** Before a read fetches anything: asked, and in a group if it has a shape. */
  ghost function ReadyToRead(sem: Semantics, w: World, e: nat): (r: World)
    requires WorldOk(w) && e < |w.nodes|
    ensures WorldOk(r)
  {
    if IsLeaf(w.nodes, e) || !Shaped(sem, w, e) then w else Grouped(Asked(sem, w, [e]), Ungrouped(w, [e]))
  }

  /** What a request does; memory is what fresh buffers hold. */
  ghost function Next(sem: Semantics, w: World, r: Request, memory: nat -> Value): (next: World)
    requires WorldOk(w) && Allowed(w.nodes, r)
    ensures WorldOk(next)
  {
    match r
    case MakeLeaf(kind, dims, data) =>
      AcyclicGrows(w.nodes, Node(None, [], 1, kind));
      World(w.nodes + [Node(None, [], 1, kind)],
        w.values + [Value(dims, if data.Some? then data.value else memory(0).data)],
        w.unwritten + [data.None?], w.group + [None], w.known + [true], w.unsized)
    case MakeExpr(op, inputs, outputs) =>
      AcyclicGrows(w.nodes, Node(Some(op), inputs, outputs, Input));
      World(w.nodes + [Node(Some(op), inputs, outputs, Input)], w.values + [Value([], [])],
        w.unwritten + [true], w.group + [None], w.known + [false], w.unsized)
    case WriteLeaf(e, data) =>
      if IsLeaf(w.nodes, e)
      then w.(values := w.values[e := Value(w.values[e].dims, data)], unwritten := w.unwritten[e := false]) else w
    case ResizeLeaf(e, dims) =>
      if w.values[e].dims == dims then w else Reshape(w, e, Value(dims, memory(0).data))
    case AskShape(p) => Asked(sem, w, [p.expr])
    case ReadValue(p) =>
      if IsLeaf(w.nodes, p.expr) || !Shaped(sem, w, p.expr) then w
      else Computed(ReadyToRead(sem, w, p.expr), [p.expr])
    case Prepare(vars) => AfterPrepare(sem, w, vars)
    case ComputeNow(vars) => Computed(AfterPrepare(sem, w, vars), vars)
  }

  /**
   What a caller has to heed. Before giving a leaf new dimensions: of every group with variables that depend on the
   leaf, one of these has been asked for its shape since it last changed, or the group has not been computed since.
   Before computing: every variable that this may involve has a shape.
   */
  ghost predicate Careful(sem: Semantics, w: World, r: Request)
    requires WorldOk(w) && Allowed(w.nodes, r)
  {
    match r
    case ResizeLeaf(e, dims) =>
      w.values[e].dims == dims || AllHeeded(w, e)
    case ReadValue(p) => AllShaped(sem, ReadyToRead(sem, w, p.expr), p.expr)
    case ComputeNow(vars) => forall e: nat :: e in vars ==> AllShaped(sem, AfterPrepare(sem, w, vars), e)
    case _ => true
  }

  ghost predicate AllHeeded(w: World, e: nat)
    requires WorldOk(w)
  {
    forall x: nat :: x < |w.nodes| && DependsOn(w.nodes, x, e) ==> w.group[x].None? || Heeded(w, w.group[x].value, e)
  }

  ghost predicate Heeded(w: World, c: nat, e: nat)
    requires WorldOk(w)
  {
    (c < |w.unsized| && w.unsized[c]) || KnownDependent(w, c, e)
  }

  /** The right answer in world w; a read may fail only for a missing leaf, an unknown shape or a failing session. */
  ghost predicate AnswerOk(sem: Semantics, w: World, r: Request, fails: set<nat>, a: Answer)
    requires WorldOk(w) && Allowed(w.nodes, r)
  {
    match r
    case AskShape(p) => a == ShapeIs(
      if Shaped(sem, w, p.expr) then Some(Den(sem.infer, w.nodes, Dims(w.values), p)) else None)
    case ReadValue(p) =>
      && a.ValueIs?
      && (a.value.Some? ==> a.value.value == Den(sem.Whole(), w.nodes, w.values, p))
      && (a.value.Some? ==> Determined(w.nodes, w.unwritten, p))
      && (fails == {} && (forall l: nat :: !Missing(w.nodes, w.unwritten, l)) ==>
        (a.value.Some? <==> Shaped(sem, w, p.expr)))
    case _ => a == Silent
  }

  // ---------------------------------------------------------------- the notes are right

  /** The state is that of world w, and the notes err on the safe side. */
  ghost predicate Tracks(g: ExprGraph, w: World)
    reads g
  {
    && g.Runnable() && WorldOk(w) && w.nodes == g.nodes && w.values == g.values && w.unwritten == g.unwritten
    && w.group == g.at.cacheOf && |w.unsized| == |g.sessions|
    && (forall e: nat :: e < |w.known| && w.known[e] ==> !g.shapes.dirty[e])
    && (forall c: nat :: c < |w.unsized| && w.unsized[c] ==> g.shapeDirty[c])
  }

  /** What a known expression depends on is known. */
  lemma {:induction false} CleanBelow(sem: Semantics, nodes: Nodes, s: Shapes, e: nat, x: nat)
    requires InfosOk(sem, nodes, s) && e < |nodes| && x < |nodes| && !s.dirty[e] && DependsOn(nodes, e, x)
    ensures !s.dirty[x]
    decreases e
  {
    assert InfoOk(sem, nodes, s, e);
    var i: nat :| i < |nodes[e].inputs| && InputLeadsTo(nodes, e, i, x);
    if nodes[e].inputs[i].expr != x {
      CleanBelow(sem, nodes, s, nodes[e].inputs[i].expr, x);
    }
  }

  lemma ToldIsClean(g: ExprGraph, w: World, es: seq<nat>, x: nat)
    requires g.Runnable() && WorldOk(w) && w.nodes == g.nodes && w.values == g.values && x < |g.nodes|
    requires forall e: nat :: e in es && e < |g.nodes| && !IsLeaf(g.nodes, e) && Shaped(g.sem, w, e) ==>
      !g.shapes.dirty[e]
    requires Told(g.sem, w, es, x)
    ensures !g.shapes.dirty[x]
  {
    var e: nat :| e in es && Tells(g.sem, w, e, x);
    if x != e {
      CleanBelow(g.sem, g.nodes, g.shapes, e, x);
    }
  }

  /** A careful caller's resize is guarded. */
  lemma CarefulIsExposed(g: ExprGraph, w: World, e: nat)
    requires Tracks(g, w) && e < |g.nodes| && AllHeeded(w, e)
    ensures Exposed(g.nodes, g.at, Marks(g.shapes), g.shapeDirty, e)
  {
    forall c: nat | c < |g.shapeDirty| && CachesDependent(g.nodes, g.at, c, e)
      ensures g.shapeDirty[c] || HoldsOpen(g.nodes, g.at, Marks(g.shapes), c, e)
    {
      var y: nat :| y < |g.nodes| && DependentIn(g.nodes, g.at, y, c, e);
      assert Heeded(w, c, e);
      if KnownDependent(w, c, e) {
        ReshapeTracks(g, w, e, c);
      }
    }
  }

  /** Known dependents are found, so their groups are marked. */
  lemma ReshapeTracks(g: ExprGraph, w: World, e: nat, c: nat)
    requires Tracks(g, w) && e < |g.nodes| && c < |g.sessions| && KnownDependent(w, c, e)
    ensures HoldsOpen(g.nodes, g.at, Marks(g.shapes), c, e)
  {
    var x: nat :| x < |w.nodes| && w.group[x] == Some(c) && w.known[x] && DependsOn(w.nodes, x, e);
    CleanIsOpen(g.sem, g.nodes, g.shapes, x, e);
  }

  /** The notes miss nothing: no request for a shape has failed, and no computation has stopped or failed halfway. */
  ghost predicate Exact(g: ExprGraph, w: World)
    reads g
  {
    && Tracks(g, w)
    && (forall x: nat :: x < |g.nodes| ==> g.shapes.valid[x] && (w.known[x] <==> !g.shapes.dirty[x]))
    && (forall c: nat :: c < |g.sessions| ==> (w.unsized[c] <==> g.shapeDirty[c]))
  }

  /** Then a resize is careful exactly if it is guarded. */
  lemma CarefulIffExposed(g: ExprGraph, w: World, e: nat)
    requires Exact(g, w) && e < |g.nodes|
    ensures AllHeeded(w, e) <==> Exposed(g.nodes, g.at, Marks(g.shapes), g.shapeDirty, e)
  {
    if AllHeeded(w, e) {
      CarefulIsExposed(g, w, e);
    }
    if Exposed(g.nodes, g.at, Marks(g.shapes), g.shapeDirty, e) {
      forall x: nat | x < |w.nodes| && DependsOn(w.nodes, x, e) && w.group[x].Some?
        ensures Heeded(w, w.group[x].value, e)
      {
        ExposedIsHeeded(g, w, e, x, w.group[x].value);
      }
    }
  }

  lemma ExposedIsHeeded(g: ExprGraph, w: World, e: nat, x: nat, c: nat)
    requires Exact(g, w) && e < |g.nodes| && Exposed(g.nodes, g.at, Marks(g.shapes), g.shapeDirty, e)
    requires x < |w.nodes| && DependsOn(w.nodes, x, e) && w.group[x] == Some(c)
    ensures Heeded(w, c, e)
  {
    assert PlaceOk(g.nodes, g.at, g.sessions, x) && DependentIn(g.nodes, g.at, x, c, e);
    if !g.shapeDirty[c] {
      var y: nat :| y < |g.nodes| && g.at.cacheOf[y] == Some(c) && Open(g.nodes, Marks(g.shapes), y, e);
      OpenDepends(g.nodes, Marks(g.shapes), y, e);
    }
  }

  /** A careful caller's computation is safe. */
  lemma CarefulIsSafe(g: ExprGraph, w: World, e: nat)
    requires g.Runnable() && Ordered(g.sessions) && WorldOk(w) && e < |g.nodes|
    requires w.nodes == g.nodes && w.values == g.values && w.group == g.at.cacheOf && AllShaped(g.sem, w, e)
    ensures Safe(g, e)
    ensures g.at.cacheOf[e].None? || (
      && g.at.cacheOf[e].value < |g.sessions|
      && Sizable(g.sem, g.nodes, g.shapes.leaves, g.at, g.sessions, g.at.cacheOf[e].value))
  {
    assert PlaceOk(g.nodes, g.at, g.sessions, e);
    if g.at.cacheOf[e].Some? {
      var c := g.at.cacheOf[e].value;
      forall d: nat | Under(g.sessions, c, d) ensures GroupShaped(g.sem, g.nodes, g.shapes.leaves, g.at, d) {
        UnderIsReach(g.nodes, g.at, g.sessions, c, d);
        forall x: nat | x < |g.nodes| && g.at.cacheOf[x] == Some(d)
          ensures HasShape(g.sem, g.nodes, g.shapes.leaves, x)
        {
          assert MayInvolve(w, e, x);
        }
      }
    }
  }
}
