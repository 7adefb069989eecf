/**
 Whole runs: whatever is created, written, resized, prepared, computed and read in whatever order, every answer to a
 careful caller is the one that a machine without caches gives by evaluating from scratch.
 */
module ExprRuns {
  import opened Wrappers
  import opened ExprModel
  import opened Sessions
  import opened ExprGraphs
  import opened CacheWalks
  import opened ResizeCaches
  import opened ComputeCaches
  import opened CacheBuilder
  import opened InformDirty
  import opened InferShapes
  import opened ExprCreate
  import opened ExprRead
  import opened Callers

  // ---------------------------------------------------------------- several variables at once

  /** The expressions among vars that have an operator but no cache, each once; asks for their shapes. */
  method Collect(g: ExprGraph, vars: seq<nat>) returns (exprs: seq<nat>)
    requires g.Valid() && forall e :: e in vars ==> e < |g.nodes|
    modifies g`shapes, g`visited
    ensures g.Valid() && (old(g.Sound()) ==> g.Sound()) && Settles(old(g.shapes), g.shapes, |g.nodes|)
    ensures forall e :: e in exprs <==> e in vars && !IsLeaf(g.nodes, e) && g.at.cacheOf[e].None?
    ensures forall e :: e in exprs && HasShape(g.sem, g.nodes, g.shapes.leaves, e) ==> !g.shapes.dirty[e]
  {
    exprs := [];
    for i := 0 to |vars|
      invariant InfosOk(g.sem, g.nodes, g.shapes) && Settles(old(g.shapes), g.shapes, |g.nodes|)
      invariant |g.visited| == |g.nodes| && forall e: nat :: e < |g.nodes| ==> (g.visited[e] <==> e in exprs)
      invariant forall e: nat :: e in exprs <==>
        e in vars[..i] && e < |g.nodes| && !IsLeaf(g.nodes, e) && g.at.cacheOf[e].None?
      invariant forall e: nat :: e in exprs && HasShape(g.sem, g.nodes, g.shapes.leaves, e) ==> !g.shapes.dirty[e]
    {
      var e := vars[i];
      assert e in vars && vars[..i + 1] == vars[..i] + [e];
      if !IsLeaf(g.nodes, e) && !g.visited[e] && g.at.cacheOf[e].None? {
        var known := RequireInfo(g, e);
        g.visited := g.visited[e := true];
        exprs := exprs + [e];
      }
    }
    assert vars[..|vars|] == vars;
    Unvisit(g, vars, exprs);
  }

  method Unvisit(g: ExprGraph, vars: seq<nat>, ghost exprs: seq<nat>)
    requires |g.visited| == |g.nodes| && forall e :: e in vars ==> e < |g.nodes|
    requires forall e: nat :: e < |g.nodes| ==> (g.visited[e] <==> e in exprs)
    requires forall e :: e in exprs ==> e in vars && e < |g.nodes| && !IsLeaf(g.nodes, e)
    modifies g`visited
    ensures |g.visited| == |g.nodes| && Unvisited(g.visited)
  {
    for i := 0 to |vars|
      invariant |g.visited| == |g.nodes|
      invariant forall e: nat :: e < |g.nodes| && g.visited[e] ==> e in exprs && e !in vars[..i]
    {
      assert vars[i] in vars && vars[..i + 1] == vars[..i] + [vars[i]];
      if !IsLeaf(g.nodes, vars[i]) {
        g.visited := g.visited[vars[i] := false];
      }
    }
    assert vars[..|vars|] == vars;
  }

  /** `prepareCompute`: one cache for all of vars that have none; whether their shapes are known is not looked at. */
  method PrepareCompute(g: ExprGraph, vars: seq<nat>, memory: nat -> Value, ghost w: World)
    requires g.Valid() && Tracks(g, w) && forall e :: e in vars ==> e < |g.nodes|
    modifies g`shapes, g`visited, g`at, g`sessions, g`tensors, g`sizing, g`contentDirty, g`shapeDirty
    ensures g.Valid() && (old(g.Sound()) ==> g.Sound()) && Tracks(g, AfterPrepare(g.sem, w, vars))
  {
    var exprs := Collect(g, vars);
    PrepareTracks(g, w, vars, exprs);
    if exprs != [] {
      MakeCache(g, exprs, memory);
      assert exprs[0] in exprs;
    }
    assert AfterPrepare(g.sem, w, vars).group == g.at.cacheOf;
  }

  lemma PrepareTracks(g: ExprGraph, w: World, vars: seq<nat>, exprs: seq<nat>)
    requires g.Runnable() && WorldOk(w) && w.nodes == g.nodes && w.values == g.values && w.group == g.at.cacheOf
    requires forall e: nat :: e < |w.known| && w.known[e] ==> !g.shapes.dirty[e]
    requires forall e :: e in vars ==> e < |g.nodes|
    requires forall e :: e in exprs <==> e in vars && !IsLeaf(g.nodes, e) && g.at.cacheOf[e].None?
    requires forall e :: e in exprs && HasShape(g.sem, g.nodes, g.shapes.leaves, e) ==> !g.shapes.dirty[e]
    ensures forall e :: e in Ungrouped(w, vars) <==> e in exprs
    ensures Ungrouped(w, vars) == [] <==> exprs == []
    ensures forall e: nat :: e < |w.known| && AfterPrepare(g.sem, w, vars).known[e] ==> !g.shapes.dirty[e]
  {
    forall x: nat | x < |w.known| && Told(g.sem, w, Ungrouped(w, vars), x) ensures !g.shapes.dirty[x] {
      ToldIsClean(g, w, Ungrouped(w, vars), x);
    }
    var es := Ungrouped(w, vars);
    assert es != [] ==> es[0] in exprs;
    assert exprs != [] ==> exprs[0] in es;
  }

  /** Computing what e is placed in leaves the notes right. */
  lemma ComputeTracks(g: ExprGraph, w: World, w': World, es: seq<nat>, e: nat, t0: Snapshot)
    requires g.Runnable() && Ordered(g.sessions) && WorldOk(w) && WorldOk(w') && |w.unsized| == |g.sessions|
    requires e in es && e < |g.nodes| && g.at.cacheOf[e].Some? && g.at.cacheOf[e].value < |g.sessions|
    requires w.nodes == g.nodes && w.group == g.at.cacheOf && |w'.unsized| == |w.unsized|
    requires Within(g.sessions, g.at.cacheOf[e].value, t0, Now(g))
    requires forall c: nat :: c < |w'.unsized| && w'.unsized[c] ==> t0.shapeDirty[c] && !Involves(w, es, c)
    ensures forall c: nat :: c < |w'.unsized| && w'.unsized[c] ==> g.shapeDirty[c]
  {
    var c0 := g.at.cacheOf[e].value;
    forall c: nat | c < |w'.unsized| && w'.unsized[c] ensures g.shapeDirty[c] {
      assert WithinAt(g.sessions, c0, t0, Now(g), c);
      assert !Under(g.sessions, c0, c) by {
        if Under(g.sessions, c0, c) {
          UnderIsReach(g.nodes, g.at, g.sessions, c0, c);
          assert false;
        }
      }
    }
  }

  /** `Variable::compute`: prepares vars and brings their caches up to date, ignoring failures. */
  method ComputeVars(g: ExprGraph, vars: seq<nat>, fails: set<nat>, memory: nat -> Value, ghost w: World)
    requires g.Valid() && Tracks(g, w) && forall e :: e in vars ==> e < |g.nodes|
    modifies g
    ensures g.Valid() && Tracks(g, Computed(AfterPrepare(g.sem, w, vars), vars))
    ensures old(g.Sound()) && (forall e: nat :: e in vars ==> AllShaped(g.sem, AfterPrepare(g.sem, w, vars), e)) ==>
      g.Sound() && (fails == {} && NoneMissing(g) ==>
        forall e: nat :: e in vars && !IsLeaf(g.nodes, e) ==> UpToDate(g, e))
  {
    PrepareCompute(g, vars, memory, w);
    ComputeAll(g, vars, fails, AfterPrepare(g.sem, w, vars));
  }

  /** Expression e is placed in a cache that is neither content nor shape dirty. */
  ghost predicate UpToDate(g: ExprGraph, e: nat)
    requires g.Runnable()
    reads g
  {
    e < |g.nodes| && g.at.cacheOf[e].Some? && g.at.cacheOf[e].value < |g.sessions|
    && !g.contentDirty[g.at.cacheOf[e].value] && !g.shapeDirty[g.at.cacheOf[e].value]
  }

  ghost predicate NoneMissing(g: ExprGraph)
    reads g
  {
    forall l: nat :: !Missing(g.nodes, g.unwritten, l)
  }

  /** Computes the cache of one of vars, if it has one. */
  method ComputeOne(g: ExprGraph, ghost vars: seq<nat>, e: nat, fails: set<nat>, ghost w: World)
    requires g.Valid() && Ordered(g.sessions) && WorldOk(w) && Tracks(g, Computed(w, vars))
    requires e in vars && e < |g.nodes|
    modifies g`tensors, g`sizing, g`contentDirty, g`shapeDirty
    ensures g.Valid() && Tracks(g, Computed(w, vars))
    ensures old(g.Sound()) && AllShaped(g.sem, w, e) ==> g.Sound()
    ensures old(g.Sound()) && AllShaped(g.sem, w, e) && fails == {} && NoneMissing(g) && g.at.cacheOf[e].Some? ==>
      UpToDate(g, e)
    ensures forall x: nat :: old(UpToDate(g, x)) ==> UpToDate(g, x)
  {
    if g.at.cacheOf[e].Some? {
      assert PlaceOk(g.nodes, g.at, g.sessions, e);
      var c := g.at.cacheOf[e].value;
      BeforeComputing(g, w, e, c);
      ghost var t0, shaped := Now(g), AllShaped(g.sem, w, e);
      var code, ran := Compute(g, c, fails);
      if shaped {
        SizableResizes(g, c, t0);
      }
      ComputeTracks(g, w, Computed(w, vars), vars, e, t0);
    }
  }

  lemma BeforeComputing(g: ExprGraph, w: World, e: nat, c: nat)
    requires g.Runnable() && Ordered(g.sessions) && WorldOk(w) && e < |g.nodes| && g.at.cacheOf[e] == Some(c)
    requires w.nodes == g.nodes && w.values == g.values && w.group == g.at.cacheOf
    ensures c < |g.sessions|
    ensures AllShaped(g.sem, w, e) ==> Sizable(g.sem, g.nodes, g.shapes.leaves, g.at, g.sessions, c)
    ensures NoneMissing(g) ==> Ready(g.sessions, g.unwritten, c)
  {
    assert PlaceOk(g.nodes, g.at, g.sessions, e);
    if AllShaped(g.sem, w, e) {
      CarefulIsSafe(g, w, e);
    }
    if NoneMissing(g) {
      NoneMissingIsReady(g.nodes, g.at, g.sessions, g.unwritten, c);
    }
  }

  /** Computes the caches of vars one after the other. */
  method ComputeAll(g: ExprGraph, vars: seq<nat>, fails: set<nat>, ghost w: World)
    requires g.Valid() && Tracks(g, w) && forall e :: e in vars ==> e < |g.nodes|
    modifies g`tensors, g`sizing, g`contentDirty, g`shapeDirty
    ensures g.Valid() && Tracks(g, Computed(w, vars))
    ensures old(g.Sound()) && (forall e: nat :: e in vars ==> AllShaped(g.sem, w, e)) ==>
      g.Sound() && (fails == {} && NoneMissing(g) ==>
        forall e: nat :: e in vars && g.at.cacheOf[e].Some? ==> UpToDate(g, e))
  {
    CachesOrdered(g.nodes, g.at, g.sessions);
    ghost var careful := g.Sound() && forall e: nat :: e in vars ==> AllShaped(g.sem, w, e);
    ghost var able := careful && fails == {} && NoneMissing(g);
    for i := 0 to |vars|
      invariant g.Valid() && Tracks(g, Computed(w, vars)) && (careful ==> g.Sound())
      invariant able ==> forall e: nat :: e in vars[..i] && e < |g.nodes| && g.at.cacheOf[e].Some? ==> UpToDate(g, e)
    {
      assert vars[..i + 1] == vars[..i] + [vars[i]];
      assert vars[i] in vars;
      ComputeOne(g, vars, vars[i], fails, w);
    }
    assert vars[..|vars|] == vars;
  }

  // ---------------------------------------------------------------- serving requests

  /** A request that only asks. */
  method AnswerShape(g: ExprGraph, p: Port, ghost w: World) returns (a: Answer)
    requires g.Valid() && Tracks(g, w) && IsPort(g.nodes, p)
    modifies g`shapes
    ensures g.Valid() && Tracks(g, Asked(g.sem, w, [p.expr])) && (old(g.Sound()) ==> g.Sound())
    ensures AnswerOk(g.sem, w, AskShape(p), {}, a)
  {
    var info := GetInfo(g, p);
    forall x: nat | x < |g.nodes| && Told(g.sem, w, [p.expr], x) ensures !g.shapes.dirty[x] {
      ToldIsClean(g, w, [p.expr], x);
    }
    a := ShapeIs(info);
  }

  /** Reading keeps the notes. */
  lemma ReadTracks(g: ExprGraph, w: World, e: nat, at0: Placement, count0: nat, dirty0: seq<bool>)
    requires g.Runnable() && WorldOk(w) && w.nodes == g.nodes && w.values == g.values && w.unwritten == g.unwritten
    requires e < |g.nodes| && !IsLeaf(g.nodes, e) && Shaped(g.sem, w, e) && !g.shapes.dirty[e]
    requires forall x: nat :: x < |w.known| && w.known[x] ==> !g.shapes.dirty[x]
    requires w.group == at0.cacheOf && |w.unsized| == count0 == |dirty0|
    requires PlacedOne(at0, count0, g.at, |g.sessions|, e)
    requires forall c: nat :: c < |w.unsized| && w.unsized[c] ==> dirty0[c]
    requires ReadMarks(g, dirty0, e)
    ensures Tracks(g, Computed(ReadyToRead(g.sem, w, e), [e]))
  {
    var r := ReadyToRead(g.sem, w, e);
    assert [e][0] == e && e in [e];
    var es := Ungrouped(w, [e]);
    assert w.group[e].None? ==> e in es;
    assert w.group[e].Some? ==> es == [] by {
      assert es != [] ==> es[0] in es;
    }
    assert r.group == g.at.cacheOf;
    forall x: nat | x < |r.known| && r.known[x] ensures !g.shapes.dirty[x] {
      if !w.known[x] {
        ToldIsClean(g, w, [e], x);
      }
    }
    var w' := Computed(r, [e]);
    forall c: nat | c < |w'.unsized| && w'.unsized[c] ensures g.shapeDirty[c] {
      assert !Under(g.sessions, g.at.cacheOf[e].value, c) by {
        if Under(g.sessions, g.at.cacheOf[e].value, c) {
          UnderIsReach(g.nodes, g.at, g.sessions, g.at.cacheOf[e].value, c);
          assert false;
        }
      }
    }
  }

  /** A request for a value. */
  method AnswerRead(g: ExprGraph, p: Port, fails: set<nat>, memory: nat -> Value, ghost w: World) returns (a: Answer)
    requires g.Valid() && Tracks(g, w) && IsPort(g.nodes, p)
    modifies g
    ensures g.Valid() && Tracks(g, Next(g.sem, w, ReadValue(p), memory))
    ensures old(g.Sound()) && Careful(g.sem, w, ReadValue(p)) ==>
      g.Sound() && AnswerOk(g.sem, w, ReadValue(p), fails, a)
  {
    ghost var at0, count0, dirty0 := g.at, |g.sessions|, g.shapeDirty;
    var v := Read(g, p, fails, memory);
    a := ValueIs(v);
    assert PlaceOk(g.nodes, g.at, g.sessions, p.expr);
    if !IsLeaf(g.nodes, p.expr) && Shaped(g.sem, w, p.expr) {
      ReadTracks(g, w, p.expr, at0, count0, dirty0);
      if Careful(g.sem, w, ReadValue(p)) {
        CarefulIsSafe(g, ReadyToRead(g.sem, w, p.expr), p.expr);
      }
    }
  }

  /** A request for new dimensions. */
  method AnswerResize(g: ExprGraph, e: nat, dims: Shape, memory: nat -> Value, ghost w: World)
    requires g.Valid() && Tracks(g, w) && e < |g.nodes| && IsLeaf(g.nodes, e)
    modifies g
    ensures g.Valid() && Tracks(g, Next(g.sem, w, ResizeLeaf(e, dims), memory))
    ensures old(g.Sound()) && Careful(g.sem, w, ResizeLeaf(e, dims)) ==> g.Sound()
  {
    if Careful(g.sem, w, ResizeLeaf(e, dims)) && g.shapes.leaves[e] != dims {
      CarefulIsExposed(g, w, e);
    }
    forall c: nat | c < |g.sessions| && KnownDependent(w, c, e)
      ensures HoldsOpen(g.nodes, g.at, Marks(g.shapes), c, e)
    {
      ReshapeTracks(g, w, e, c);
    }
    ghost var s0 := g.shapes;
    InferShapes.Resize(g, e, dims, memory(0).data);
    if s0.leaves[e] != dims {
      forall x: nat | x < |g.nodes| && w.known[x] && !DependsOn(g.nodes, x, e) ensures !g.shapes.dirty[x] {
        KnownStays(g, s0, e, dims, x);
      }
    }
  }

  /** What is clean and does not depend on the leaf stays clean. */
  lemma KnownStays(g: ExprGraph, s0: Shapes, e: nat, dims: Shape, x: nat)
    requires g.Runnable() && ShapesFor(g.nodes, s0) && e < |g.nodes| && IsLeaf(g.nodes, e) && x < |g.nodes|
    requires MarkedBy(Reshaped(s0, e, dims), g.shapes) && InfosOk(g.sem, g.nodes, s0)
    requires forall y: nat :: New(Marks(s0), Marks(g.shapes), y) <==> Open(g.nodes, Marks(s0), y, e)
    requires !s0.dirty[x] && !DependsOn(g.nodes, x, e)
    ensures !g.shapes.dirty[x]
  {
    ReshapedMarks(g.sem, g.nodes, s0, e, dims);
    if Open(g.nodes, Marks(s0), x, e) {
      OpenDepends(g.nodes, Marks(s0), x, e);
    }
  }

  /** One request. */
  method Serve(g: ExprGraph, r: Request, fails: set<nat>, memory: nat -> Value, ghost w: World) returns (a: Answer)
    requires g.Valid() && Tracks(g, w) && Allowed(g.nodes, r)
    modifies g
    ensures g.Valid() && Tracks(g, Next(g.sem, w, r, memory))
    ensures r.AskShape? ==> AnswerOk(g.sem, w, r, fails, a)
    ensures old(g.Sound()) && Careful(g.sem, w, r) ==> g.Sound() && AnswerOk(g.sem, w, r, fails, a)
  {
    a := Silent;
    match r
    case MakeLeaf(kind, dims, data) => CreateLeaf(g, kind, dims, data, memory(0).data);
    case MakeExpr(op, inputs, outputs) => CreateExpr(g, op, inputs, outputs);
    case WriteLeaf(e, data) => var ok := Write(g, e, data);
    case ResizeLeaf(e, dims) => AnswerResize(g, e, dims, memory, w);
    case AskShape(p) => a := AnswerShape(g, p, w);
    case ReadValue(p) => a := AnswerRead(g, p, fails, memory, w);
    case Prepare(vars) => PrepareCompute(g, vars, memory, w);
    case ComputeNow(vars) => ComputeVars(g, vars, fails, memory, w);
  }

  // ---------------------------------------------------------------- runs

  datatype Event = Event(request: Request, fails: set<nat>, memory: nat -> Value)

  /** The world that a run leads to; requests that name nothing are skipped. */
  ghost function After(sem: Semantics, events: seq<Event>): (w: World)
    ensures WorldOk(w)
  {
    if events == [] then Empty
    else
      var before := After(sem, events[..|events| - 1]);
      var last := events[|events| - 1];
      if Allowed(before.nodes, last.request) then Next(sem, before, last.request, last.memory) else before
  }

  /** Event k of a run is answered as in the world that the events before it lead to. */
  ghost predicate Answered(sem: Semantics, events: seq<Event>, k: nat, answer: Option<Answer>)
    requires k < |events|
  {
    var w := After(sem, events[..k]);
    if Allowed(w.nodes, events[k].request) then
      answer.Some? && AnswerOk(sem, w, events[k].request, events[k].fails, answer.value)
    else answer.None?
  }

  /** The caller was careful up to event k. */
  ghost predicate CarefulTo(sem: Semantics, events: seq<Event>, k: nat)
    requires k <= |events|
  {
    forall i: nat :: i < k ==> CarefulAt(sem, events, i)
  }

  ghost predicate CarefulAt(sem: Semantics, events: seq<Event>, i: nat)
    requires i < |events|
  {
    var w := After(sem, events[..i]);
    Allowed(w.nodes, events[i].request) ==> Careful(sem, w, events[i].request)
  }

  /** Answer k is right: a shape always, a value if the caller was careful up to it. */
  ghost predicate RightAt(sem: Semantics, events: seq<Event>, k: nat, answer: Option<Answer>)
    requires k < |events|
  {
    events[k].request.AskShape? || CarefulTo(sem, events, k + 1) ==> Answered(sem, events, k, answer)
  }

  /** The first i events are done; careful only if the caller was, and then caches are right. */
  ghost predicate Arrived(g: ExprGraph, events: seq<Event>, i: nat, careful: bool)
    requires i <= |events|
    reads g
  {
    && g.Valid() && Tracks(g, After(g.sem, events[..i])) && (careful ==> g.Sound())
    && (CarefulTo(g.sem, events, i) ==> careful)
  }

  /** An empty graph. */
  method Start(sem: Semantics, events: seq<Event>) returns (g: ExprGraph)
    ensures fresh(g) && g.sem == sem && Arrived(g, events, 0, true)
  {
    g := new ExprGraph(sem);
  }

  /** One event. */
  method Handle(g: ExprGraph, events: seq<Event>, k: nat, ghost careful: bool)
    returns (answer: Option<Answer>, ghost careful': bool)
    requires k < |events| && Arrived(g, events, k, careful)
    modifies g
    ensures Arrived(g, events, k + 1, careful') && RightAt(g.sem, events, k, answer)
  {
    assert events[..k + 1][..k] == events[..k];
    var event := events[k];
    answer := None;
    careful' := careful && CarefulAt(g.sem, events, k);
    if Allowed(g.nodes, event.request) {
      var a := Serve(g, event.request, event.fails, event.memory, After(g.sem, events[..k]));
      answer := Some(a);
    }
  }

  ghost predicate AllRight(sem: Semantics, events: seq<Event>, answers: seq<Option<Answer>>) {
    |answers| <= |events| && forall k: nat :: k < |answers| ==> RightAt(sem, events, k, answers[k])
  }

  lemma AnswersGrow(sem: Semantics, events: seq<Event>, answers: seq<Option<Answer>>, answer: Option<Answer>)
    requires |answers| < |events| && AllRight(sem, events, answers) && RightAt(sem, events, |answers|, answer)
    ensures AllRight(sem, events, answers + [answer])
  {
  }

  /** All events, one after the other. */
  method HandleAll(g: ExprGraph, events: seq<Event>) returns (answers: seq<Option<Answer>>)
    requires Arrived(g, events, 0, true)
    modifies g
    ensures |answers| == |events| && AllRight(g.sem, events, answers)
  {
    answers := [];
    ghost var careful := true;
    for i := 0 to |events|
      invariant Arrived(g, events, i, careful) && |answers| == i && AllRight(g.sem, events, answers)
    {
      var answer;
      answer, careful := Handle(g, events, i, careful);
      AnswersGrow(g.sem, events, answers, answer);
      answers := answers + [answer];
    }
  }

  /** A whole run from an empty graph. */
  method Run(sem: Semantics, events: seq<Event>) returns (answers: seq<Option<Answer>>)
    ensures |answers| == |events|
    ensures forall k: nat :: k < |events| ==> RightAt(sem, events, k, answers[k])
  {
    var g := Start(sem, events);
    answers := HandleAll(g, events);
  }
}
