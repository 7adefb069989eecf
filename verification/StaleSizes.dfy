/**
 A run whose last read is wrong. Two expressions share a cache. After their leaves change size, one is read, so the
 cache is resized while the other still waits for its shape; the next resize stops at the waiting expression
 (express/Expr.cpp:959-963) and leaves the cache unmarked, so it runs for the sizes of the resize before.
 */
module StaleSizes {
  import opened Wrappers
  import opened ExprModel
  import opened Sessions
  import opened ExprGraphs
  import opened CacheWalks
  import opened ResizeCaches
  import opened ComputeCaches
  import opened CacheBuilder
  import opened InformDirty
  import opened InferShapes
  import opened ExprCreate
  import opened ExprRead
  import opened Callers
  import opened ExprRuns

  /** Operators that copy as many elements as the size they are prepared for. */
  function Copying(): Semantics {
    Semantics(
      (op: nat, sizes: seq<Shape>, vs: seq<Value>, k: nat) =>
        if |sizes| == 1 && |vs| == 1 && |sizes[0]| == 1 && 0 <= sizes[0][0] <= |vs[0].data|
        then vs[0].data[..sizes[0][0]] else [],
      (op: nat, shapes: seq<Shape>) => true,
      (op: nat, shapes: seq<Shape>, k: nat) => if |shapes| == 1 then shapes[0] else [])
  }

  function NoMemory(): nat -> Value {
    (_: nat) => Value([], [])
  }

  // x is 0, y is 1, b is 2 and a is 3.

  const Graph: Nodes := [Node(None, [], 1, Input), Node(None, [], 1, Input),
    Node(Some(0), [Port(1, 0)], 1, Input), Node(Some(0), [Port(0, 0)], 1, Input)]

  /** Request k of the run. */
  function RequestAt(k: nat): Request {
    match k
    case 0 => MakeLeaf(Input, [1], Some([1.0]))
    case 1 => MakeLeaf(Input, [1], Some([2.0]))
    case 2 => MakeExpr(0, [Port(1, 0)], 1)
    case 3 => MakeExpr(0, [Port(0, 0)], 1)
    case 4 => Prepare([2, 3])
    case 5 => ResizeLeaf(0, [2])
    case 6 => WriteLeaf(0, [3.0, 4.0])
    case 7 => ReadValue(Port(2, 0))
    case 8 => ResizeLeaf(0, [3])
    case 9 => WriteLeaf(0, [5.0, 6.0, 7.0])
    case _ => ReadValue(Port(3, 0))
  }

  ghost function Events(n: nat): (events: seq<Event>)
    ensures |events| == n && forall i :: 0 <= i < n ==> events[i] == Event(RequestAt(i), {}, NoMemory())
  {
    seq(n, i requires 0 <= i < n => Event(RequestAt(i), {}, NoMemory()))
  }

  ghost function Values(x: Value): seq<Value> {
    [x, Value([1], [2.0]), Value([], []), Value([], [])]
  }

  lemma GraphOk()
    ensures Acyclic(Graph)
  {
    forall e: nat | e < |Graph| ensures NodeOk(Graph, e) {
    }
  }

  lemma AllHaveShape(shapes: seq<Shape>, e: nat)
    requires |shapes| == |Graph| && e < |Graph| && Acyclic(Graph)
    ensures HasShape(Copying(), Graph, shapes, e)
    decreases e
  {
    assert NodeOk(Graph, e);
    forall i: nat | i < |Graph[e].inputs| ensures HasShape(Copying(), Graph, shapes, Graph[e].inputs[i].expr) {
      AllHaveShape(shapes, Graph[e].inputs[i].expr);
    }
  }

  /** What depends on x: a. */
  lemma OnlyADepends(e: nat)
    requires Acyclic(Graph)
    ensures DependsOn(Graph, e, 0) <==> e == 3
  {
    assert forall i: nat, d: nat :: i < 2 && d < 2 ==> !DependsOn(Graph, i, d);
    if e == 3 {
      assert InputLeadsTo(Graph, 3, 0, 0);
    } else if e == 2 {
      assert !InputLeadsTo(Graph, 2, 0, 0);
    }
  }

  /** The graph with both expressions in cache 0, and what x holds. */
  ghost predicate Shared(g: ExprGraph, x: Value, written: bool)
    reads g
  {
    && g.sem == Copying() && g.Valid() && g.nodes == Graph && g.values == Values(x)
    && g.unwritten == [!written, false, true, true]
    && |g.sessions| == 1 && g.at.cacheOf == [None, None, Some(0), Some(0)]
  }

  /** The state after the two expressions were made. */
  method Setup() returns (g: ExprGraph)
    ensures fresh(g) && g.sem == Copying() && g.Valid() && g.Sound()
    ensures g.nodes == Graph && g.values == Values(Value([1], [1.0])) && g.unwritten == [false, false, true, true]
    ensures g.sessions == [] && g.shapeDirty == [] && forall e: nat :: e < 4 ==> g.at.cacheOf[e].None?
  {
    g := new ExprGraph(Copying());
    CreateLeaf(g, Input, [1], Some([1.0]), []);
    CreateLeaf(g, Input, [1], Some([2.0]), []);
    CreateExpr(g, 0, [Port(1, 0)], 1);
    CreateExpr(g, 0, [Port(0, 0)], 1);
    forall e: nat | e < 4 ensures g.at.cacheOf[e].None? {
      assert PlaceOk(g.nodes, g.at, g.sessions, e);
    }
  }

  /** Both are prepared together, so that their shapes are asked for. */
  method PrepareBoth(g: ExprGraph)
    requires g.sem == Copying() && g.Valid() && g.Sound() && g.nodes == Graph && g.sessions == [] && g.shapeDirty == []
    requires g.values == Values(Value([1], [1.0])) && g.unwritten == [false, false, true, true]
    requires forall e: nat :: e < 4 ==> g.at.cacheOf[e].None?
    modifies g
    ensures Shared(g, Value([1], [1.0]), true) && g.Sound() && g.shapeDirty == [true] && !g.shapes.dirty[3]
  {
    var exprs := Collect(g, [2, 3]);
    assert [2, 3][0] == 2 && [2, 3][1] == 3;
    AllHaveShape(g.shapes.leaves, 3);
    assert 3 in exprs && 2 in exprs && 0 !in exprs && 1 !in exprs;
    MakeCache(g, exprs, NoMemory());
  }

  /** The first resize marks a; the cache is marked anyway. */
  method ResizeOnce(g: ExprGraph)
    requires Shared(g, Value([1], [1.0]), true) && g.Sound() && g.shapeDirty == [true] && !g.shapes.dirty[3]
    modifies g`shapes, g`shapeDirty, g`unwritten, g`values
    ensures Shared(g, Value([2], []), false) && g.Sound() && g.shapeDirty == [true] && Marks(g.shapes)[3]
  {
    ghost var m := Marks(g.shapes);
    LeafUpdated(Value([1], [1.0]), Value([2], []));
    InferShapes.Resize(g, 0, [2], []);
    assert NodeOk(Graph, 3) && OpenInput(Graph, m, 3, 0, 0) && Open(Graph, m, 3, 0);
    assert New(m, Marks(g.shapes), 3);
  }

  /** Reading b resizes the cache, for the right sizes, and leaves a waiting for its shape. */
  method ReadB(g: ExprGraph)
    requires Shared(g, Value([2], [3.0, 4.0]), true) && g.Sound() && Marks(g.shapes)[3]
    modifies g`shapes, g`at, g`sessions, g`tensors, g`sizing, g`contentDirty, g`shapeDirty
    ensures Shared(g, Value([2], [3.0, 4.0]), true) && g.Sound() && g.shapeDirty == [false] && Marks(g.shapes)[3]
  {
    forall e: nat | e < 4 ensures HasShape(Copying(), Graph, g.shapes.leaves, e) {
      AllHaveShape(g.shapes.leaves, e);
    }
    forall l: nat ensures !Missing(g.nodes, g.unwritten, l) {
    }
    var v := Read(g, Port(2, 0), {}, NoMemory());
    forall e: nat | e < 4 ensures HasShape(Copying(), Graph, g.shapes.leaves, e) {
      AllHaveShape(g.shapes.leaves, e);
    }
    assert Safe(g, 2);
  }

  lemma CacheDepends(at: Placement)
    requires Acyclic(Graph) && Placed(Graph, at) && at.cacheOf == [None, None, Some(0), Some(0)]
    ensures CachesDependent(Graph, at, 0, 0)
  {
    OnlyADepends(3);
    assert DependentIn(Graph, at, 3, 0, 0);
  }

  /** The second resize stops at a: nothing is marked, and the cache keeps the sizes it was resized for. */
  method ResizeTwice(g: ExprGraph)
    requires Shared(g, Value([2], [3.0, 4.0]), true) && g.Sound() && g.shapeDirty == [false] && Marks(g.shapes)[3]
    modifies g`shapes, g`shapeDirty, g`unwritten, g`values
    ensures Shared(g, Value([3], []), false) && g.shapeDirty == [false]
    ensures !old(Exposed(g.nodes, g.at, Marks(g.shapes), g.shapeDirty, 0))
  {
    NotExposed(g.at, Marks(g.shapes));
    LeafUpdated(Value([2], [3.0, 4.0]), Value([3], []));
    InferShapes.Resize(g, 0, [3], []);
    assert !g.shapeDirty[0];
  }

  lemma LeafUpdated(x: Value, v: Value)
    ensures Values(x)[0 := v] == Values(v) && [false, false, true, true][0 := true] == [true, false, true, true]
    ensures [true, false, true, true][0 := false] == [false, false, true, true]
  {
  }

  lemma NotExposed(at: Placement, m: seq<bool>)
    requires Acyclic(Graph) && Placed(Graph, at) && at.cacheOf == [None, None, Some(0), Some(0)]
    requires |m| == |Graph| && m[3]
    ensures !HoldsOpen(Graph, at, m, 0, 0) && !Exposed(Graph, at, m, [false], 0)
  {
    forall y: nat ensures !Open(Graph, m, y, 0) {
      NothingOpen(m, y);
    }
    CacheDepends(at);
  }

  lemma NothingOpen(m: seq<bool>, y: nat)
    requires Acyclic(Graph) && |m| == |Graph| && m[3]
    ensures !Open(Graph, m, y, 0)
  {
    if Open(Graph, m, y, 0) {
      OpenDepends(Graph, m, y, 0);
      OnlyADepends(y);
    }
  }

  /** The cache's sizes are those of two elements. */
  ghost predicate SizedForTwo(g: ExprGraph)
    requires g.Runnable() && |g.sessions| == 1
    reads g
  {
    !g.sizing.needResize[0] &&
    Sized(Copying(), Graph, [[2], [1], [], []], g.sessions[0], g.sizing.dims[0], g.sizing.sizes[0])
  }

  lemma SoundIsSizedForTwo(g: ExprGraph)
    requires Shared(g, Value([2], [3.0, 4.0]), true) && g.Sound() && g.shapeDirty == [false]
    ensures SizedForTwo(g)
  {
    assert CacheSized(g.sem, g.nodes, g.shapes.leaves, g.sessions, g.sizing, 0);
    assert g.shapes.leaves == [[2], [1], [], []];
  }

  /** A run of the cache gives a the first two elements of x. */
  lemma RunsForTwo(g: ExprGraph, x: Value, v: Value)
    requires Shared(g, x, true) && SizedForTwo(g) && Executed(g, 0) && Stored(g, Port(3, 0), v) && |x.data| >= 2
    ensures v == Value([2], x.data[..2])
  {
    assert PlaceOk(g.nodes, g.at, g.sessions, 3) && CacheOk(g.nodes, g.at, g.sessions, 0);
    var s, sizes := g.sessions[0], g.sizing.sizes[0];
    var j: nat :| j < |s.pipeline| && IsEntry(s, j, 3, g.at.offsetOf[3]);
    assert EntryOk(g.nodes, g.at, s, j) && SizedAt(Copying(), Graph, [[2], [1], [], []], s, sizes, j);
    assert Resolves(g.nodes, g.at, s, j, Port(0, 0), s.pipeline[j].inputs[0]);
    assert NodeOk(Graph, 3);
    DenPrefixAt(Copying().infer, Graph, [[2], [1], [], []], 3, 1, 0);
    assert sizes[j] == [[2]];
    assert EntryDone(
        RunStep(g.sem, g.nodes, s, sizes), g.nodes, g.values, g.tensors, s, g.tensors[0], Value([], []), j);
    var vs := Inputs(g.values, g.tensors, s, g.tensors[0], Value([], []), j);
    assert vs == [x];
    assert g.tensors[0][s.pipeline[j].first + 0] == RunStep(g.sem, g.nodes, s, sizes)(j, vs, 0);
    assert v == Copying().Exec(0, [[2]], [x], 0);
  }

  /** Nothing can keep the cache from running. */
  lemma CannotFail(g: ExprGraph, x: Value)
    requires Shared(g, x, true) && SizedForTwo(g) && Ordered(g.sessions)
    ensures !MayFail(g, 0, {})
  {
    forall l: nat ensures !Missing(g.nodes, g.unwritten, l) {
    }
    NoneMissingIsReady(g.nodes, g.at, g.sessions, g.unwritten, 0);
  }

  /** Reading a runs the cache for those sizes. */
  method ReadA(g: ExprGraph) returns (v: Option<Value>)
    requires Shared(g, Value([3], [5.0, 6.0, 7.0]), true) && SizedForTwo(g)
    requires g.shapeDirty == [false] && g.contentDirty == [true]
    modifies g`shapes, g`at, g`sessions, g`tensors, g`sizing, g`contentDirty, g`shapeDirty
    ensures v == Some(Value([2], [5.0, 6.0]))
  {
    AllHaveShape(g.shapes.leaves, 3);
    ghost var t0, sessions0 := Now(g), g.sessions;
    v := Read(g, Port(3, 0), {}, NoMemory());
    assert g.sessions == sessions0;
    assert WithinAt(g.sessions, 0, t0, Now(g), 0);
    CannotFail(g, Value([3], [5.0, 6.0, 7.0]));
    RunsForTwo(g, Value([3], [5.0, 6.0, 7.0]), v.value);
    assert [5.0, 6.0, 7.0][..2] == [5.0, 6.0];
  }

  /** What a is after the last write. */
  lemma RightValue()
    ensures Acyclic(Graph)
    ensures Den(Copying().Whole(), Graph, Values(Value([3], [5.0, 6.0, 7.0])), Port(3, 0)) ==
      Value([3], [5.0, 6.0, 7.0])
  {
    GraphOk();
    var x := Value([3], [5.0, 6.0, 7.0]);
    assert NodeOk(Graph, 3);
    DenPrefixAt(Copying().Whole(), Graph, Values(x), 3, 1, 0);
    assert DenPrefix(Copying().Whole(), Graph, Values(x), 3, 1) == [x];
    assert Den(Copying().Whole(), Graph, Values(x), Port(3, 0)) == Copying().Exec(0, Dims([x]), [x], 0);
    assert Dims([x]) == [[3]];
    assert [5.0, 6.0, 7.0][..3] == [5.0, 6.0, 7.0];
  }

  // ---------------------------------------------------------------- what the caller sees

  /** The world after each number of events. */
  ghost predicate Worlds(ws: seq<World>) {
    |ws| == 11 && ws[0] == Empty && forall n: nat :: n < 10 ==> Follows(ws, n)
  }

  ghost predicate Follows(ws: seq<World>, n: nat)
    requires n + 1 < |ws|
  {
    WorldOk(ws[n]) && WorldOk(ws[n + 1]) &&
    (Allowed(ws[n].nodes, RequestAt(n)) ==> ws[n + 1] == Next(Copying(), ws[n], RequestAt(n), NoMemory()))
  }

  lemma TheWorlds() returns (ws: seq<World>)
    ensures Worlds(ws) && forall n: nat :: n < 11 ==> ws[n] == After(Copying(), Events(n))
  {
    ws := seq(11, n requires 0 <= n => After(Copying(), Events(n)));
    forall n: nat | n < 10 ensures Follows(ws, n) {
      assert Events(n + 1)[..n] == Events(n);
    }
  }

  /** All expressions are made, none has been computed, and x holds v. */
  ghost predicate BothMade(w: World, v: Value) {
    && w.nodes == Graph && w.values == Values(v) && w.unsized == []
    && forall e: nat :: e < |w.group| ==> w.group[e].None?
  }

  lemma LeavesMade(ws: seq<World>)
    requires Worlds(ws)
    ensures ws[2].nodes == Graph[..2] && ws[2].values == [Value([1], [1.0]), Value([1], [2.0])]
    ensures ws[2].group == [None, None] && ws[2].unsized == []
  {
    assert Follows(ws, 0) && Follows(ws, 1);
    assert [] + [Node(None, [], 1, Input)] == Graph[..1] && Graph[..1] + [Node(None, [], 1, Input)] == Graph[..2];
  }

  lemma OperatorsMade(ws: seq<World>)
    requires Worlds(ws)
    ensures BothMade(ws[4], Value([1], [1.0]))
  {
    LeavesMade(ws);
    assert Follows(ws, 2) && Follows(ws, 3);
    assert Graph[..2] + [Graph[2]] == Graph[..3] && Graph[..3] + [Graph[3]] == Graph;
    assert ws[4].values == ws[2].values + [Value([], [])] + [Value([], [])];
  }

  /** b and a in group 0, and x holds v. */
  ghost predicate Together(w: World, v: Value) {
    && w.nodes == Graph && w.values == Values(v) && |w.known| == 4 && |w.unsized| == 1
    && w.group == [None, None, Some(0), Some(0)]
  }

  lemma GroupMade(w: World, v: Value)
    requires WorldOk(w) && BothMade(w, v)
    ensures Together(Next(Copying(), w, Prepare([2, 3]), NoMemory()), v)
  {
    var es := Ungrouped(w, [2, 3]);
    assert [2, 3][0] == 2 && [2, 3][1] == 3;
    assert 2 in es && 3 in es && 0 !in es && 1 !in es;
  }

  /** After a resize a has not been asked for its shape. */
  lemma ResizedWorld(w: World, v: Value, dims: Shape)
    requires WorldOk(w) && Together(w, v) && v.dims != dims
    ensures var w' := Next(Copying(), w, ResizeLeaf(0, dims), NoMemory());
      Together(w', Value(dims, [])) && !w'.known[3]
  {
    OnlyADepends(3);
    assert Values(v)[0 := Value(dims, [])] == Values(Value(dims, []));
  }

  lemma WrittenWorld(w: World, v: Value, data: seq<real>)
    requires WorldOk(w) && Together(w, v)
    ensures var w' := Next(Copying(), w, WriteLeaf(0, data), NoMemory());
      Together(w', Value(v.dims, data)) && w'.known == w.known
  {
    assert Values(v)[0 := Value(v.dims, data)] == Values(Value(v.dims, data));
  }

  /** Reading b asks only b, and computes the group. */
  lemma OnlyBAsked(w: World, v: Value)
    requires WorldOk(w) && Together(w, v) && !w.known[3]
    ensures var w' := Next(Copying(), w, ReadValue(Port(2, 0)), NoMemory());
      Together(w', v) && !w'.known[3] && w'.unsized == [false]
  {
    AllHaveShape(Dims(w.values), 2);
    assert Ungrouped(w, [2]) == [] by {
      if Ungrouped(w, [2]) != [] {
        assert Ungrouped(w, [2])[0] in Ungrouped(w, [2]);
      }
    }
    assert !Told(Copying(), w, [2], 3) by {
      BReadsNoA(Copying(), w);
    }
    assert Involves(ReadyToRead(Copying(), w, 2), [2], 0) by {
      assert [2][0] == 2;
    }
  }

  lemma BReadsNoA(sem: Semantics, w: World)
    requires WorldOk(w) && w.nodes == Graph
    ensures !Tells(sem, w, 2, 3)
  {
    assert forall i: nat :: i < 2 ==> !DependsOn(Graph, i, 3);
  }

  lemma ReadyToResize(ws: seq<World>)
    requires Worlds(ws)
    ensures Together(ws[8], Value([2], [3.0, 4.0])) && !ws[8].known[3] && ws[8].unsized == [false]
  {
    OperatorsMade(ws);
    assert Follows(ws, 4) && Follows(ws, 5) && Follows(ws, 6) && Follows(ws, 7);
    GroupMade(ws[4], Value([1], [1.0]));
    ResizedWorld(ws[5], Value([1], [1.0]), [2]);
    WrittenWorld(ws[6], Value([2], []), [3.0, 4.0]);
    OnlyBAsked(ws[7], Value([2], [3.0, 4.0]));
  }

  /** The leaves before the last request. */
  lemma ReadyToRead10(ws: seq<World>)
    requires Worlds(ws)
    ensures Together(ws[10], Value([3], [5.0, 6.0, 7.0]))
  {
    ReadyToResize(ws);
    assert Follows(ws, 8) && Follows(ws, 9);
    ResizedWorld(ws[8], Value([2], [3.0, 4.0]), [3]);
    WrittenWorld(ws[9], Value([3], []), [5.0, 6.0, 7.0]);
  }

  /** At the second resize neither was a asked for its shape nor was the group left uncomputed. */
  lemma Careless(w: World)
    requires WorldOk(w) && Together(w, Value([2], [3.0, 4.0])) && !w.known[3] && w.unsized == [false]
    ensures Allowed(w.nodes, ResizeLeaf(0, [3])) && !Careful(Copying(), w, ResizeLeaf(0, [3]))
  {
    OnlyADepends(3);
    OnlyADepends(2);
    assert !Heeded(w, 0, 0);
  }

  lemma WrongIn(w: World)
    requires WorldOk(w) && w.nodes == Graph && w.values == Values(Value([3], [5.0, 6.0, 7.0]))
    ensures Allowed(w.nodes, ReadValue(Port(3, 0)))
    ensures !AnswerOk(Copying(), w, ReadValue(Port(3, 0)), {}, ValueIs(Some(Value([2], [5.0, 6.0]))))
  {
    RightValue();
  }

  /** Two elements are not the answer, and the caller was not careful. */
  lemma WrongAnswer(events: seq<Event>, n: nat, k: nat)
    requires n == 10 && k == 8 && events == Events(n + 1)
    ensures !Answered(Copying(), events, n, Some(ValueIs(Some(Value([2], [5.0, 6.0])))))
    ensures !CarefulTo(Copying(), events, n + 1)
  {
    var ws := TheWorlds();
    WasCareless(ws, events, k);
    IsWrong(ws, events, n);
  }

  lemma WasCareless(ws: seq<World>, events: seq<Event>, k: nat)
    requires Worlds(ws) && k == 8 && |events| == 11 && events[k].request == RequestAt(k)
    requires events[..k] == Events(k) && ws[k] == After(Copying(), Events(k))
    ensures !CarefulAt(Copying(), events, k)
  {
    ReadyToResize(ws);
    CarelessAt(ws[k], events, k);
  }

  lemma IsWrong(ws: seq<World>, events: seq<Event>, n: nat)
    requires Worlds(ws) && n == 10 && |events| == 11 && events[n] == Event(RequestAt(n), {}, NoMemory())
    requires events[..n] == Events(n) && ws[n] == After(Copying(), Events(n))
    ensures !Answered(Copying(), events, n, Some(ValueIs(Some(Value([2], [5.0, 6.0])))))
  {
    ReadyToRead10(ws);
    WrongAt(ws[n], events, n);
  }

  lemma CarelessAt(w: World, events: seq<Event>, k: nat)
    requires k < |events| && w == After(Copying(), events[..k]) && events[k].request == ResizeLeaf(0, [3])
    requires Together(w, Value([2], [3.0, 4.0])) && !w.known[3] && w.unsized == [false]
    ensures !CarefulAt(Copying(), events, k)
  {
    Careless(w);
  }

  lemma WrongAt(w: World, events: seq<Event>, n: nat)
    requires n < |events| && w == After(Copying(), events[..n])
    requires events[n].request == ReadValue(Port(3, 0)) && events[n].fails == {}
    requires w.nodes == Graph && w.values == Values(Value([3], [5.0, 6.0, 7.0]))
    ensures !Answered(Copying(), events, n, Some(ValueIs(Some(Value([2], [5.0, 6.0])))))
  {
    WrongIn(w);
  }

  // ---------------------------------------------------------------- the run

  /** The requests up to the first read. */
  method RunToB() returns (g: ExprGraph)
    ensures fresh(g) && Shared(g, Value([2], [3.0, 4.0]), true) && g.Sound()
    ensures g.shapeDirty == [false] && Marks(g.shapes)[3]
  {
    g := Setup();
    PrepareBoth(g);
    ResizeOnce(g);
    WriteOnce(g);
    ReadB(g);
  }

  /** All requests, one by one. */
  method RunThrough() returns (v: Option<Value>)
    ensures v == Some(Value([2], [5.0, 6.0]))
  {
    var g := RunToB();
    SoundIsSizedForTwo(g);
    ResizeTwice(g);
    WriteAgain(g);
    v := ReadA(g);
  }

  method WriteOnce(g: ExprGraph)
    requires Shared(g, Value([2], []), false) && g.Sound()
    modifies g`visited, g`contentDirty, g`values, g`unwritten
    ensures Shared(g, Value([2], [3.0, 4.0]), true) && g.Sound()
  {
    LeafUpdated(Value([2], []), Value([2], [3.0, 4.0]));
    var ok := Write(g, 0, [3.0, 4.0]);
  }

  method WriteAgain(g: ExprGraph)
    requires Shared(g, Value([3], []), false) && SizedForTwo(g) && g.shapeDirty == [false]
    modifies g`visited, g`contentDirty, g`values, g`unwritten
    ensures Shared(g, Value([3], [5.0, 6.0, 7.0]), true) && SizedForTwo(g)
    ensures g.shapeDirty == [false] && g.contentDirty == [true]
  {
    CacheDepends(g.at);
    LeafUpdated(Value([3], []), Value([3], [5.0, 6.0, 7.0]));
    var ok := Write(g, 0, [5.0, 6.0, 7.0]);
  }

  /** The answer to the last request has the size before and is not the one from scratch. The caller was not careful. */
  method StaleRun() returns (answer: Answer)
    ensures answer == ValueIs(Some(Value([2], [5.0, 6.0])))
    ensures !Answered(Copying(), Events(11), 10, Some(answer)) && !CarefulTo(Copying(), Events(11), 11)
  {
    var v := RunThrough();
    answer := ValueIs(v);
    WrongAnswer(Events(11), 10, 8);
  }
}
