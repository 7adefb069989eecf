/**
 Reading a variable (express/Expr.cpp:737-746, 797-842, 874-906): shape, cache, compute, fetch.
 */
module ExprRead {
  import opened Wrappers
  import opened ExprModel
  import opened Sessions
  import opened ExprGraphs
  import opened CacheWalks
  import opened ResizeCaches
  import opened ComputeCaches
  import opened CacheBuilder
  import opened InferShapes

  // ---------------------------------------------------------------- leaves under a cache

  /** Leaf l is an INPUT that has not been written since it was made or resized. */
  predicate Missing(nodes: Nodes, unwritten: seq<bool>, l: nat) {
    l < |nodes| && l < |unwritten| && nodes[l].op.None? && nodes[l].kind.Input? && unwritten[l]
  }

  lemma CachesOrdered(nodes: Nodes, at: Placement, sessions: seq<Session>)
    requires Placed(nodes, at) && CachesOk(nodes, at, sessions)
    ensures Ordered(sessions)
  {
    forall c: nat, d | c < |sessions| && d in sessions[c].inputs ensures d < c {
      assert CacheOk(nodes, at, sessions, c);
    }
  }

  /** If the check passes for a cache, no leaf that its entries depend on is missing. */
  lemma {:induction false} ReadyCovers(nodes: Nodes, at: Placement, sessions: seq<Session>, unwritten: seq<bool>,
      c: nat, j: nat, l: nat)
    requires Acyclic(nodes) && Placed(nodes, at) && CachesOk(nodes, at, sessions) && Ordered(sessions)
    requires |unwritten| == |nodes|
    requires c < |sessions| && Ready(sessions, unwritten, c) && j < |sessions[c].pipeline|
    requires DependsOn(nodes, sessions[c].pipeline[j].expr, l)
    ensures !Missing(nodes, unwritten, l)
    decreases c, j
  {
    var s := sessions[c];
    assert CacheOk(nodes, at, sessions, c) && EntryOk(nodes, at, s, j);
    var e := s.pipeline[j].expr;
    var i: nat :| i < |nodes[e].inputs| && InputLeadsTo(nodes, e, i, l);
    var p := nodes[e].inputs[i];
    assert Resolves(nodes, at, s, j, p, s.pipeline[j].inputs[i]) && NodeOk(nodes, p.expr);
    if p.expr != l {
      assert DependsOn(nodes, p.expr, l) && !IsLeaf(nodes, p.expr);
      match s.pipeline[j].inputs[i]
      case CacheTensor(d, _) =>
        assert PlaceOk(nodes, at, sessions, p.expr);
        var k: nat :| k < |sessions[d].pipeline| && IsEntry(sessions[d], k, p.expr, at.offsetOf[p.expr]);
        ReadyCovers(nodes, at, sessions, unwritten, d, k, l);
      case OwnTensor(k, _) =>
        ReadyCovers(nodes, at, sessions, unwritten, c, k, l);
    }
  }

  /** If no leaf at all is missing, the check passes. */
  lemma {:induction false} NoneMissingIsReady(nodes: Nodes, at: Placement, sessions: seq<Session>, unwritten: seq<bool>,
      c: nat)
    requires Placed(nodes, at) && CachesOk(nodes, at, sessions) && Ordered(sessions) && |unwritten| == |nodes|
    requires c < |sessions|
    requires forall l: nat :: !Missing(nodes, unwritten, l)
    ensures Ready(sessions, unwritten, c)
    decreases c
  {
    assert CacheOk(nodes, at, sessions, c);
    forall l | l in sessions[c].inputInside ensures l < |unwritten| && !unwritten[l] {
      assert !Missing(nodes, unwritten, l);
    }
    forall d | d in sessions[c].inputs ensures Ready(sessions, unwritten, d) {
      NoneMissingIsReady(nodes, at, sessions, unwritten, d);
    }
  }

  // ---------------------------------------------------------------- reading

  /** The shape of p, if it can be inferred. */
  method GetInfo(g: ExprGraph, p: Port) returns (info: Option<Shape>)
    requires g.Valid() && IsPort(g.nodes, p)
    modifies g`shapes
    ensures g.Valid() && (old(g.Sound()) ==> g.Sound()) && Settles(old(g.shapes), g.shapes, p.expr + 1)
    ensures info.Some? ==> !g.shapes.dirty[p.expr]
    ensures info == if HasShape(g.sem, g.nodes, g.shapes.leaves, p.expr)
      then Some(Den(g.sem.infer, g.nodes, g.shapes.leaves, p)) else None
  {
    var ok := RequireInfo(g, p.expr);
    if ok {
      assert p == Port(p.expr, p.index);
      info := Some(g.shapes.infos[p.expr][p.index]);
    } else {
      info := None;
    }
  }

  /** Everything p depends on that has to be written has been written. */
  ghost predicate Determined(nodes: Nodes, unwritten: seq<bool>, p: Port)
    requires Acyclic(nodes)
  {
    forall l: nat :: Missing(nodes, unwritten, l) ==> l != p.expr && !DependsOn(nodes, p.expr, l)
  }

  /** A successful compute makes every expression of the cache up to date. */
  lemma ComputedIsDetermined(nodes: Nodes, at: Placement, sessions: seq<Session>, unwritten: seq<bool>, c: nat, p: Port)
    requires Acyclic(nodes) && Placed(nodes, at) && CachesOk(nodes, at, sessions) && Ordered(sessions)
    requires |unwritten| == |nodes|
    requires IsPort(nodes, p) && at.cacheOf[p.expr] == Some(c) && c < |sessions| && Ready(sessions, unwritten, c)
    ensures Determined(nodes, unwritten, p)
  {
    assert PlaceOk(nodes, at, sessions, p.expr);
    var j: nat :| j < |sessions[c].pipeline| && IsEntry(sessions[c], j, p.expr, at.offsetOf[p.expr]);
    forall l: nat | Missing(nodes, unwritten, l) ensures l != p.expr && !DependsOn(nodes, p.expr, l) {
      if DependsOn(nodes, p.expr, l) {
        ReadyCovers(nodes, at, sessions, unwritten, c, j, l);
      }
    }
  }

  /** A cached expression's outputs are among its cache's tensors. */
  lemma PlacedFits(g: ExprGraph, p: Port)
    requires g.Runnable() && IsPort(g.nodes, p) && g.at.cacheOf[p.expr].Some?
    ensures !IsLeaf(g.nodes, p.expr) && g.at.cacheOf[p.expr].value < |g.sessions|
    ensures g.at.offsetOf[p.expr] + p.index < |g.tensors[g.at.cacheOf[p.expr].value]|
  {
    assert PlaceOk(g.nodes, g.at, g.sessions, p.expr);
    var c := g.at.cacheOf[p.expr].value;
    assert CacheOk(g.nodes, g.at, g.sessions, c);
    var j: nat :| j < |g.sessions[c].pipeline| && IsEntry(g.sessions[c], j, p.expr, g.at.offsetOf[p.expr]);
    EntryFits(g.nodes, g.at, g.sessions[c], j);
  }

  /** The tensor that p's cache holds for it. */
  method MapOutput(g: ExprGraph, p: Port) returns (v: Value)
    requires g.Runnable() && IsPort(g.nodes, p) && g.at.cacheOf[p.expr].Some?
    ensures Stored(g, p, v)
    ensures g.Sound() && !g.contentDirty[g.at.cacheOf[p.expr].value] && !g.shapeDirty[g.at.cacheOf[p.expr].value] ==>
      v == Den(g.sem.Whole(), g.nodes, g.values, p)
  {
    PlacedFits(g, p);
    var c := g.at.cacheOf[p.expr].value;
    if g.Sound() && !g.contentDirty[c] && !g.shapeDirty[c] {
      assert Holds(g.sem.Whole(), g.nodes, g.values, g.tensors[c], p.expr, g.at.offsetOf[p.expr]);
      HeldIsDen(g.sem.Whole(), g.nodes, g.values, g.tensors[c], p, g.at.offsetOf[p.expr]);
    }
    v := g.tensors[c][g.at.offsetOf[p.expr] + p.index];
  }

  ghost predicate Stored(g: ExprGraph, p: Port, v: Value)
    reads g
  {
    && p.expr < |g.at.cacheOf| && p.expr < |g.at.offsetOf| && g.at.cacheOf[p.expr].Some?
    && g.at.cacheOf[p.expr].value < |g.tensors|
    && g.at.offsetOf[p.expr] + p.index < |g.tensors[g.at.cacheOf[p.expr].value]|
    && v == g.tensors[g.at.cacheOf[p.expr].value][g.at.offsetOf[p.expr] + p.index]
  }

  /** If e has a shape, its cache and those below can be resized: everything placed there has one too. */
  ghost predicate Safe(g: ExprGraph, e: nat)
    requires g.Runnable() && e < |g.nodes|
    reads g
  {
    g.at.cacheOf[e].None? || !HasShape(g.sem, g.nodes, g.shapes.leaves, e) || (
      && g.at.cacheOf[e].value < |g.sessions| && Ordered(g.sessions)
      && Sizable(g.sem, g.nodes, g.shapes.leaves, g.at, g.sessions, g.at.cacheOf[e].value))
  }

  /** e is placed in a new cache if it was in none; no other expression moves. */
  ghost predicate PlacedOne(at0: Placement, count0: nat, at: Placement, count: nat, e: nat) {
    && |at.cacheOf| == |at0.cacheOf|
    && (e < |at0.cacheOf| ==> count == if at0.cacheOf[e].None? then count0 + 1 else count0)
    && forall x: nat :: x < |at0.cacheOf| ==>
      at.cacheOf[x] == if x == e && at0.cacheOf[x].None? then Some(count0) else at0.cacheOf[x]
  }

  /** The cache of operator expression e, built if there is none yet. */
  method EnsureCache(g: ExprGraph, e: nat, memory: nat -> Value) returns (c: nat)
    requires g.Valid() && e < |g.nodes| && !IsLeaf(g.nodes, e)
    modifies g`at, g`sessions, g`tensors, g`sizing, g`contentDirty, g`shapeDirty
    ensures g.Valid() && (old(g.Sound()) ==> g.Sound())
    ensures Ordered(g.sessions) && c < |g.sessions| && g.at.cacheOf[e] == Some(c)
    ensures old(g.sessions) <= g.sessions && PlacedOne(old(g.at), |old(g.sessions)|, g.at, |g.sessions|, e)
    ensures g.shapeDirty == Padded(old(g.shapeDirty), |g.sessions|)
    ensures old(g.at).cacheOf[e].Some? ==> Now(g) == old(Now(g)) && g.sessions == old(g.sessions)
  {
    if g.at.cacheOf[e].None? {
      MakeCache(g, [e], memory);
    }
    assert PlaceOk(g.nodes, g.at, g.sessions, e);
    c := g.at.cacheOf[e].value;
    CachesOrdered(g.nodes, g.at, g.sessions);
  }

  /** What reading e does to the caches' marks: at most those of its cache and below are cleared. */
  ghost predicate ReadMarks(g: ExprGraph, dirty0: seq<bool>, e: nat)
    reads g
  {
    && Ordered(g.sessions) && |dirty0| <= |g.shapeDirty| == |g.sessions| && e < |g.at.cacheOf|
    && g.at.cacheOf[e].Some? && g.at.cacheOf[e].value < |g.sessions|
    && forall d: nat :: d < |g.sessions| && (d >= |dirty0| || dirty0[d]) && !g.shapeDirty[d] ==>
      Under(g.sessions, g.at.cacheOf[e].value, d)
  }

  /** Why computing cache c may fail: something is unwritten, a session fails, or its last resize did. */
  ghost predicate MayFail(g: ExprGraph, c: nat, fails: set<nat>)
    requires g.Runnable() && Ordered(g.sessions) && c < |g.sessions|
    reads g
  {
    || !Ready(g.sessions, g.unwritten, c)
    || exists d: nat :: d < |g.sessions| && Under(g.sessions, c, d) && (d in fails || g.sizing.needResize[d])
  }

  lemma {:induction false} UnderExists(sessions: seq<Session>, c: nat, d: nat)
    requires Ordered(sessions) && c < |sessions| && Under(sessions, c, d)
    ensures d <= c
    decreases c
  {
    if d != c {
      var m: nat :| m in sessions[c].inputs && Under(sessions, m, d);
      UnderExists(sessions, m, d);
    }
  }

  /** What p's cache c, in state t0 before, holds for p after it was computed. */
  ghost predicate FromCache(g: ExprGraph, t0: Snapshot, c: nat, p: Port, fails: set<nat>, v: Option<Value>)
    requires g.Runnable()
    reads g
  {
    && Ordered(g.sessions) && c < |g.sessions| && Within(g.sessions, c, t0, Now(g))
    && (v.Some? ==> Stored(g, p, v.value) && !g.shapeDirty[c])
    && (v.Some? && (t0.contentDirty[c] || t0.shapeDirty[c]) ==> Executed(g, c))
    && (v.None? ==> MayFail(g, c, fails))
  }

  /** Brings p's cache c up to date and fetches p. */
  method ReadFrom(g: ExprGraph, c: nat, p: Port, fails: set<nat>) returns (v: Option<Value>)
    requires g.Valid() && Ordered(g.sessions) && c < |g.sessions| && IsPort(g.nodes, p)
    requires !IsLeaf(g.nodes, p.expr) && g.at.cacheOf[p.expr] == Some(c)
    modifies g`tensors, g`sizing, g`contentDirty, g`shapeDirty
    ensures g.Valid() && (old(SoundFrom(g, c)) ==> g.Sound()) && FromCache(g, old(Now(g)), c, p, fails, v)
    ensures v.Some? ==> Determined(g.nodes, g.unwritten, p)
    ensures v.Some? && old(SoundFrom(g, c)) ==> v.value == Den(g.sem.Whole(), g.nodes, g.values, p)
    ensures old(SoundFrom(g, c)) && fails == {} && (forall l: nat :: !Missing(g.nodes, g.unwritten, l)) ==> v.Some?
  {
    ghost var t0, sizable := Now(g), Sizable(g.sem, g.nodes, g.shapes.leaves, g.at, g.sessions, c);
    NoneMissingMeansReady(g, c);
    var code, ran := Compute(g, c, fails);
    if sizable {
      SizableResizes(g, c, t0);
    }
    if code != NoError {
      if !code.CallBackStop? {
        UnderExists(g.sessions, c, ran[|ran| - 1]);
      }
      return None;
    }
    ComputedIsDetermined(g.nodes, g.at, g.sessions, g.unwritten, c, p);
    var value := MapOutput(g, p);
    v := Some(value);
  }

  lemma NoneMissingMeansReady(g: ExprGraph, c: nat)
    requires g.Runnable() && Ordered(g.sessions) && c < |g.sessions|
    ensures (forall l: nat :: !Missing(g.nodes, g.unwritten, l)) ==> Ready(g.sessions, g.unwritten, c)
  {
    if forall l: nat :: !Missing(g.nodes, g.unwritten, l) {
      NoneMissingIsReady(g.nodes, g.at, g.sessions, g.unwritten, c);
    }
  }

  /** Fetches p, from a new cache if it has none. */
  method ReadCached(g: ExprGraph, p: Port, fails: set<nat>, memory: nat -> Value) returns (v: Option<Value>)
    requires g.Valid() && IsPort(g.nodes, p) && !IsLeaf(g.nodes, p.expr)
    requires HasShape(g.sem, g.nodes, g.shapes.leaves, p.expr)
    modifies g`at, g`sessions, g`tensors, g`sizing, g`contentDirty, g`shapeDirty
    ensures g.Valid() && (old(g.Sound()) && Safe(g, p.expr) ==> g.Sound())
    ensures old(g.sessions) <= g.sessions && PlacedOne(old(g.at), |old(g.sessions)|, g.at, |g.sessions|, p.expr)
    ensures ReadMarks(g, old(g.shapeDirty), p.expr)
    ensures old(g.at).cacheOf[p.expr].Some? ==> FromCache(g, old(Now(g)), old(g.at).cacheOf[p.expr].value, p, fails, v)
    ensures v.Some? ==> Determined(g.nodes, g.unwritten, p)
    ensures v.Some? && old(g.Sound()) && Safe(g, p.expr) ==> v.value == Den(g.sem.Whole(), g.nodes, g.values, p)
    ensures old(g.Sound()) && Safe(g, p.expr) && fails == {} && (forall l: nat :: !Missing(g.nodes, g.unwritten, l)) ==>
      v.Some?
  {
    var c := EnsureCache(g, p.expr, memory);
    ghost var t0 := Now(g);
    v := ReadFrom(g, c, p, fails);
    forall d: nat | d < |g.sessions| && !Under(g.sessions, c, d) ensures g.shapeDirty[d] == t0.shapeDirty[d] {
      assert WithinAt(g.sessions, c, t0, Now(g), d);
    }
  }

  /**
   Reads p. If clean caches were right before, every cache sized or marked, and everything placed in p's cache and
   below has a shape, the value returned is the one computed from scratch from what the leaves hold now; and when
   nothing is missing and no session fails, a value is returned exactly if the shape can be inferred.
   */
  method Read(g: ExprGraph, p: Port, fails: set<nat>, memory: nat -> Value) returns (v: Option<Value>)
    requires g.Valid() && IsPort(g.nodes, p)
    modifies g`shapes, g`at, g`sessions, g`tensors, g`sizing, g`contentDirty, g`shapeDirty
    ensures g.Valid() && (old(g.Sound()) && Safe(g, p.expr) ==> g.Sound())
    ensures Settles(old(g.shapes), g.shapes, p.expr + 1)
    ensures HasShape(g.sem, g.nodes, g.shapes.leaves, p.expr) ==> !g.shapes.dirty[p.expr]
    ensures if !IsLeaf(g.nodes, p.expr) && HasShape(g.sem, g.nodes, g.shapes.leaves, p.expr) then
        old(g.sessions) <= g.sessions && PlacedOne(old(g.at), |old(g.sessions)|, g.at, |g.sessions|, p.expr) &&
        ReadMarks(g, old(g.shapeDirty), p.expr) && (old(g.at).cacheOf[p.expr].Some? ==>
          FromCache(g, old(Now(g)), old(g.at).cacheOf[p.expr].value, p, fails, v))
      else g.sessions == old(g.sessions) && g.at == old(g.at) && Now(g) == old(Now(g))
    ensures v.Some? ==> Determined(g.nodes, g.unwritten, p)
    ensures v.Some? && old(g.Sound()) && Safe(g, p.expr) ==> v.value == Den(g.sem.Whole(), g.nodes, g.values, p)
    ensures old(g.Sound()) && Safe(g, p.expr) && fails == {} && (forall l: nat :: !Missing(g.nodes, g.unwritten, l)) ==>
      (v.Some? <==> HasShape(g.sem, g.nodes, g.shapes.leaves, p.expr))
  {
    if IsLeaf(g.nodes, p.expr) {
      assert NodeOk(g.nodes, p.expr) && InfoOk(g.sem, g.nodes, g.shapes, p.expr);
      return if Missing(g.nodes, g.unwritten, p.expr) then None else Some(g.values[p.expr]);
    }
    var known := RequireInfo(g, p.expr);
    if !known {
      return None;
    }
    v := ReadCached(g, p, fails, memory);
  }
}
