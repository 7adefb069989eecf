/**
 Building a compute cache for some expressions (express/Executor.cpp:463-601): a depth-first walk
 over what is not cached yet emits a pipeline in dependency order.
 */
module CacheBuilder {
  import opened Wrappers
  import opened ExprModel
  import opened Sessions
  import opened ExprGraphs
  import opened DepthFirst

  function Insert(s: seq<nat>, x: nat): (r: seq<nat>)
    ensures x in r && forall y :: y in r <==> y in s || y == x
  {
    if x in s then s else s + [x]
  }

  /** Port p needs no further entry: it is a leaf, cached, or already in the pipeline. */
  ghost predicate Covered(nodes: Nodes, at: Placement, s: Session, visited: map<nat, nat>, p: Port)
    requires Placed(nodes, at)
  {
    IsPort(nodes, p) &&
    if IsLeaf(nodes, p.expr) then nodes[p.expr].kind.Input? ==> p.expr in s.inputInside
    else if at.cacheOf[p.expr].Some? then at.cacheOf[p.expr].value in s.inputs
    else p.expr in visited
  }

  ghost predicate AllCovered(nodes: Nodes, at: Placement, s: Session, visited: map<nat, nat>, e: nat)
    requires Placed(nodes, at) && e < |nodes|
  {
    forall i :: 0 <= i < |nodes[e].inputs| ==> Covered(nodes, at, s, visited, nodes[e].inputs[i])
  }

  /** The caches and leaves noted so far exist. */
  ghost predicate NotedOk(g: ExprGraph, s: Session)
    requires Placed(g.nodes, g.at)
    reads g
  {
    && (forall d :: d in s.inputs ==> d < |g.sessions|)
    && (forall l :: l in s.inputInside ==> l < |g.nodes| && IsLeaf(g.nodes, l) && g.nodes[l].kind.Input?)
  }

  /** Same pipeline, more caches and leaves noted. */
  ghost predicate NotesMore(s: Session, s': Session) {
    && s'.pipeline == s.pipeline && s'.tensors == s.tensors
    && (forall d :: d in s.inputs ==> d in s'.inputs) && (forall l :: l in s.inputInside ==> l in s'.inputInside)
  }

  /** An input of e is placed in cache d. */
  ghost predicate ReadsCache(nodes: Nodes, at: Placement, e: nat, d: nat)
    requires Placed(nodes, at)
  {
    exists x: nat :: x < |nodes| && Consumes(nodes, e, x) && at.cacheOf[x] == Some(d)
  }

  /** Notes the caches and INPUT leaves that e reads, up to the first input that has to be emitted first. */
  method ScanInputs(g: ExprGraph, e: nat, s: Session, visited: map<nat, nat>) returns (s': Session, next: Option<nat>)
    requires g.Shaped() && CachesOk(g.nodes, g.at, g.sessions) && NotedOk(g, s) && e < |g.nodes|
    ensures NotedOk(g, s') && NotesMore(s, s')
    ensures forall d :: d in s'.inputs ==> d in s.inputs || ReadsCache(g.nodes, g.at, e, d)
    ensures next.None? ==> AllCovered(g.nodes, g.at, s', visited, e)
    ensures next.Some? ==>
      next.value < |g.nodes| && next.value < e && !IsLeaf(g.nodes, next.value) && next.value !in visited
    ensures next.Some? ==> Consumes(g.nodes, e, next.value)
  {
    s' := s;
    next := None;
    var inputs := g.nodes[e].inputs;
    assert NodeOk(g.nodes, e);
    for i := 0 to |inputs|
      invariant NotedOk(g, s') && NotesMore(s, s') && next.None?
      invariant forall d :: d in s'.inputs ==> d in s.inputs || ReadsCache(g.nodes, g.at, e, d)
      invariant forall k :: 0 <= k < i ==> Covered(g.nodes, g.at, s', visited, inputs[k])
    {
      var input := inputs[i].expr;
      if IsLeaf(g.nodes, input) {
        if g.nodes[input].kind == Input {
          s' := s'.(inputInside := Insert(s'.inputInside, input));
        }
      } else if g.at.cacheOf[input].Some? {
        assert PlaceOk(g.nodes, g.at, g.sessions, input) && Consumes(g.nodes, e, input);
        s' := s'.(inputs := Insert(s'.inputs, g.at.cacheOf[input].value));
      } else if input !in visited {
        next := Some(input);
        return;
      }
    }
  }

  /** Each emitted expression and the entry that first computes it. */
  ghost predicate VisitedOk(s: Session, visited: map<nat, nat>) {
    forall e :: e in visited ==> visited[e] < |s.pipeline| && s.pipeline[visited[e]].expr == e
  }

  /** The tensors that the entry for e reads. */
  method ResolveInputs(g: ExprGraph, e: nat, s: Session, visited: map<nat, nat>) returns (sources: seq<Source>)
    requires g.Shaped() && e < |g.nodes| && VisitedOk(s, visited)
    requires AllCovered(g.nodes, g.at, s, visited, e)
    ensures |sources| == |g.nodes[e].inputs|
    ensures forall i :: 0 <= i < |sources| ==>
      Resolves(g.nodes, g.at, s, |s.pipeline|, g.nodes[e].inputs[i], sources[i])
  {
    sources := [];
    var inputs := g.nodes[e].inputs;
    for i := 0 to |inputs|
      invariant |sources| == i
      invariant forall k :: 0 <= k < i ==> Resolves(g.nodes, g.at, s, |s.pipeline|, inputs[k], sources[k])
    {
      var p := inputs[i];
      assert Covered(g.nodes, g.at, s, visited, p);
      var source;
      if IsLeaf(g.nodes, p.expr) {
        source := LeafTensor(p.expr);
      } else if g.at.cacheOf[p.expr].Some? {
        source := CacheTensor(g.at.cacheOf[p.expr].value, g.at.offsetOf[p.expr] + p.index);
      } else {
        source := OwnTensor(visited[p.expr], p.index);
      }
      sources := sources + [source];
    }
  }

  /** A session whose last entry reaches up to its tensor count, or that is empty. */
  ghost predicate Building(nodes: Nodes, at: Placement, s: Session, visited: map<nat, nat>)
    requires Placed(nodes, at)
  {
    SessionOk(nodes, at, s) && VisitedOk(s, visited)
  }

  lemma NotesMoreKeeps(nodes: Nodes, at: Placement, s: Session, s': Session, visited: map<nat, nat>)
    requires Placed(nodes, at) && Building(nodes, at, s, visited) && NotesMore(s, s')
    ensures Building(nodes, at, s', visited)
  {
    forall j: nat | j < |s'.pipeline| ensures EntryOk(nodes, at, s', j) {
      assert EntryOk(nodes, at, s, j);
      var entry := s.pipeline[j];
      forall i | 0 <= i < |entry.inputs|
        ensures Resolves(nodes, at, s', j, nodes[entry.expr].inputs[i], entry.inputs[i])
      {
        assert Resolves(nodes, at, s, j, nodes[entry.expr].inputs[i], entry.inputs[i]);
      }
    }
  }

  function Emitted(nodes: Nodes, s: Session, e: nat, sources: seq<Source>): Session
    requires e < |nodes|
  {
    s.(pipeline := s.pipeline + [OpInfo(e, sources, s.tensors)], tensors := s.tensors + nodes[e].outputs)
  }

  /** std::map::insert keeps an older entry. */
  function Inserted(visited: map<nat, nat>, e: nat, index: nat): map<nat, nat> {
    if e in visited then visited else visited[e := index]
  }

  lemma EmitKeeps(nodes: Nodes, at: Placement, s: Session, visited: map<nat, nat>, e: nat, sources: seq<Source>)
    requires Placed(nodes, at) && Building(nodes, at, s, visited) && e < |nodes| && !IsLeaf(nodes, e)
    requires |sources| == |nodes[e].inputs|
    requires forall i :: 0 <= i < |sources| ==> Resolves(nodes, at, s, |s.pipeline|, nodes[e].inputs[i], sources[i])
    ensures Building(nodes, at, Emitted(nodes, s, e, sources), Inserted(visited, e, |s.pipeline|))
    ensures HasEntry(Emitted(nodes, s, e, sources), e, s.tensors)
    ensures forall d: nat, first: nat :: HasEntry(s, d, first) ==> HasEntry(Emitted(nodes, s, e, sources), d, first)
  {
    var s' := Emitted(nodes, s, e, sources);
    forall j: nat | j < |s'.pipeline| ensures EntryOk(nodes, at, s', j) {
      assert j < |s.pipeline| ==> EntryOk(nodes, at, s, j);
      var entry := s'.pipeline[j];
      forall i | 0 <= i < |entry.inputs|
        ensures Resolves(nodes, at, s', j, nodes[entry.expr].inputs[i], entry.inputs[i])
      {
        assert Resolves(nodes, at, s, j, nodes[entry.expr].inputs[i], entry.inputs[i]);
      }
    }
    assert IsEntry(s', |s.pipeline|, e, s.tensors);
    forall d: nat, first: nat | HasEntry(s, d, first) ensures HasEntry(s', d, first) {
      var j: nat :| j < |s.pipeline| && IsEntry(s, j, d, first);
      assert IsEntry(s', j, d, first);
    }
  }

  // ---------------------------------------------------------------- the walk

  /** Only operators are on the stack. */
  ghost predicate StackOk(nodes: Nodes, stack: seq<nat>) {
    forall k :: 0 <= k < |stack| ==> stack[k] < |nodes| && !IsLeaf(nodes, stack[k])
  }

  /** Every target has been placed or is still on the stack. */
  ghost predicate TargetsOk(s: Session, stack: seq<nat>, dstExpr: map<nat, int>) {
    forall e :: e in dstExpr ==> (dstExpr[e] >= 0 && HasEntry(s, e, dstExpr[e])) || (dstExpr[e] == -1 && e in stack)
  }

  /** Expression e is a target, or a target depends on it. */
  ghost predicate Feeds(nodes: Nodes, targets: set<nat>, e: nat)
    requires Acyclic(nodes)
  {
    exists y: nat :: y in targets && (y == e || DependsOn(nodes, y, e))
  }

  lemma InputFeeds(nodes: Nodes, targets: set<nat>, e: nat, x: nat)
    requires Acyclic(nodes) && Feeds(nodes, targets, e) && Consumes(nodes, e, x)
    ensures Feeds(nodes, targets, x)
  {
    assert NodeOk(nodes, e);
    var i: nat :| i < |nodes[e].inputs| && nodes[e].inputs[i].expr == x;
    assert InputLeadsTo(nodes, e, i, x);
    var y: nat :| y in targets && (y == e || DependsOn(nodes, y, e));
    if y != e {
      DependsTransitive(nodes, y, e, x);
    }
  }

  /** Nothing is emitted or waits that no target needs. */
  ghost predicate AllFeed(nodes: Nodes, targets: set<nat>, s: Session, stack: seq<nat>)
    requires Acyclic(nodes)
  {
    && (forall k :: 0 <= k < |stack| ==> Feeds(nodes, targets, stack[k]))
    && (forall j: nat :: j < |s.pipeline| ==> Feeds(nodes, targets, s.pipeline[j].expr))
  }

  /** A target depends on something placed in cache d. */
  ghost predicate NeedsCache(nodes: Nodes, at: Placement, targets: set<nat>, d: nat)
    requires Acyclic(nodes) && Placed(nodes, at)
  {
    exists y: nat, x: nat :: y in targets && x < |nodes| && at.cacheOf[x] == Some(d) && DependsOn(nodes, y, x)
  }

  lemma ReadIsNeeded(nodes: Nodes, at: Placement, targets: set<nat>, e: nat, d: nat)
    requires Acyclic(nodes) && Placed(nodes, at) && Feeds(nodes, targets, e) && ReadsCache(nodes, at, e, d)
    ensures NeedsCache(nodes, at, targets, d)
  {
    var x: nat :| x < |nodes| && Consumes(nodes, e, x) && at.cacheOf[x] == Some(d);
    assert NodeOk(nodes, e);
    var i: nat :| i < |nodes[e].inputs| && nodes[e].inputs[i].expr == x;
    assert InputLeadsTo(nodes, e, i, x);
    var y: nat :| y in targets && (y == e || DependsOn(nodes, y, e));
    if y != e {
      DependsTransitive(nodes, y, e, x);
    }
    assert DependsOn(nodes, y, x);
  }

  ghost predicate AllNeeded(nodes: Nodes, at: Placement, targets: set<nat>, s: Session)
    requires Acyclic(nodes) && Placed(nodes, at)
  {
    forall d :: d in s.inputs ==> NeedsCache(nodes, at, targets, d)
  }

  lemma PushFeeds(nodes: Nodes, targets: set<nat>, s: Session, stack: seq<nat>, x: nat)
    requires Acyclic(nodes) && AllFeed(nodes, targets, s, stack) && stack != []
    requires Consumes(nodes, stack[|stack| - 1], x)
    ensures AllFeed(nodes, targets, s, stack + [x])
  {
    InputFeeds(nodes, targets, stack[|stack| - 1], x);
  }

  lemma PopTarget(s: Session, s': Session, stack: seq<nat>, dstExpr: map<nat, int>, e: nat, offset: nat)
    requires stack != [] && e == stack[|stack| - 1] && TargetsOk(s, stack, dstExpr) && HasEntry(s', e, offset)
    requires forall d: nat, first: nat :: HasEntry(s, d, first) ==> HasEntry(s', d, first)
    ensures TargetsOk(s', stack[..|stack| - 1], if e in dstExpr then dstExpr[e := offset] else dstExpr)
  {
    forall d | d in dstExpr && d != e && dstExpr[d] == -1 ensures d in stack[..|stack| - 1] {
      var k :| 0 <= k < |stack| && stack[k] == d;
      assert stack[..|stack| - 1][k] == d;
    }
  }

  lemma NotesMoreTargets(s: Session, s': Session, stack: seq<nat>, dstExpr: map<nat, int>)
    requires TargetsOk(s, stack, dstExpr) && NotesMore(s, s')
    ensures TargetsOk(s', stack, dstExpr)
  {
    forall d | d in dstExpr && dstExpr[d] >= 0 ensures HasEntry(s', d, dstExpr[d]) {
      var j: nat :| j < |s.pipeline| && IsEntry(s, j, d, dstExpr[d]);
      assert IsEntry(s', j, d, dstExpr[d]);
    }
  }

  /** The walk's state is consistent. */
  ghost predicate WalkOk(g: ExprGraph, s: Session, stack: seq<nat>, visited: map<nat, nat>, dst: map<nat, int>,
      targets: set<nat>, base: nat)
    requires Placed(g.nodes, g.at) && Acyclic(g.nodes)
    reads g
  {
    && Building(g.nodes, g.at, s, visited) && NotedOk(g, s)
    && StackOk(g.nodes, stack) && Path(stack, base, visited.Keys) && TargetsOk(s, stack, dst)
    && AllFeed(g.nodes, targets, s, stack) && AllNeeded(g.nodes, g.at, targets, s)
  }

  /** Emits the top of the stack, whose inputs are all covered, and places it if it is a target. */
  method EmitTop(g: ExprGraph, s: Session, stack: seq<nat>, visited: map<nat, nat>, dst: map<nat, int>,
      ghost targets: set<nat>, ghost base: nat) returns (s': Session, visited': map<nat, nat>, dstExpr: map<nat, int>)
    requires g.Shaped() && stack != [] && WalkOk(g, s, stack, visited, dst, targets, base)
    requires AllCovered(g.nodes, g.at, s, visited, stack[|stack| - 1])
    ensures WalkOk(g, s', stack[..|stack| - 1], visited', dstExpr, targets, Lowered(base, |stack| - 1))
    ensures dstExpr.Keys == dst.Keys
    ensures Todo(|g.nodes|, visited'.Keys) < Todo(|g.nodes|, visited.Keys)
      || (Todo(|g.nodes|, visited'.Keys) == Todo(|g.nodes|, visited.Keys) && base == |stack|)
  {
    var expr := stack[|stack| - 1];
    var offset := s.tensors;
    var sources := ResolveInputs(g, expr, s, visited);
    EmitKeeps(g.nodes, g.at, s, visited, expr, sources);
    s' := Emitted(g.nodes, s, expr, sources);
    visited' := Inserted(visited, expr, |s.pipeline|);
    PopPath(stack, base, visited.Keys);
    TodoShrinks(|g.nodes|, visited.Keys, expr);
    assert visited'.Keys == visited.Keys + {expr};
    PopTarget(s, s', stack, dst, expr, offset);
    dstExpr := if expr in dst then dst[expr := offset] else dst;
  }

  /** What the caches and leaves of the top leave to be done first, if anything. */
  method ScanTop(g: ExprGraph, s: Session, stack: seq<nat>, visited: map<nat, nat>, ghost dst: map<nat, int>,
      ghost targets: set<nat>, ghost base: nat) returns (s': Session, next: Option<nat>)
    requires g.Shaped() && CachesOk(g.nodes, g.at, g.sessions) && stack != []
    requires WalkOk(g, s, stack, visited, dst, targets, base)
    ensures next.None? ==> WalkOk(g, s', stack, visited, dst, targets, base)
    ensures next.None? ==> AllCovered(g.nodes, g.at, s', visited, stack[|stack| - 1])
    ensures next.Some? ==>
      next.value < stack[|stack| - 1] && WalkOk(g, s', stack + [next.value], visited, dst, targets, base)
  {
    s', next := ScanInputs(g, stack[|stack| - 1], s, visited);
    NotesMoreKeeps(g.nodes, g.at, s, s', visited);
    NotesMoreTargets(s, s', stack, dst);
    forall d | d in s'.inputs && d !in s.inputs ensures NeedsCache(g.nodes, g.at, targets, d) {
      ReadIsNeeded(g.nodes, g.at, targets, stack[|stack| - 1], d);
    }
    if next.Some? {
      PushFeeds(g.nodes, targets, s', stack, next.value);
    }
  }

  /**
   The pipeline for the targets and where it puts each of them. A target that another one depends
   on is emitted twice: its placement is the second copy, its consumers read the first.
   */
  method BuildPipeline(g: ExprGraph, targets: seq<nat>) returns (s: Session, dstExpr: map<nat, int>)
    requires g.Shaped() && CachesOk(g.nodes, g.at, g.sessions)
    requires forall e :: e in targets ==> e < |g.nodes| && !IsLeaf(g.nodes, e)
    ensures SessionOk(g.nodes, g.at, s) && NotedOk(g, s) && AllFeed(g.nodes, dstExpr.Keys, s, [])
    ensures AllNeeded(g.nodes, g.at, dstExpr.Keys, s)
    ensures forall e :: e in dstExpr <==> e in targets
    ensures forall e :: e in dstExpr ==> dstExpr[e] >= 0 && HasEntry(s, e, dstExpr[e])
  {
    s := Session([], 0, [], []);
    dstExpr := map e | e in targets :: -1;
    forall k | 0 <= k < |targets| ensures Feeds(g.nodes, dstExpr.Keys, targets[k]) {
      assert targets[k] in targets && targets[k] in dstExpr;
    }
    s, dstExpr := RunWalk(g, s, targets, dstExpr, dstExpr.Keys);
  }

  /** The walk comes closer to its end: less is to be emitted, or fewer targets wait, or the path is longer. */
  ghost predicate Closer(n: nat, done: set<nat>, base: nat, stack: seq<nat>, done': set<nat>, base': nat,
      stack': seq<nat>)
  {
    || Todo(n, done') < Todo(n, done)
    || (Todo(n, done') == Todo(n, done) && (base' < base || (base' == base && Top(stack') < Top(stack))))
  }

  /** The top of the stack waits for an input or is emitted. */
  method HandleTop(g: ExprGraph, s: Session, stack: seq<nat>, visited: map<nat, nat>, dst: map<nat, int>,
      ghost targets: set<nat>, ghost base: nat)
    returns (s': Session, stack': seq<nat>, visited': map<nat, nat>, dstExpr: map<nat, int>, ghost base': nat)
    requires g.Shaped() && CachesOk(g.nodes, g.at, g.sessions) && stack != []
    requires WalkOk(g, s, stack, visited, dst, targets, base)
    ensures WalkOk(g, s', stack', visited', dstExpr, targets, base') && dstExpr.Keys == dst.Keys
    ensures Closer(|g.nodes|, visited.Keys, base, stack, visited'.Keys, base', stack')
  {
    visited', dstExpr, base' := visited, dst, base;
    var next;
    s', next := ScanTop(g, s, stack, visited, dst, targets, base);
    if next.Some? {
      stack' := stack + [next.value];
    } else {
      var last := |stack| - 1;
      s', visited', dstExpr := EmitTop(g, s', stack, visited, dst, targets, base);
      stack', base' := stack[..last], Lowered(base, last);
    }
  }

  /** The walk from a stack of targets. */
  method RunWalk(g: ExprGraph, s0: Session, targets: seq<nat>, dst: map<nat, int>, ghost asked: set<nat>)
    returns (s: Session, dstExpr: map<nat, int>)
    requires g.Shaped() && CachesOk(g.nodes, g.at, g.sessions)
    requires WalkOk(g, s0, targets, map[], dst, asked, |targets|)
    ensures SessionOk(g.nodes, g.at, s) && NotedOk(g, s) && TargetsOk(s, [], dstExpr) && dstExpr.Keys == dst.Keys
    ensures AllFeed(g.nodes, asked, s, []) && AllNeeded(g.nodes, g.at, asked, s)
  {
    s, dstExpr := s0, dst;
    var dfsStack := targets;
    var visited: map<nat, nat> := map[];
    ghost var base: nat := |targets|;
    while dfsStack != []
      invariant WalkOk(g, s, dfsStack, visited, dstExpr, asked, base) && dstExpr.Keys == dst.Keys
      decreases Todo(|g.nodes|, visited.Keys), base, Top(dfsStack)
    {
      s, dfsStack, visited, dstExpr, base := HandleTop(g, s, dfsStack, visited, dstExpr, asked, base);
    }
  }

  // ---------------------------------------------------------------- placing

  ghost predicate PlacedIn(at: Placement, at': Placement, c: nat, dstExpr: map<nat, int>) {
    && |at'.cacheOf| == |at.cacheOf| && |at'.offsetOf| == |at.offsetOf|
    && forall e: nat :: e < |at.cacheOf| && e < |at.offsetOf| ==>
      if e in dstExpr then at'.cacheOf[e] == Some(c) && at'.offsetOf[e] == dstExpr[e]
      else at'.cacheOf[e] == at.cacheOf[e] && at'.offsetOf[e] == at.offsetOf[e]
  }

  lemma ServesPlaced(nodes: Nodes, at: Placement, at': Placement, sessions: seq<Session>, s: Session,
      dstExpr: map<nat, int>, c: nat, j: nat)
    requires Acyclic(nodes) && Placed(nodes, at) && Placed(nodes, at') && PlacedIn(at, at', |sessions|, dstExpr)
    requires forall e :: e in dstExpr ==> e < |nodes| && at.cacheOf[e].None?
    requires AllFeed(nodes, dstExpr.Keys, s, []) && c <= |sessions| && j < |(sessions + [s])[c].pipeline|
    requires c < |sessions| ==> Serves(nodes, at, c, sessions[c].pipeline[j].expr)
    ensures Serves(nodes, at', c, (sessions + [s])[c].pipeline[j].expr)
  {
    var e := (sessions + [s])[c].pipeline[j].expr;
    if c < |sessions| {
      var y: nat :| y < |nodes| && at.cacheOf[y] == Some(c) && (y == e || (Acyclic(nodes) && DependsOn(nodes, y, e)));
      assert at'.cacheOf[y] == Some(c);
    } else {
      var y: nat :| y in dstExpr.Keys && (y == e || DependsOn(nodes, y, e));
      assert at'.cacheOf[y] == Some(c);
    }
  }

  lemma ReadsPlaced(nodes: Nodes, at: Placement, at': Placement, sessions: seq<Session>, s: Session,
      dstExpr: map<nat, int>, c: nat, d: nat)
    requires Acyclic(nodes) && Placed(nodes, at) && Placed(nodes, at') && PlacedIn(at, at', |sessions|, dstExpr)
    requires forall e :: e in dstExpr ==> e < |nodes| && at.cacheOf[e].None?
    requires AllNeeded(nodes, at, dstExpr.Keys, s) && c <= |sessions| && d in (sessions + [s])[c].inputs
    requires c < |sessions| ==> GroupReads(nodes, at.cacheOf, c, d)
    ensures GroupReads(nodes, at'.cacheOf, c, d)
  {
    if c < |sessions| {
      var y: nat, x: nat :| y < |at.cacheOf| && x < |at.cacheOf| && at.cacheOf[y] == Some(c) &&
        at.cacheOf[x] == Some(d) && DependsOn(nodes, y, x);
      assert at'.cacheOf[y] == Some(c) && at'.cacheOf[x] == Some(d);
    } else {
      assert NeedsCache(nodes, at, dstExpr.Keys, d);
      var y: nat, x: nat :| y in dstExpr.Keys && x < |nodes| && at.cacheOf[x] == Some(d) && DependsOn(nodes, y, x);
      assert at'.cacheOf[y] == Some(c) && at'.cacheOf[x] == Some(d);
    }
  }

  /** The new cache fits in beside the old ones, which are unaffected. */
  lemma AddCache(nodes: Nodes, at: Placement, at': Placement, sessions: seq<Session>, s: Session, dstExpr: map<nat,
      int>)
    requires Placed(nodes, at) && CachesOk(nodes, at, sessions) && SessionOk(nodes, at, s)
    requires PlacedIn(at, at', |sessions|, dstExpr) && Acyclic(nodes) && AllFeed(nodes, dstExpr.Keys, s, [])
    requires AllNeeded(nodes, at, dstExpr.Keys, s)
    requires forall d :: d in s.inputs ==> d < |sessions|
    requires forall l :: l in s.inputInside ==> l < |nodes| && IsLeaf(nodes, l) && nodes[l].kind.Input?
    requires forall e :: e in dstExpr ==>
      e < |nodes| && !IsLeaf(nodes, e) && at.cacheOf[e].None? && dstExpr[e] >= 0 && HasEntry(s, e, dstExpr[e])
    ensures Placed(nodes, at') && CachesOk(nodes, at', sessions + [s])
  {
    var sessions' := sessions + [s];
    forall c: nat | c < |sessions'| ensures CacheOk(nodes, at', sessions', c) {
      assert c < |sessions| ==> CacheOk(nodes, at, sessions, c);
      SessionOkPlaced(nodes, at, at', sessions'[c]);
      forall j: nat | j < |sessions'[c].pipeline| ensures Serves(nodes, at', c, sessions'[c].pipeline[j].expr) {
        ServesPlaced(nodes, at, at', sessions, s, dstExpr, c, j);
      }
      forall d | d in sessions'[c].inputs ensures GroupReads(nodes, at'.cacheOf, c, d) {
        ReadsPlaced(nodes, at, at', sessions, s, dstExpr, c, d);
      }
    }
    forall e: nat | e < |nodes| ensures PlaceOk(nodes, at', sessions', e) {
      assert PlaceOk(nodes, at, sessions, e);
    }
  }

  /** A new cache is marked, so older ones are what they were. */
  lemma AddCacheSound(sem: Semantics, nodes: Nodes, values: seq<Value>, at: Placement, at': Placement,
      sessions: seq<Session>, s: Session, tensors: seq<seq<Value>>, z: Sizing, contentDirty: seq<bool>,
      shapeDirty: seq<bool>, own: seq<Value>, dstExpr: map<nat, int>)
    requires Acyclic(nodes) && |values| == |nodes| && Placed(nodes, at) && Placed(nodes, at')
    requires SizingFor(sessions, z) && |own| == s.tensors && PlacedIn(at, at', |tensors|, dstExpr)
    requires |contentDirty| == |sessions| && |shapeDirty| == |sessions| && |tensors| == |sessions|
    ensures SizingFor(sessions + [s], WithSession(z, Dims(own)))
    ensures Fresh(sem, nodes, values, at, tensors, contentDirty, shapeDirty) ==>
      Fresh(sem, nodes, values, at', tensors + [own], contentDirty + [true], shapeDirty + [true])
    ensures AllSized(sem, nodes, Dims(values), sessions, z, shapeDirty) ==>
      AllSized(sem, nodes, Dims(values), sessions + [s], WithSession(z, Dims(own)), shapeDirty + [true])
  {
    if Fresh(sem, nodes, values, at, tensors, contentDirty, shapeDirty) {
      forall c: nat | c < |tensors| && !contentDirty[c] && !shapeDirty[c]
        ensures HoldsAll(sem.Whole(), nodes, values, at', tensors[c], c)
      {
        assert HoldsAll(sem.Whole(), nodes, values, at, tensors[c], c);
      }
    }
    if AllSized(sem, nodes, Dims(values), sessions, z, shapeDirty) {
      forall c: nat | c < |sessions| && !shapeDirty[c]
        ensures CacheSized(sem, nodes, Dims(values), sessions + [s], WithSession(z, Dims(own)), c)
      {
        assert CacheSized(sem, nodes, Dims(values), sessions, z, c);
      }
    }
  }

  /** A new session has never been resized. */
  function WithSession(z: Sizing, dims: seq<Shape>): Sizing {
    Sizing(z.dims + [dims], z.sizes + [[]], z.needResize + [true])
  }

  /** The expressions that are not leaves. */
  method Operators(g: ExprGraph, exprs: seq<nat>) returns (targets: seq<nat>)
    requires forall e :: e in exprs ==> e < |g.nodes|
    ensures forall e: nat :: e in targets <==> e in exprs && e < |g.nodes| && !IsLeaf(g.nodes, e)
  {
    targets := [];
    for i := 0 to |exprs|
      invariant forall e: nat :: e in targets <==> e in exprs[..i] && e < |g.nodes| && !IsLeaf(g.nodes, e)
    {
      assert exprs[i] in exprs && exprs[..i + 1] == exprs[..i] + [exprs[i]];
      if !IsLeaf(g.nodes, exprs[i]) {
        targets := targets + [exprs[i]];
      }
    }
    assert exprs[..|exprs|] == exprs;
  }

  /**
   The new cache starts out dirty and its session not resized; its tensors' contents and dimensions are whatever
   they get.
   */
  method MakeCache(g: ExprGraph, exprs: seq<nat>, memory: nat -> Value)
    requires g.Valid() && forall e :: e in exprs ==> e < |g.nodes| && g.at.cacheOf[e].None?
    modifies g`at, g`sessions, g`tensors, g`sizing, g`contentDirty, g`shapeDirty
    ensures g.Valid() && (old(g.Sound()) ==> g.Sound())
    ensures forall e: nat :: e < |g.nodes| ==>
      if e in exprs && !IsLeaf(g.nodes, e) then
        g.at.cacheOf[e] == Some(|old(g.sessions)|) && |g.sessions| == |old(g.sessions)| + 1
      else g.at.cacheOf[e] == old(g.at).cacheOf[e]
    ensures old(g.sessions) <= g.sessions && |g.sessions| <= |old(g.sessions)| + 1
    ensures g.shapeDirty == Padded(old(g.shapeDirty), |g.sessions|)
  {
    var targets := Operators(g, exprs);
    if targets == [] {
      return;
    }
    var s, dstExpr := BuildPipeline(g, targets);
    ghost var at0 := g.at;
    Place(g, s, dstExpr);
    AddCache(g.nodes, at0, g.at, g.sessions, s, dstExpr);
    Install(g, at0, s, dstExpr, seq(s.tensors, memory));
  }

  /** Adds the cache for what has been placed. */
  method Install(g: ExprGraph, ghost at0: Placement, s: Session, ghost dstExpr: map<nat, int>, own: seq<Value>)
    requires g.Shaped() && Allocated(g.sessions, g.tensors) && SizingFor(g.sessions, g.sizing) && |own| == s.tensors
    requires g.shapes.leaves == Dims(g.values) && Placed(g.nodes, at0) && PlacedIn(at0, g.at, |g.sessions|, dstExpr)
    modifies g`sessions, g`tensors, g`sizing, g`contentDirty, g`shapeDirty
    ensures g.sessions == old(g.sessions) + [s] && g.shapeDirty == old(g.shapeDirty) + [true]
    ensures g.Shaped() && Allocated(g.sessions, g.tensors) && SizingFor(g.sessions, g.sizing)
    ensures Fresh(g.sem, g.nodes, g.values, at0, old(g.tensors), old(g.contentDirty), old(g.shapeDirty)) ==>
      Fresh(g.sem, g.nodes, g.values, g.at, g.tensors, g.contentDirty, g.shapeDirty)
    ensures AllSized(g.sem, g.nodes, g.shapes.leaves, old(g.sessions), old(g.sizing), old(g.shapeDirty)) ==>
      AllSized(g.sem, g.nodes, g.shapes.leaves, g.sessions, g.sizing, g.shapeDirty)
  {
    AddCacheSound(g.sem, g.nodes, g.values, at0, g.at, g.sessions, s, g.tensors, g.sizing, g.contentDirty, g.shapeDirty,
      own, dstExpr);
    g.sessions, g.tensors, g.sizing := g.sessions + [s], g.tensors + [own], WithSession(g.sizing, Dims(own));
    g.contentDirty, g.shapeDirty := g.contentDirty + [true], g.shapeDirty + [true];
  }

  /** Flags for n caches, the new ones set. */
  ghost function Padded(flags: seq<bool>, n: nat): (r: seq<bool>)
    requires |flags| <= n
    ensures |r| == n && forall c :: 0 <= c < n ==> r[c] == (c >= |flags| || flags[c])
  {
    seq(n, c requires 0 <= c < n => c >= |flags| || flags[c])
  }

  /** Records the new cache and the offsets. */
  method Place(g: ExprGraph, s: Session, dstExpr: map<nat, int>)
    requires Placed(g.nodes, g.at) && forall e :: e in dstExpr ==> e < |g.nodes| && dstExpr[e] >= 0
    modifies g`at
    ensures PlacedIn(old(g.at), g.at, |g.sessions|, dstExpr) && Placed(g.nodes, g.at)
  {
    var left := dstExpr.Keys;
    while left != {}
      invariant left <= dstExpr.Keys
      invariant PlacedIn(old(g.at), g.at, |g.sessions|, map e | e in dstExpr && e !in left :: dstExpr[e])
      decreases left
    {
      var e :| e in left;
      g.at := Placement(g.at.cacheOf[e := Some(|g.sessions|)], g.at.offsetOf[e := dstExpr[e]]);
      left := left - {e};
    }
  }
}
