/**
 Writing a leaf (express/Expr.cpp:845-873, 908-918, 936-958): everything that depends on it is visited once,
 over the consumer lists, and the caches found there are marked dirty.
 */
module InformDirty {
  import opened Wrappers
  import opened ExprModel
  import opened Sessions
  import opened ExprGraphs

  /** y was visited between v0 and v1. */
  predicate New(v0: seq<bool>, v1: seq<bool>, y: nat) {
    y < |v0| && y < |v1| && v1[y] && !v0[y]
  }

  ghost predicate Grew(v0: seq<bool>, v1: seq<bool>) {
    |v1| == |v0| && forall y: nat :: y < |v0| && v0[y] ==> v1[y]
  }

  ghost predicate ConsumersIn(nodes: Nodes, y: nat, v: seq<bool>) {
    |v| == |nodes| && forall x: nat :: Consumes(nodes, x, y) ==> v[x]
  }

  ghost predicate Closed(nodes: Nodes, v0: seq<bool>, v1: seq<bool>) {
    forall y: nat :: New(v0, v1, y) ==> ConsumersIn(nodes, y, v1)
  }

  ghost predicate OnlyDependents(nodes: Nodes, v0: seq<bool>, v1: seq<bool>, e: nat)
    requires Acyclic(nodes)
  {
    forall y: nat :: New(v0, v1, y) ==> DependsOn(nodes, y, e)
  }

  ghost predicate Touches(at: Placement, v0: seq<bool>, v1: seq<bool>, c: nat) {
    exists y: nat :: New(v0, v1, y) && y < |at.cacheOf| && at.cacheOf[y] == Some(c)
  }

  /** The caches of what was visited are dirty, and no others became so. */
  ghost predicate DirtiedBy(at: Placement, v0: seq<bool>, v1: seq<bool>, dirty0: seq<bool>, dirty1: seq<bool>) {
    |dirty1| == |dirty0| && forall c: nat :: c < |dirty0| ==> (dirty1[c] <==> dirty0[c] || Touches(at, v0, v1, c))
  }

  ghost predicate Lists(touched: seq<nat>, v0: seq<bool>, v1: seq<bool>) {
    forall y: nat :: y in touched <==> New(v0, v1, y)
  }

  /** Visiting x and then everything below it extends a visit. */
  lemma GrowStep(nodes: Nodes, x: nat, v0: seq<bool>, v1: seq<bool>, v2: seq<bool>)
    requires |v0| == |nodes| && Grew(v0, v1) && x < |nodes| && !v1[x] && Grew(v1[x := true], v2)
    requires Closed(nodes, v0, v1) && Closed(nodes, v1[x := true], v2) && ConsumersIn(nodes, x, v2)
    ensures Grew(v0, v2) && Closed(nodes, v0, v2)
    ensures forall y: nat :: New(v0, v2, y) <==> New(v0, v1, y) || y == x || New(v1[x := true], v2, y)
    ensures forall y: nat :: y < |v1| && v1[y] ==> v2[y]
  {
    var v := v1[x := true];
    forall y: nat ensures New(v0, v2, y) <==> New(v0, v1, y) || y == x || New(v, v2, y) {
      if y < |v0| {
        assert v[y] == (v1[y] || y == x);
        assert v1[y] ==> v[y] ==> v2[y];
        assert v0[y] ==> v1[y];
      }
    }
    forall y: nat | New(v0, v2, y) ensures ConsumersIn(nodes, y, v2) {
      if New(v0, v1, y) {
        assert ConsumersIn(nodes, y, v1);
        forall z: nat | Consumes(nodes, z, y) ensures v2[z] {
          assert v1[z] && v[z];
        }
      }
    }
    forall y: nat | y < |v1| && v1[y] ensures v2[y] {
      assert v[y];
    }
  }

  /** And finds nothing but dependents. */
  lemma VisitStep(nodes: Nodes, e: nat, x: nat, v0: seq<bool>, v1: seq<bool>, v2: seq<bool>)
    requires Acyclic(nodes) && |v0| == |nodes| && Grew(v0, v1) && x < |nodes| && !v1[x] && Grew(v1[x := true], v2)
    requires Closed(nodes, v0, v1) && OnlyDependents(nodes, v0, v1, e)
    requires Closed(nodes, v1[x := true], v2) && OnlyDependents(nodes, v1[x := true], v2, x)
    requires ConsumersIn(nodes, x, v2) && DependsOn(nodes, x, e)
    ensures Grew(v0, v2) && Closed(nodes, v0, v2) && OnlyDependents(nodes, v0, v2, e)
    ensures forall y: nat :: New(v0, v2, y) <==> New(v0, v1, y) || y == x || New(v1[x := true], v2, y)
    ensures forall y: nat :: y < |v1| && v1[y] ==> v2[y]
  {
    GrowStep(nodes, x, v0, v1, v2);
    forall y: nat | New(v0, v2, y) ensures DependsOn(nodes, y, e) {
      if y != x && !New(v0, v1, y) {
        DependsTransitive(nodes, y, x, e);
      }
    }
  }

  lemma ConsumerDepends(nodes: Nodes, x: nat, e: nat)
    requires Acyclic(nodes) && Consumes(nodes, x, e)
    ensures DependsOn(nodes, x, e) && x > e
  {
    assert NodeOk(nodes, x);
    var i: nat :| i < |nodes[x].inputs| && nodes[x].inputs[i].expr == e;
    assert InputLeadsTo(nodes, x, i, e);
  }

  lemma DirtiedStep(at: Placement, x: nat, v0: seq<bool>, v1: seq<bool>, v2: seq<bool>, d0: seq<bool>, d1: seq<bool>,
      d: seq<bool>, d2: seq<bool>)
    requires DirtiedBy(at, v0, v1, d0, d1) && |d| == |d1| && x < |v1| && x < |at.cacheOf|
    requires DirtiedBy(at, v1[x := true], v2, d, d2)
    requires forall c: nat :: c < |d| ==> (d[c] <==> d1[c] || at.cacheOf[x] == Some(c))
    requires forall y: nat :: New(v0, v2, y) <==> New(v0, v1, y) || y == x || New(v1[x := true], v2, y)
    ensures DirtiedBy(at, v0, v2, d0, d2)
  {
    forall c: nat | c < |d0| ensures d2[c] <==> d0[c] || Touches(at, v0, v2, c) {
      if Touches(at, v0, v1, c) {
        var y: nat :| New(v0, v1, y) && y < |at.cacheOf| && at.cacheOf[y] == Some(c);
        assert New(v0, v2, y);
      }
      if Touches(at, v1[x := true], v2, c) {
        var y: nat :| New(v1[x := true], v2, y) && y < |at.cacheOf| && at.cacheOf[y] == Some(c);
        assert New(v0, v2, y);
      }
      assert New(v0, v2, x);
    }
  }

  /** Marks the cache of x, if it has one. */
  method SetContentDirty(g: ExprGraph, x: nat)
    requires g.Shaped() && CachesOk(g.nodes, g.at, g.sessions) && x < |g.nodes|
    modifies g`contentDirty
    ensures |g.contentDirty| == |old(g.contentDirty)|
    ensures forall c: nat :: c < |g.contentDirty| ==>
      (g.contentDirty[c] <==> old(g.contentDirty)[c] || g.at.cacheOf[x] == Some(c))
  {
    if g.at.cacheOf[x].Some? {
      assert PlaceOk(g.nodes, g.at, g.sessions, x);
      g.contentDirty := g.contentDirty[g.at.cacheOf[x].value := true];
    }
  }

  /** Visits everything below e that has not been visited, and marks its caches. */
  method VisitOutputs(g: ExprGraph, e: nat) returns (touched: seq<nat>)
    requires g.Shaped() && Linked(g.nodes, g.to) && CachesOk(g.nodes, g.at, g.sessions) && e < |g.nodes|
    modifies g`visited, g`contentDirty
    ensures Grew(old(g.visited), g.visited) && ConsumersIn(g.nodes, e, g.visited)
    ensures Closed(g.nodes, old(g.visited), g.visited) && OnlyDependents(g.nodes, old(g.visited), g.visited, e)
    ensures DirtiedBy(g.at, old(g.visited), g.visited, old(g.contentDirty), g.contentDirty)
    ensures Lists(touched, old(g.visited), g.visited)
    decreases |g.nodes| - e
  {
    ghost var v0, d0 := g.visited, g.contentDirty;
    touched := [];
    for i := 0 to |g.to[e]|
      invariant g.Shaped() && Grew(v0, g.visited)
      invariant forall k :: 0 <= k < i ==> g.to[e][k] < |g.nodes| && g.visited[g.to[e][k]]
      invariant Closed(g.nodes, v0, g.visited) && OnlyDependents(g.nodes, v0, g.visited, e)
      invariant DirtiedBy(g.at, v0, g.visited, d0, g.contentDirty)
      invariant Lists(touched, v0, g.visited)
    {
      var x := g.to[e][i];
      assert x in g.to[e];
      ConsumerDepends(g.nodes, x, e);
      if !g.visited[x] {
        ghost var v1, d1 := g.visited, g.contentDirty;
        g.visited := g.visited[x := true];
        SetContentDirty(g, x);
        ghost var d := g.contentDirty;
        var more := VisitOutputs(g, x);
        VisitStep(g.nodes, e, x, v0, v1, g.visited);
        DirtiedStep(g.at, x, v0, v1, g.visited, d0, d1, d, g.contentDirty);
        touched := touched + [x] + more;
      }
    }
    forall x: nat | Consumes(g.nodes, x, e) ensures g.visited[x] {
      assert x in g.to[e];
    }
  }

  // ---------------------------------------------------------------- writing

  /** What one visit from e reaches is exactly what depends on e. */
  lemma VisitedIffDepends(nodes: Nodes, e: nat, v0: seq<bool>, v1: seq<bool>)
    requires Acyclic(nodes) && |v0| == |nodes| && Unvisited(v0) && Grew(v0, v1)
    requires ConsumersIn(nodes, e, v1) && Closed(nodes, v0, v1) && OnlyDependents(nodes, v0, v1, e)
    ensures forall y: nat :: y < |nodes| ==> (v1[y] <==> DependsOn(nodes, y, e))
  {
    var covered := set y: nat | y < |v1| && v1[y];
    forall x: nat, i: nat | x < |nodes| && i < |nodes[x].inputs| &&
        (nodes[x].inputs[i].expr == e || nodes[x].inputs[i].expr in covered)
      ensures x in covered
    {
      var y := nodes[x].inputs[i].expr;
      assert Consumes(nodes, x, y);
      if y != e {
        assert New(v0, v1, y) && ConsumersIn(nodes, y, v1);
      }
    }
    forall y: nat | y < |nodes| ensures v1[y] <==> DependsOn(nodes, y, e) {
      if v1[y] {
        assert New(v0, v1, y);
      }
      if DependsOn(nodes, y, e) {
        ClosedCoversDependents(nodes, e, covered, y);
      }
    }
  }

  /** Cache c holds something that depends on e. */
  ghost predicate CachesDependent(nodes: Nodes, at: Placement, c: nat, e: nat)
    requires Acyclic(nodes) && Placed(nodes, at)
  {
    exists y: nat :: y < |nodes| && DependentIn(nodes, at, y, c, e)
  }

  ghost predicate DependentIn(nodes: Nodes, at: Placement, y: nat, c: nat, e: nat)
    requires Acyclic(nodes) && Placed(nodes, at) && y < |nodes|
  {
    at.cacheOf[y] == Some(c) && DependsOn(nodes, y, e)
  }

  lemma TouchedIffDependent(nodes: Nodes, at: Placement, v0: seq<bool>, v1: seq<bool>, c: nat, e: nat)
    requires Acyclic(nodes) && Placed(nodes, at) && |v0| == |nodes| == |v1| && Unvisited(v0)
    requires forall y: nat :: y < |nodes| ==> (v1[y] <==> DependsOn(nodes, y, e))
    ensures Touches(at, v0, v1, c) <==> CachesDependent(nodes, at, c, e)
  {
    if Touches(at, v0, v1, c) {
      var y: nat :| New(v0, v1, y) && y < |at.cacheOf| && at.cacheOf[y] == Some(c);
      assert DependentIn(nodes, at, y, c, e);
    }
    if CachesDependent(nodes, at, c, e) {
      var y: nat :| y < |nodes| && DependentIn(nodes, at, y, c, e);
      assert New(v0, v1, y);
    }
  }

  /** Marks exactly the caches that hold something depending on e, and leaves no visited flag set. */
  method Inform(g: ExprGraph, e: nat)
    requires g.Shaped() && Linked(g.nodes, g.to) && CachesOk(g.nodes, g.at, g.sessions) && Unvisited(g.visited)
    requires e < |g.nodes|
    modifies g`visited, g`contentDirty
    ensures g.Shaped() && Unvisited(g.visited)
    ensures forall c: nat :: c < |g.contentDirty| ==>
      (g.contentDirty[c] <==> old(g.contentDirty)[c] || CachesDependent(g.nodes, g.at, c, e))
  {
    ghost var v0 := g.visited;
    var touched := VisitOutputs(g, e);
    ghost var v1, d1 := g.visited, g.contentDirty;
    VisitedIffDepends(g.nodes, e, v0, v1);
    forall c: nat ensures Touches(g.at, v0, v1, c) <==> CachesDependent(g.nodes, g.at, c, e) {
      TouchedIffDependent(g.nodes, g.at, v0, v1, c, e);
    }
    for i := 0 to |touched|
      invariant |g.visited| == |v1| && g.contentDirty == d1
      invariant forall y: nat :: y < |v1| ==> (g.visited[y] <==> v1[y] && y !in touched[..i])
    {
      assert touched[i] in touched && New(v0, v1, touched[i]);
      assert touched[..i + 1] == touched[..i] + [touched[i]];
      g.visited := g.visited[touched[i] := false];
    }
    assert touched[..|touched|] == touched;
    forall y: nat | y < |v1| ensures !g.visited[y] {
      assert v1[y] ==> New(v0, v1, y);
    }
  }

  /** Overwrites the contents of a leaf: what was cached from the old contents is dirty now. */
  method Write(g: ExprGraph, e: nat, data: seq<real>) returns (ok: bool)
    requires g.Valid() && e < |g.nodes|
    modifies g`visited, g`contentDirty, g`values, g`unwritten
    ensures g.Valid() && (old(g.Sound()) ==> g.Sound()) && ok == IsLeaf(g.nodes, e)
    ensures !ok ==> g.values == old(g.values) && g.unwritten == old(g.unwritten)
    ensures !ok ==> g.contentDirty == old(g.contentDirty)
    ensures ok ==> g.values == old(g.values)[e := Value(g.shapes.leaves[e], data)]
    ensures ok ==> g.unwritten == old(g.unwritten)[e := false]
    ensures ok ==> forall c: nat :: c < |g.contentDirty| ==>
      (g.contentDirty[c] <==> old(g.contentDirty)[c] || CachesDependent(g.nodes, g.at, c, e))
  {
    ok := IsLeaf(g.nodes, e);
    if ok {
      Inform(g, e);
      WriteKeepsFresh(g.sem, g.nodes, g.values, g.at, g.sessions, g.tensors, old(g.contentDirty), g.contentDirty,
        g.shapeDirty, e, Value(g.shapes.leaves[e], data));
      g.unwritten := g.unwritten[e := false];
      g.values := g.values[e := Value(g.shapes.leaves[e], data)];
    }
  }

  lemma WriteKeepsFresh(sem: Semantics, nodes: Nodes, values: seq<Value>, at: Placement, sessions: seq<Session>,
      tensors: seq<seq<Value>>, dirty0: seq<bool>, dirty: seq<bool>, shapeDirty: seq<bool>, e: nat, v: Value)
    requires Acyclic(nodes) && |values| == |nodes| && Placed(nodes, at) && CachesOk(nodes, at, sessions)
    requires e < |nodes| && IsLeaf(nodes, e)
    requires |dirty0| == |tensors| && |dirty| == |tensors| && |shapeDirty| == |tensors|
    requires forall c: nat :: c < |dirty| ==> (dirty[c] <==> dirty0[c] || CachesDependent(nodes, at, c, e))
    ensures Fresh(sem, nodes, values, at, tensors, dirty0, shapeDirty) ==>
      Fresh(sem, nodes, values[e := v], at, tensors, dirty, shapeDirty)
  {
    if Fresh(sem, nodes, values, at, tensors, dirty0, shapeDirty) {
      forall c: nat | c < |tensors| && !dirty[c] && !shapeDirty[c]
        ensures HoldsAll(sem.Whole(), nodes, values[e := v], at, tensors[c], c)
      {
        forall y: nat | y < |nodes| && at.cacheOf[y] == Some(c) ensures y != e && !DependsOn(nodes, y, e) {
          assert PlaceOk(nodes, at, sessions, y);
          assert !DependentIn(nodes, at, y, c, e);
        }
        HoldsAllUnaffected(sem.Whole(), nodes, values, at, tensors[c], c, e, v);
      }
    }
  }
}
