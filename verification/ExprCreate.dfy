/**
 Creating leaves and operator expressions (express/Expr.cpp:126-227): nothing that was cached or
 inferred before is affected.
 */
module ExprCreate {
  import opened Wrappers
  import opened ExprModel
  import opened Sessions
  import opened ExprGraphs

  // ---------------------------------------------------------------- growing

  lemma AcyclicGrows(nodes: Nodes, node: Node)
    requires Acyclic(nodes)
    requires if node.op.None? then node.inputs == [] && node.outputs == 1 else node.kind.Input?
    requires forall i :: 0 <= i < |node.inputs| ==> IsPort(nodes, node.inputs[i])
    ensures Acyclic(nodes + [node])
  {
    forall e: nat | e < |nodes| + 1 ensures NodeOk(nodes + [node], e) {
      if e < |nodes| {
        assert NodeOk(nodes, e);
      }
    }
  }

  lemma {:induction false} DependsGrows(nodes: Nodes, node: Node, y: nat, e: nat)
    requires Acyclic(nodes) && Acyclic(nodes + [node]) && y < |nodes|
    ensures DependsOn(nodes + [node], y, e) <==> DependsOn(nodes, y, e)
    decreases y
  {
    assert NodeOk(nodes, y) && NodeOk(nodes + [node], y);
    forall i: nat | i < |nodes[y].inputs|
      ensures InputLeadsTo(nodes + [node], y, i, e) <==> InputLeadsTo(nodes, y, i, e)
    {
      DependsGrows(nodes, node, nodes[y].inputs[i].expr, e);
    }
  }

  lemma ServesGrows(nodes: Nodes, at: Placement, c: nat, e: nat, node: Node)
    requires Acyclic(nodes) && Acyclic(nodes + [node]) && Placed(nodes, at) && Serves(nodes, at, c, e)
    ensures Serves(nodes + [node], Grown(at), c, e)
  {
    var y: nat :| y < |nodes| && at.cacheOf[y] == Some(c) && (y == e || (Acyclic(nodes) && DependsOn(nodes, y, e)));
    DependsGrows(nodes, node, y, e);
    assert Grown(at).cacheOf[y] == Some(c);
  }

  lemma ReadsGrow(nodes: Nodes, at: Placement, c: nat, d: nat, node: Node)
    requires Acyclic(nodes) && Acyclic(nodes + [node]) && Placed(nodes, at) && GroupReads(nodes, at.cacheOf, c, d)
    ensures GroupReads(nodes + [node], Grown(at).cacheOf, c, d)
  {
    var y: nat, x: nat :| y < |at.cacheOf| && x < |at.cacheOf| && at.cacheOf[y] == Some(c) &&
      at.cacheOf[x] == Some(d) && DependsOn(nodes, y, x);
    DependsGrows(nodes, node, y, x);
    assert Grown(at).cacheOf[y] == Some(c) && Grown(at).cacheOf[x] == Some(d);
  }

  lemma CachesGrow(nodes: Nodes, at: Placement, sessions: seq<Session>, node: Node)
    requires Acyclic(nodes) && Acyclic(nodes + [node]) && Placed(nodes, at) && CachesOk(nodes, at, sessions)
    ensures CachesOk(nodes + [node], Grown(at), sessions)
  {
    forall c: nat | c < |sessions| ensures CacheOk(nodes + [node], Grown(at), sessions, c) {
      assert CacheOk(nodes, at, sessions, c);
      SessionOkGrows(nodes, at, sessions[c], node);
      forall j: nat | j < |sessions[c].pipeline|
        ensures Serves(nodes + [node], Grown(at), c, sessions[c].pipeline[j].expr)
      {
        ServesGrows(nodes, at, c, sessions[c].pipeline[j].expr, node);
      }
      forall d | d in sessions[c].inputs ensures GroupReads(nodes + [node], Grown(at).cacheOf, c, d) {
        ReadsGrow(nodes, at, c, d, node);
      }
    }
    forall e: nat | e < |nodes| + 1 ensures PlaceOk(nodes + [node], Grown(at), sessions, e) {
      if e < |nodes| {
        assert PlaceOk(nodes, at, sessions, e);
      }
    }
  }

  lemma SoundGrows(sem: Semantics, nodes: Nodes, values: seq<Value>, shapes: seq<Shape>, at: Placement,
      sessions: seq<Session>, tensors: seq<seq<Value>>, z: Sizing, contentDirty: seq<bool>, shapeDirty: seq<bool>,
      node: Node, v: Value)
    requires Acyclic(nodes) && Acyclic(nodes + [node]) && |values| == |nodes| && Placed(nodes, at)
    requires SizingFor(sessions, z) && |tensors| == |contentDirty| == |shapeDirty| == |sessions|
    requires |shapes| == |nodes|
    ensures Fresh(sem, nodes, values, at, tensors, contentDirty, shapeDirty) ==>
      Fresh(sem, nodes + [node], values + [v], Grown(at), tensors, contentDirty, shapeDirty)
    ensures AllSized(sem, nodes, shapes, sessions, z, shapeDirty) ==>
      AllSized(sem, nodes + [node], shapes + [v.dims], sessions, z, shapeDirty)
  {
    var nodes', values', shapes' := nodes + [node], values + [v], shapes + [v.dims];
    if Fresh(sem, nodes, values, at, tensors, contentDirty, shapeDirty) {
      forall c: nat | c < |tensors| && !contentDirty[c] && !shapeDirty[c]
        ensures HoldsAll(sem.Whole(), nodes', values', Grown(at), tensors[c], c)
      {
        HoldsAllGrows(sem.Whole(), nodes, values, at, tensors[c], c, node, v);
      }
    }
    if AllSized(sem, nodes, shapes, sessions, z, shapeDirty) {
      forall c: nat | c < |sessions| && !shapeDirty[c] ensures CacheSized(sem, nodes', shapes', sessions, z, c) {
        assert CacheSized(sem, nodes, shapes, sessions, z, c);
        SizedGrows(sem, nodes, shapes, sessions[c], z.dims[c], z.sizes[c], node, v.dims);
      }
    }
  }

  function WithShape(s: Shapes, dims: Shape, info: seq<Shape>, dirty: bool): Shapes {
    Shapes(s.leaves + [dims], s.infos + [info], s.dirty + [dirty], s.valid + [true])
  }

  lemma InfosGrow(sem: Semantics, nodes: Nodes, s: Shapes, node: Node, dims: Shape, info: seq<Shape>, dirty: bool)
    requires InfosOk(sem, nodes, s) && Acyclic(nodes + [node])
    requires node.op.None? ==> !dirty && info == [dims]
    requires node.op.Some? ==> dirty
    ensures InfosOk(sem, nodes + [node], WithShape(s, dims, info, dirty))
  {
    var nodes', s' := nodes + [node], WithShape(s, dims, info, dirty);
    assert NodeOk(nodes', |nodes|);
    forall x: nat | x < |nodes'| ensures InfoOk(sem, nodes', s', x) {
      if x < |nodes| {
        InfoGrows(sem, nodes, s, node, dims, info, dirty, x);
      }
    }
  }

  lemma InfoGrows(sem: Semantics, nodes: Nodes, s: Shapes, node: Node, dims: Shape, info: seq<Shape>, dirty: bool,
      x: nat)
    requires InfosOk(sem, nodes, s) && Acyclic(nodes + [node]) && x < |nodes|
    ensures InfoOk(sem, nodes + [node], WithShape(s, dims, info, dirty), x)
  {
    var nodes', s' := nodes + [node], WithShape(s, dims, info, dirty);
    assert InfoOk(sem, nodes, s, x) && NodeOk(nodes, x) && NodeOk(nodes', x);
    HasShapeGrows(sem, nodes, s.leaves, node, dims, x);
    DenPrefixGrows(sem.infer, nodes, s.leaves, node, dims, x, |nodes[x].inputs|);
    assert InputsInfoClean(nodes, s, x) ==> InputsInfoClean(nodes', s', x);
    if InfoIsInferred(sem, nodes, s, x) {
      forall k: nat | k < nodes[x].outputs ensures s'.infos[x][k] == Den(sem.infer, nodes', s'.leaves, Port(x, k)) {
        DenGrows(sem.infer, nodes, s.leaves, node, dims, Port(x, k));
      }
    }
    if !IsLeaf(nodes, x) && Refuted(sem, nodes, s, x) {
      if i: nat :| i < |nodes[x].inputs| && InputInvalid(nodes, s, x, i) {
        assert InputInvalid(nodes', s', x, i);
      }
    }
  }

  // ---------------------------------------------------------------- linking

  /** How many of the first n inputs are outputs of e. */
  ghost function Uses(inputs: seq<Port>, n: nat, e: nat): nat
    requires n <= |inputs|
  {
    if n == 0 then 0 else Uses(inputs, n - 1, e) + if inputs[n - 1].expr == e then 1 else 0
  }

  ghost function Repeated(x: nat, n: nat): (s: seq<nat>)
    ensures |s| == n && forall i :: 0 <= i < n ==> s[i] == x
  {
    seq(n, _ => x)
  }

  lemma {:induction false} UsesIffAmong(inputs: seq<Port>, n: nat, e: nat)
    requires n <= |inputs|
    ensures Uses(inputs, n, e) > 0 <==> Among(inputs, n, e)
  {
    if n > 0 {
      UsesIffAmong(inputs, n - 1, e);
      if Among(inputs, n - 1, e) {
        var k: nat :| k < n - 1 && inputs[k].expr == e;
        assert Among(inputs, n, e);
      }
      if inputs[n - 1].expr == e {
        assert Among(inputs, n, e);
      }
    }
  }

  /** `_addLinkForInputs`: x is appended to the consumer list of each input's expression, once per position. */
  method AddLinks(to: seq<seq<nat>>, inputs: seq<Port>, x: nat) returns (r: seq<seq<nat>>)
    requires forall i :: 0 <= i < |inputs| ==> inputs[i].expr < |to|
    ensures |r| == |to|
    ensures forall e: nat :: e < |to| ==> r[e] == to[e] + Repeated(x, Uses(inputs, |inputs|, e))
  {
    r := to;
    for i := 0 to |inputs|
      invariant |r| == |to|
      invariant forall e: nat :: e < |to| ==> r[e] == to[e] + Repeated(x, Uses(inputs, i, e))
    {
      var d := inputs[i].expr;
      assert Repeated(x, Uses(inputs, i + 1, d)) == Repeated(x, Uses(inputs, i, d)) + [x];
      r := r[d := r[d] + [x]];
    }
  }

  lemma LinksGrow(nodes: Nodes, to: seq<seq<nat>>, to': seq<seq<nat>>, node: Node)
    requires Acyclic(nodes) && Acyclic(nodes + [node]) && Linked(nodes, to) && |to'| == |to|
    requires forall e: nat :: e < |to| ==> to'[e] == to[e] + Repeated(|nodes|, Uses(node.inputs, |node.inputs|, e))
    ensures Linked(nodes + [node], to' + [[]])
  {
    var nodes', x, n := nodes + [node], |nodes|, |node.inputs|;
    forall e: nat, y: nat | e < |nodes'| ensures y in (to' + [[]])[e] <==> Consumes(nodes', y, e) {
      UsesIffAmong(node.inputs, n, e);
      if e < |nodes| {
        var more := Repeated(x, Uses(node.inputs, n, e));
        assert x in more <==> Among(node.inputs, n, e) by {
          assert |more| > 0 ==> more[0] == x;
        }
      }
      if y < x {
        assert NodeOk(nodes, y);
        assert Consumes(nodes', y, e) <==> Consumes(nodes, y, e);
      } else if y == x {
        assert NodeOk(nodes', x);
        assert Consumes(nodes', x, e) <==> Among(node.inputs, n, e) by {
          if Among(node.inputs, n, e) {
            var k: nat :| k < |node.inputs| && node.inputs[k].expr == e;
            assert nodes'[x].inputs[k].expr == e;
          }
        }
      }
    }
  }

  // ---------------------------------------------------------------- creating

  /** Adds a node whose consumer lists `to` have been extended. */
  method Append(g: ExprGraph, node: Node, to: seq<seq<nat>>, v: Value, given: bool, info: seq<Shape>)
    requires g.Valid() && Acyclic(g.nodes + [node]) && Linked(g.nodes + [node], to)
    requires node.op.None? ==> info == [v.dims]
    modifies g
    ensures g.Valid() && (old(g.Sound()) ==> g.Sound())
    ensures g.nodes == old(g.nodes) + [node] && g.values == old(g.values) + [v] && g.sessions == old(g.sessions)
    ensures g.unwritten == old(g.unwritten) + [!given] && g.shapes.leaves == old(g.shapes).leaves + [v.dims]
    ensures g.at == Grown(old(g.at)) && g.shapeDirty == old(g.shapeDirty) && g.to == to
    ensures g.shapes.dirty == old(g.shapes).dirty + [node.op.Some?]
  {
    CachesGrow(g.nodes, g.at, g.sessions, node);
    SoundGrows(g.sem, g.nodes, g.values, g.shapes.leaves, g.at, g.sessions, g.tensors, g.sizing, g.contentDirty,
      g.shapeDirty, node, v);
    InfosGrow(g.sem, g.nodes, g.shapes, node, v.dims, info, node.op.Some?);
    assert Dims(g.values + [v]) == g.shapes.leaves + [v.dims];
    Extend(g, node, to, v, given, info);
  }

  /** One more entry in every list. */
  method Extend(g: ExprGraph, node: Node, to: seq<seq<nat>>, v: Value, given: bool, info: seq<Shape>)
    modifies g`shapes, g`at, g`nodes, g`to, g`values, g`unwritten, g`visited
    ensures g.shapes == WithShape(old(g.shapes), v.dims, info, node.op.Some?) && g.at == Grown(old(g.at))
    ensures g.nodes == old(g.nodes) + [node] && g.to == to && g.values == old(g.values) + [v]
    ensures g.unwritten == old(g.unwritten) + [!given] && g.visited == old(g.visited) + [false]
  {
    g.shapes := WithShape(g.shapes, v.dims, info, node.op.Some?);
    g.at := Grown(g.at);
    g.nodes, g.to, g.values := g.nodes + [node], to, g.values + [v];
    g.unwritten, g.visited := g.unwritten + [!given], g.visited + [false];
  }

  /** A leaf, with contents or with whatever its memory holds. */
  method CreateLeaf(g: ExprGraph, kind: LeafType, dims: Shape, data: Option<seq<real>>, memory: seq<real>)
    requires g.Valid()
    modifies g
    ensures g.Valid() && (old(g.Sound()) ==> g.Sound()) && g.nodes == old(g.nodes) + [Node(None, [], 1, kind)]
    ensures g.values == old(g.values) + [Value(dims, if data.Some? then data.value else memory)]
    ensures g.unwritten == old(g.unwritten) + [data.None?] && g.shapes.leaves == old(g.shapes).leaves + [dims]
    ensures g.to == old(g.to) + [[]] && g.at == Grown(old(g.at)) && g.sessions == old(g.sessions)
    ensures g.shapeDirty == old(g.shapeDirty) && g.shapes.dirty == old(g.shapes).dirty + [false]
  {
    var node := Node(None, [], 1, kind);
    AcyclicGrows(g.nodes, node);
    forall e: nat | e < |g.to| ensures g.to[e] == g.to[e] + Repeated(|g.nodes|, Uses(node.inputs, 0, e)) {
    }
    LinksGrow(g.nodes, g.to, g.to, node);
    Append(g, node, g.to + [[]], Value(dims, if data.Some? then data.value else memory), data.Some?, [dims]);
  }

  /** An operator on existing variables; its shapes are not inferred yet. */
  method CreateExpr(g: ExprGraph, op: nat, inputs: seq<Port>, outputs: nat)
    requires g.Valid() && forall i :: 0 <= i < |inputs| ==> IsPort(g.nodes, inputs[i])
    modifies g
    ensures g.Valid() && (old(g.Sound()) ==> g.Sound())
    ensures g.nodes == old(g.nodes) + [Node(Some(op), inputs, outputs, Input)]
    ensures g.values == old(g.values) + [Value([], [])] && g.unwritten == old(g.unwritten) + [true]
    ensures g.shapes.leaves == old(g.shapes).leaves + [[]] && g.at == Grown(old(g.at)) && g.sessions == old(g.sessions)
    ensures g.shapeDirty == old(g.shapeDirty) && g.shapes.dirty == old(g.shapes).dirty + [true]
    ensures |g.to| == |old(g.to)| + 1 && forall e: nat :: e < |old(g.to)| ==>
      g.to[e] == old(g.to)[e] + Repeated(|old(g.nodes)|, Uses(inputs, |inputs|, e))
  {
    var node := Node(Some(op), inputs, outputs, Input);
    AcyclicGrows(g.nodes, node);
    forall i | 0 <= i < |inputs| ensures inputs[i].expr < |g.to| {
      assert IsPort(g.nodes, inputs[i]);
    }
    var to := AddLinks(g.to, inputs, |g.nodes|);
    LinksGrow(g.nodes, g.to, to, node);
    Append(g, node, to + [[]], Value([], []), false, []);
  }
}
