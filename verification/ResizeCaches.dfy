/**
 Resizing compute caches (express/Utils.cpp:283-328, source/core/Session.cpp:258-327): a session infers its shapes
 and prepares its operators for them, after everything below it that is marked.
 */
module ResizeCaches {
  import opened Wrappers
  import opened ExprModel
  import opened Sessions
  import opened ExprGraphs
  import opened CacheWalks

  datatype ErrorCode = NoError | CallBackStop | RunFailed | ComputeSizeError

  // ---------------------------------------------------------------- what can be resized

  /** Everything placed in c has a shape. */
  ghost predicate GroupShaped(sem: Semantics, nodes: Nodes, shapes: seq<Shape>, at: Placement, c: nat)
    requires Acyclic(nodes) && |shapes| == |nodes| && Placed(nodes, at)
  {
    forall x: nat :: x < |nodes| && at.cacheOf[x] == Some(c) ==> HasShape(sem, nodes, shapes, x)
  }

  /** Everything placed in c or below it has one, so that resizing c cannot fail. */
  ghost predicate Sizable(sem: Semantics, nodes: Nodes, shapes: seq<Shape>, at: Placement, sessions: seq<Session>,
      c: nat)
    requires Acyclic(nodes) && |shapes| == |nodes| && Placed(nodes, at) && Ordered(sessions) && c < |sessions|
  {
    forall d: nat :: Under(sessions, c, d) ==> GroupShaped(sem, nodes, shapes, at, d)
  }

  // ---------------------------------------------------------------- resizing one session

  /** Session s has been resized from what it reads: all shapes are inferred, and every operator prepared for them. */
  ghost predicate Prepared(sem: Semantics, nodes: Nodes, shapes: seq<Shape>, held: seq<seq<Shape>>, s: Session,
      dims: seq<Shape>, sizes: seq<seq<Shape>>)
  {
    && Done(SizeStep(sem, nodes, s), nodes, shapes, held, s, dims, [], |s.pipeline|)
    && |sizes| == |s.pipeline|
    && forall j: nat :: j < |s.pipeline| ==> PreparedAt(sem, nodes, shapes, held, s, dims, sizes[j], j)
  }

  ghost predicate PreparedAt(sem: Semantics, nodes: Nodes, shapes: seq<Shape>, held: seq<seq<Shape>>, s: Session,
      dims: seq<Shape>, sizes: seq<Shape>, j: nat)
    requires j < |s.pipeline|
  {
    var e := s.pipeline[j].expr;
    && sizes == Inputs(shapes, held, s, dims, [], j)
    && e < |nodes| && nodes[e].op.Some? && sem.inferable(nodes[e].op.value, sizes)
  }

  /** Inference has come to entry n and fails there. */
  ghost predicate StopsAt(sem: Semantics, nodes: Nodes, shapes: seq<Shape>, held: seq<seq<Shape>>, s: Session,
      dims: seq<Shape>, n: nat)
    requires n < |s.pipeline|
  {
    var e := s.pipeline[n].expr;
    && Done(SizeStep(sem, nodes, s), nodes, shapes, held, s, dims, [], n)
    && e < |nodes| && nodes[e].op.Some? && !sem.inferable(nodes[e].op.value, Inputs(shapes, held, s, dims, [], n))
  }

  ghost predicate Stops(sem: Semantics, nodes: Nodes, shapes: seq<Shape>, held: seq<seq<Shape>>, s: Session,
      dims: seq<Shape>)
  {
    exists n: nat :: n < |s.pipeline| && StopsAt(sem, nodes, shapes, held, s, dims, n)
  }

  /** What `Session::resize` does to what the session was resized for; a failure keeps the sizes prepared for. */
  ghost predicate SizedOnce(sem: Semantics, nodes: Nodes, shapes: seq<Shape>, s: Session, c: nat, z0: Sizing, z: Sizing)
    requires c < |z0.dims| && c < |z0.sizes| && c < |z0.needResize|
  {
    && |z.dims| == |z0.dims| && |z.sizes| == |z0.sizes| && |z.needResize| == |z0.needResize|
    && |z.dims[c]| == |z0.dims[c]|
    && SizesKept(z0, z, c)
    && (!z.needResize[c] ==> Prepared(sem, nodes, shapes, z0.dims, s, z.dims[c], z.sizes[c]))
    && (z.needResize[c] ==> z.sizes[c] == z0.sizes[c] && Stops(sem, nodes, shapes, z0.dims, s, z.dims[c]))
  }

  /** Only c changed. */
  ghost predicate SizesKept(z0: Sizing, z: Sizing, c: nat) {
    forall d: nat :: d != c ==> SameSizes(z0, z, d)
  }

  ghost predicate SameSizes(z0: Sizing, z: Sizing, d: nat) {
    && (d < |z0.dims| && d < |z.dims| ==> z.dims[d] == z0.dims[d])
    && (d < |z0.sizes| && d < |z.sizes| ==> z.sizes[d] == z0.sizes[d])
    && (d < |z0.needResize| && d < |z.needResize| ==> z.needResize[d] == z0.needResize[d])
  }

  lemma PreparedPrefix(sem: Semantics, nodes: Nodes, at: Placement, shapes: seq<Shape>, held: seq<seq<Shape>>,
      s: Session,
      own: seq<Shape>, own': seq<Shape>, sizes: seq<seq<Shape>>, j: nat)
    requires Placed(nodes, at) && SessionOk(nodes, at, s) && j < |s.pipeline| && |own'| == |own| && |sizes| == j + 1
    requires forall t: nat :: t < |own| && t < s.pipeline[j].first ==> own'[t] == own[t]
    requires forall i: nat :: i <= j ==> PreparedAt(sem, nodes, shapes, held, s, own, sizes[i], i)
    ensures forall i: nat :: i <= j ==> PreparedAt(sem, nodes, shapes, held, s, own', sizes[i], i)
  {
    forall i: nat | i <= j ensures PreparedAt(sem, nodes, shapes, held, s, own', sizes[i], i) {
      InputsKept(nodes, at, shapes, held, s, own, own', [], i, j);
    }
  }

  /** `Session::resize` after `setNeedResize`. */
  method SizeSession(g: ExprGraph, c: nat)
    requires g.Runnable() && c < |g.sessions|
    modifies g`sizing
    ensures SizingFor(g.sessions, g.sizing)
    ensures SizedOnce(g.sem, g.nodes, g.shapes.leaves, g.sessions[c], c, old(g.sizing), g.sizing)
  {
    var s, z := g.sessions[c], g.sizing;
    g.sizing := z.(needResize := z.needResize[c := true]);
    assert CacheOk(g.nodes, g.at, g.sessions, c);
    var dims, sizes := z.dims[c], [];
    for j := 0 to |s.pipeline|
      invariant |dims| == s.tensors && |sizes| == j && g.sizing == z.(needResize := z.needResize[c := true])
      invariant Done(SizeStep(g.sem, g.nodes, s), g.nodes, g.shapes.leaves, z.dims, s, dims, [], j)
      invariant forall i: nat :: i < j ==> PreparedAt(g.sem, g.nodes, g.shapes.leaves, z.dims, s, dims, sizes[i], i)
    {
      assert EntryOk(g.nodes, g.at, s, j);
      var vs := FetchInputs(g.shapes.leaves, z.dims, s, dims, [], j);
      if !g.sem.inferable(g.nodes[s.pipeline[j].expr].op.value, vs) {
        assert StopsAt(g.sem, g.nodes, g.shapes.leaves, z.dims, s, dims, j);
        g.sizing := g.sizing.(dims := z.dims[c := dims]);
        return;
      }
      var step := SizeStep(g.sem, g.nodes, s);
      var dims' := RunEntry(step, g.nodes, g.at, g.shapes.leaves, z.dims, s, dims, [], j, vs);
      sizes := sizes + [vs];
      PreparedPrefix(g.sem, g.nodes, g.at, g.shapes.leaves, z.dims, s, dims, dims', sizes, j);
      dims := dims';
    }
    g.sizing := Sizing(z.dims[c := dims], z.sizes[c := sizes], z.needResize[c := false]);
  }

  /** What is placed in c has a shape, so what the pipeline computes has. */
  lemma EntryShaped(sem: Semantics, nodes: Nodes, shapes: seq<Shape>, at: Placement, sessions: seq<Session>, c: nat,
      j: nat)
    requires Acyclic(nodes) && |shapes| == |nodes| && Placed(nodes, at) && c < |sessions|
    requires CacheOk(nodes, at, sessions, c)
    requires GroupShaped(sem, nodes, shapes, at, c) && j < |sessions[c].pipeline|
    ensures sessions[c].pipeline[j].expr < |nodes| && HasShape(sem, nodes, shapes, sessions[c].pipeline[j].expr)
  {
    var e := sessions[c].pipeline[j].expr;
    assert EntryOk(nodes, at, sessions[c], j) && Serves(nodes, at, c, e);
    var y: nat :| y < |nodes| && at.cacheOf[y] == Some(c) && (y == e || (Acyclic(nodes) && DependsOn(nodes, y, e)));
    if y != e {
      HasShapeBelow(sem, nodes, shapes, y, e);
    }
  }

  /** What is computed in a sized cache has a shape, so what is placed there has. */
  lemma SizedIsShaped(sem: Semantics, nodes: Nodes, shapes: seq<Shape>, at: Placement, sessions: seq<Session>,
      z: Sizing,
      c: nat)
    requires Acyclic(nodes) && |shapes| == |nodes| && Placed(nodes, at) && CachesOk(nodes, at, sessions)
    requires SizingFor(sessions, z) && c < |sessions| && CacheSized(sem, nodes, shapes, sessions, z, c)
    ensures GroupShaped(sem, nodes, shapes, at, c)
  {
    forall x: nat | x < |nodes| && at.cacheOf[x] == Some(c) ensures HasShape(sem, nodes, shapes, x) {
      assert PlaceOk(nodes, at, sessions, x);
      var j: nat :| j < |sessions[c].pipeline| && IsEntry(sessions[c], j, x, at.offsetOf[x]);
      assert SizedAt(sem, nodes, shapes, sessions[c], z.sizes[c], j);
    }
  }

  /** The caches that a session reads are resized for the shapes they should have. */
  ghost predicate InputsSized(sem: Semantics, nodes: Nodes, shapes: seq<Shape>, sessions: seq<Session>, z: Sizing,
      s: Session)
    requires Acyclic(nodes) && |shapes| == |nodes| && SizingFor(sessions, z)
  {
    forall d :: d in s.inputs ==> d < |sessions| && CacheSized(sem, nodes, shapes, sessions, z, d)
  }

  lemma InputsSizedHold(sem: Semantics, nodes: Nodes, shapes: seq<Shape>, at: Placement, sessions: seq<Session>,
      z: Sizing, s: Session)
    requires Acyclic(nodes) && |shapes| == |nodes| && Placed(nodes, at) && CachesOk(nodes, at, sessions)
    requires SizingFor(sessions, z) && InputsSized(sem, nodes, shapes, sessions, z, s)
    ensures InputsHold(sem.infer, nodes, shapes, at, z.dims, s)
  {
    forall d | d in s.inputs ensures d < |z.dims| && HoldsAll(sem.infer, nodes, shapes, at, z.dims[d], d) {
      SizedHoldsAll(sem, nodes, shapes, at, sessions, z, d);
    }
  }

  /** A session that was resized from such inputs is resized for the right sizes, and all it computes has a shape. */
  lemma PreparedIsSized(sem: Semantics, nodes: Nodes, shapes: seq<Shape>, at: Placement, sessions: seq<Session>,
      z: Sizing, s: Session, dims: seq<Shape>, sizes: seq<seq<Shape>>)
    requires Acyclic(nodes) && |shapes| == |nodes| && Placed(nodes, at) && CachesOk(nodes, at, sessions)
    requires SessionOk(nodes, at, s) && SizingFor(sessions, z) && InputsSized(sem, nodes, shapes, sessions, z, s)
    requires Prepared(sem, nodes, shapes, z.dims, s, dims, sizes)
    ensures Sized(sem, nodes, shapes, s, dims, sizes)
  {
    InputsSizedHold(sem, nodes, shapes, at, sessions, z, s);
    SizeStepAgrees(sem, nodes, shapes, at, s);
    DoneIsDen(SizeStep(sem, nodes, s), sem.infer, nodes, shapes, at, z.dims, s, dims, [], |s.pipeline|);
    forall j: nat | j < |s.pipeline| ensures SizedAt(sem, nodes, shapes, s, sizes, j) {
      InputsAreDen(sem.infer, nodes, shapes, at, z.dims, s, dims, [], j);
      PreparedHasShape(sem, nodes, shapes, at, sessions, z, s, dims, sizes, j);
    }
  }

  lemma {:induction false} PreparedHasShape(sem: Semantics, nodes: Nodes, shapes: seq<Shape>, at: Placement,
      sessions: seq<Session>, z: Sizing, s: Session, dims: seq<Shape>, sizes: seq<seq<Shape>>, j: nat)
    requires Acyclic(nodes) && |shapes| == |nodes| && Placed(nodes, at) && CachesOk(nodes, at, sessions)
    requires SessionOk(nodes, at, s) && SizingFor(sessions, z) && InputsSized(sem, nodes, shapes, sessions, z, s)
    requires InputsHold(sem.infer, nodes, shapes, at, z.dims, s)
    requires Prepared(sem, nodes, shapes, z.dims, s, dims, sizes)
    requires HasRun(sem.infer, nodes, shapes, s, dims, |s.pipeline|) && j < |s.pipeline|
    ensures s.pipeline[j].expr < |nodes| && HasShape(sem, nodes, shapes, s.pipeline[j].expr)
    decreases j
  {
    assert EntryOk(nodes, at, s, j) && PreparedAt(sem, nodes, shapes, z.dims, s, dims, sizes[j], j);
    var e := s.pipeline[j].expr;
    assert NodeOk(nodes, e);
    InputsAreDen(sem.infer, nodes, shapes, at, z.dims, s, dims, [], j);
    forall i: nat | i < |nodes[e].inputs| ensures HasShape(sem, nodes, shapes, nodes[e].inputs[i].expr) {
      var p := nodes[e].inputs[i];
      assert Resolves(nodes, at, s, j, p, s.pipeline[j].inputs[i]);
      if !IsLeaf(nodes, p.expr) {
        match s.pipeline[j].inputs[i]
        case CacheTensor(d, _) => SizedIsShaped(sem, nodes, shapes, at, sessions, z, d);
        case OwnTensor(k, _) => PreparedHasShape(sem, nodes, shapes, at, sessions, z, s, dims, sizes, k);
      }
    }
  }

  lemma SizeStepAgrees(sem: Semantics, nodes: Nodes, shapes: seq<Shape>, at: Placement, s: Session)
    requires Acyclic(nodes) && |shapes| == |nodes| && Placed(nodes, at) && SessionOk(nodes, at, s)
    ensures forall j: nat :: j < |s.pipeline| ==> Agrees(SizeStep(sem, nodes, s), sem.infer, nodes, shapes, s, j)
  {
    forall j: nat | j < |s.pipeline| ensures Agrees(SizeStep(sem, nodes, s), sem.infer, nodes, shapes, s, j) {
      assert EntryOk(nodes, at, s, j);
    }
  }

  /** And cannot fail if everything in it has a shape. */
  lemma NeverStops(sem: Semantics, nodes: Nodes, shapes: seq<Shape>, at: Placement, held: seq<seq<Shape>>,
      sessions: seq<Session>, c: nat, dims: seq<Shape>)
    requires Acyclic(nodes) && |shapes| == |nodes| && Placed(nodes, at) && c < |sessions|
    requires CacheOk(nodes, at, sessions, c)
    requires InputsHold(sem.infer, nodes, shapes, at, held, sessions[c]) && GroupShaped(sem, nodes, shapes, at, c)
    ensures !Stops(sem, nodes, shapes, held, sessions[c], dims)
  {
    var s := sessions[c];
    forall n: nat | n < |s.pipeline| ensures !StopsAt(sem, nodes, shapes, held, s, dims, n) {
      assert EntryOk(nodes, at, s, n);
      if StopsAt(sem, nodes, shapes, held, s, dims, n) {
        SizeStepAgrees(sem, nodes, shapes, at, s);
        DoneIsDen(SizeStep(sem, nodes, s), sem.infer, nodes, shapes, at, held, s, dims, [], n);
        InputsAreDen(sem.infer, nodes, shapes, at, held, s, dims, [], n);
        EntryShaped(sem, nodes, shapes, at, sessions, c, n);
      }
    }
  }

  /** A sized cache's tensors have the dimensions of what is placed there. */
  lemma SizedHoldsAll(sem: Semantics, nodes: Nodes, shapes: seq<Shape>, at: Placement, sessions: seq<Session>,
      z: Sizing,
      c: nat)
    requires Acyclic(nodes) && |shapes| == |nodes| && Placed(nodes, at) && CachesOk(nodes, at, sessions)
    requires SizingFor(sessions, z) && c < |sessions| && CacheSized(sem, nodes, shapes, sessions, z, c)
    ensures HoldsAll(sem.infer, nodes, shapes, at, z.dims[c], c)
  {
    forall e: nat | e < |nodes| && at.cacheOf[e] == Some(c) ensures HasEntry(sessions[c], e, at.offsetOf[e]) {
      assert PlaceOk(nodes, at, sessions, e);
    }
    RunHoldsAll(sem.infer, nodes, shapes, at, sessions[c], z.dims[c], c);
  }

  /**
   Resizing a marked cache below which nothing is marked leaves all caches sized or marked exactly if they were and
   everything placed in it has a shape: the resize fails otherwise, and the mark is gone.
   */
  lemma ResizeKeepsSizedIff(sem: Semantics, nodes: Nodes, shapes: seq<Shape>, at: Placement, sessions: seq<Session>,
      c: nat, z0: Sizing, z: Sizing, dirty: seq<bool>)
    requires Acyclic(nodes) && |shapes| == |nodes| && Placed(nodes, at) && CachesOk(nodes, at, sessions)
    requires SizingFor(sessions, z0) && SizingFor(sessions, z) && c < |sessions| && |dirty| == |sessions| && dirty[c]
    requires forall d :: d in sessions[c].inputs ==> d < |sessions| && !dirty[d]
    requires SizedOnce(sem, nodes, shapes, sessions[c], c, z0, z)
    ensures AllSized(sem, nodes, shapes, sessions, z, dirty[c := false]) <==>
      AllSized(sem, nodes, shapes, sessions, z0, dirty) && GroupShaped(sem, nodes, shapes, at, c)
  {
    assert CacheOk(nodes, at, sessions, c);
    var dirty' := dirty[c := false];
    if AllSized(sem, nodes, shapes, sessions, z, dirty') {
      SizedIsShaped(sem, nodes, shapes, at, sessions, z, c);
      forall d: nat | d < |sessions| && !dirty[d] ensures CacheSized(sem, nodes, shapes, sessions, z0, d) {
        assert CacheSized(sem, nodes, shapes, sessions, z, d) && SameSizes(z0, z, d);
      }
    }
    if AllSized(sem, nodes, shapes, sessions, z0, dirty) && GroupShaped(sem, nodes, shapes, at, c) {
      InputsSizedHold(sem, nodes, shapes, at, sessions, z0, sessions[c]);
      NeverStops(sem, nodes, shapes, at, z0.dims, sessions, c, z.dims[c]);
      PreparedIsSized(sem, nodes, shapes, at, sessions, z0, sessions[c], z.dims[c], z.sizes[c]);
      forall d: nat | d < |sessions| && !dirty'[d] ensures CacheSized(sem, nodes, shapes, sessions, z, d) {
        if d != c {
          assert CacheSized(sem, nodes, shapes, sessions, z0, d) && SameSizes(z0, z, d);
        }
      }
    }
  }

  method ResizeImpl(g: ExprGraph, c: nat)
    requires g.Runnable() && c < |g.sessions|
    modifies g`shapeDirty, g`contentDirty, g`sizing
    ensures g.Runnable()
    ensures g.shapeDirty == old(g.shapeDirty)[c := false] && g.contentDirty == old(g.contentDirty)[c := true]
    ensures SizedOnce(g.sem, g.nodes, g.shapes.leaves, g.sessions[c], c, old(g.sizing), g.sizing)
  {
    g.shapeDirty := g.shapeDirty[c := false];
    SizeSession(g, c);
    g.contentDirty := g.contentDirty[c := true];
  }

  // ---------------------------------------------------------------- resizing

  predicate AnyInfoDirty(s: Session, infoDirty: seq<bool>) {
    exists l :: l in s.inputInside && (l >= |infoDirty| || infoDirty[l])
  }

  /** Leaves always have a known shape, so no resize is stopped. */
  lemma NoInfoDirty(g: ExprGraph, c: nat)
    requires g.Runnable() && c < |g.sessions|
    ensures !AnyInfoDirty(g.sessions[c], g.shapes.dirty)
  {
    assert CacheOk(g.nodes, g.at, g.sessions, c);
    forall l | l in g.sessions[c].inputInside ensures l < |g.nodes| && !g.shapes.dirty[l] {
      assert InfoOk(g.sem, g.nodes, g.shapes, l);
    }
  }

  /** The flags, contents and sizes of all caches. */
  datatype Snapshot = Snapshot(shapeDirty: seq<bool>, contentDirty: seq<bool>, tensors: seq<seq<Value>>, sizing: Sizing)

  ghost function Now(g: ExprGraph): (t: Snapshot)
    ensures t == Snapshot(g.shapeDirty, g.contentDirty, g.tensors, g.sizing)
    reads g
  {
    Snapshot(g.shapeDirty, g.contentDirty, g.tensors, g.sizing)
  }

  ghost predicate SnapshotFor(sessions: seq<Session>, t: Snapshot) {
    |t.shapeDirty| == |sessions| && |t.contentDirty| == |sessions| && |t.tensors| == |sessions|
  }

  /** Resizing turns shape dirt into content dirt, at the target and below, and touches no other cache. */
  ghost predicate Resized(sessions: seq<Session>, target: nat, t0: Snapshot, t: Snapshot)
    requires Ordered(sessions) && target < |sessions|
  {
    && SnapshotFor(sessions, t0) && SnapshotFor(sessions, t) && t.tensors == t0.tensors
    && forall d: nat :: d < |sessions| ==> ResizedAt(sessions, target, t0, t, d)
  }

  ghost predicate ResizedAt(sessions: seq<Session>, target: nat, t0: Snapshot, t: Snapshot, d: nat)
    requires Ordered(sessions) && target < |sessions| && SnapshotFor(sessions, t0) && SnapshotFor(sessions, t)
    requires d < |sessions|
  {
    if t.shapeDirty[d] == t0.shapeDirty[d] then
      t.contentDirty[d] == t0.contentDirty[d] && SameSizes(t0.sizing, t.sizing, d)
    else t0.shapeDirty[d] && t.contentDirty[d] && Under(sessions, target, d)
  }

  lemma ResizedStep(sessions: seq<Session>, target: nat, t0: Snapshot, t: Snapshot, c: nat, t': Snapshot)
    requires Ordered(sessions) && target < |sessions| && c < |sessions| && Under(sessions, target, c)
    requires SizingFor(sessions, t.sizing) && SizingFor(sessions, t'.sizing)
    requires Resized(sessions, target, t0, t) && t.shapeDirty[c] && SizesKept(t.sizing, t'.sizing, c)
    requires t'.shapeDirty == t.shapeDirty[c := false] && t'.contentDirty == t.contentDirty[c := true]
    requires t'.tensors == t.tensors
    ensures Resized(sessions, target, t0, t')
  {
    forall d: nat | d < |sessions| ensures ResizedAt(sessions, target, t0, t', d) {
      assert ResizedAt(sessions, target, t0, t, d);
      if d != c {
        assert SameSizes(t.sizing, t'.sizing, d);
      }
    }
  }

  /** Every cache is sized or marked. */
  ghost predicate SizedNow(g: ExprGraph)
    requires g.Runnable()
    reads g
  {
    AllSized(g.sem, g.nodes, g.shapes.leaves, g.sessions, g.sizing, g.shapeDirty)
  }

  /** Everything placed in the caches resized since has a shape. */
  ghost predicate ResizedShaped(g: ExprGraph, shape0: seq<bool>)
    requires g.Runnable()
    reads g
  {
    forall d: nat :: d < |shape0| && d < |g.sessions| && shape0[d] && !g.shapeDirty[d] ==>
      GroupShaped(g.sem, g.nodes, g.shapes.leaves, g.at, d)
  }

  /** The walk of `resize` between two steps. */
  ghost predicate Resizing(g: ExprGraph, target: nat, t0: Snapshot, sized: bool, stack: seq<nat>, expanded: seq<bool>,
      visited: set<nat>)
    reads g
  {
    && ResizedSince(g, target, t0, sized) && WalkFrom(g.sessions, target, stack, expanded, visited)
    && (forall d :: d in visited ==> d < |g.sessions| && !g.shapeDirty[d])
  }

  /**
   Resizes target after everything below it that is marked. Afterwards every cache is sized or marked exactly if
   it was before and everything placed in the caches resized has a shape.
   */
  method Resize(g: ExprGraph, target: nat) returns (code: ErrorCode)
    requires g.Runnable() && Ordered(g.sessions) && target < |g.sessions|
    modifies g`shapeDirty, g`contentDirty, g`sizing
    ensures g.Runnable() && Resized(g.sessions, target, old(Now(g)), Now(g))
    ensures SizedNow(g) <==> old(SizedNow(g)) && ResizedShaped(g, old(g.shapeDirty))
    ensures code.NoError? && !g.shapeDirty[target]
  {
    ghost var t0, sized := Now(g), SizedNow(g);
    var dfsStack: seq<nat> := [target];
    var visited: set<nat> := {};
    ghost var expanded := [false];
    while dfsStack != []
      invariant Resizing(g, target, t0, sized, dfsStack, expanded, visited)
      decreases StackWeight(g.sessions, dfsStack, expanded)
    {
      var last := |dfsStack| - 1;
      var cache := dfsStack[last];
      NoInfoDirty(g, cache);
      if g.shapeDirty[cache] && AnyInfoDirty(g.sessions[cache], g.shapes.dirty) {
        return CallBackStop;
      }
      if g.shapeDirty[cache] && HasUnvisitInput(g.sessions[cache], visited) {
        PushFrom(g.sessions, target, dfsStack, expanded, visited, cache);
        expanded := expanded[last := true] + Unexpanded(|g.sessions[cache].inputs|);
        dfsStack := dfsStack + g.sessions[cache].inputs;
      } else {
        PopResized(g, target, t0, sized, dfsStack, expanded, visited);
        visited := visited + {cache};
        dfsStack, expanded := dfsStack[..last], expanded[..last];
      }
    }
    return NoError;
  }

  /** The top of the stack has nothing left to wait for: it is popped, and resized if it is marked. */
  method PopResized(g: ExprGraph, ghost target: nat, ghost t0: Snapshot, ghost sized: bool, stack: seq<nat>,
      ghost expanded: seq<bool>, ghost visited: set<nat>)
    requires stack != [] && Resizing(g, target, t0, sized, stack, expanded, visited)
    requires var c := stack[|stack| - 1]; g.shapeDirty[c] ==> !HasUnvisitInput(g.sessions[c], visited)
    modifies g`shapeDirty, g`contentDirty, g`sizing
    ensures Resizing(g, target, t0, sized, stack[..|stack| - 1], expanded[..|stack| - 1],
      visited + {stack[|stack| - 1]})
    ensures StackWeight(g.sessions, stack[..|stack| - 1], expanded[..|stack| - 1]) <
      StackWeight(g.sessions, stack, expanded)
  {
    var c := stack[|stack| - 1];
    PopFrom(g.sessions, target, stack, expanded, visited);
    if g.shapeDirty[c] {
      ResizeMarked(g, target, t0, sized, c);
    }
  }

  /** Resizes c, which is marked while nothing below it is. */
  method ResizeMarked(g: ExprGraph, ghost target: nat, ghost t0: Snapshot, ghost sized: bool, c: nat)
    requires ResizedSince(g, target, t0, sized) && c < |g.sessions| && g.shapeDirty[c] && Under(g.sessions, target, c)
    requires forall d :: d in g.sessions[c].inputs ==> d < |g.sessions| && !g.shapeDirty[d]
    modifies g`shapeDirty, g`contentDirty, g`sizing
    ensures ResizedSince(g, target, t0, sized) && g.shapeDirty == old(g.shapeDirty)[c := false]
  {
    ghost var t1 := Now(g);
    ResizeImpl(g, c);
    ResizedStep(g.sessions, target, t0, t1, c, Now(g));
    ResizeKeepsSizedIff(g.sem, g.nodes, g.shapes.leaves, g.at, g.sessions, c, t1.sizing, g.sizing, t1.shapeDirty);
    assert ResizedAt(g.sessions, target, t0, t1, c);
  }

  /** What resizing below target has done so far. */
  ghost predicate ResizedSince(g: ExprGraph, target: nat, t0: Snapshot, sized: bool)
    reads g
  {
    && g.Runnable() && Ordered(g.sessions) && target < |g.sessions| && Resized(g.sessions, target, t0, Now(g))
    && (SizedNow(g) <==> sized && ResizedShaped(g, t0.shapeDirty))
  }
}
