/**
 Running compute caches (express/Utils.cpp:215-282): a check that every INPUT leaf below is written, then a
 depth-first walk that resizes and runs only what is dirty.
 */
module ComputeCaches {
  import opened Wrappers
  import opened ExprModel
  import opened Sessions
  import opened ExprGraphs
  import opened CacheWalks
  import opened ResizeCaches

  // ---------------------------------------------------------------- checking

  ghost predicate LeavesWritten(s: Session, unwritten: seq<bool>) {
    forall l :: l in s.inputInside ==> l < |unwritten| && !unwritten[l]
  }

  /** Every INPUT leaf that c or a cache below it reads has been written. */
  ghost predicate Ready(sessions: seq<Session>, unwritten: seq<bool>, c: nat)
    requires Ordered(sessions)
    decreases c
  {
    c < |sessions| && LeavesWritten(sessions[c], unwritten) &&
    forall d :: d in sessions[c].inputs ==> Ready(sessions, unwritten, d)
  }

  predicate AnyUnwritten(s: Session, unwritten: seq<bool>) {
    exists l :: l in s.inputInside && (l >= |unwritten| || unwritten[l])
  }

  /** The check pass; its visited set stays empty, so shared inputs are looked at once per path. */
  method Check(g: ExprGraph, target: nat) returns (ok: bool)
    requires g.Shaped() && Ordered(g.sessions) && target < |g.sessions|
    ensures ok <==> Ready(g.sessions, g.unwritten, target)
  {
    var dfsStack: seq<nat> := [target];
    var visited: set<nat> := {};
    ghost var expanded := [false];
    while dfsStack != []
      invariant |expanded| == |dfsStack|
      invariant (forall k :: 0 <= k < |dfsStack| ==> dfsStack[k] < |g.sessions| && !expanded[k])
      invariant Ready(g.sessions, g.unwritten, target) <==>
        forall k :: 0 <= k < |dfsStack| ==> Ready(g.sessions, g.unwritten, dfsStack[k])
      decreases StackWeight(g.sessions, dfsStack, expanded)
    {
      var last := |dfsStack| - 1;
      var cache := dfsStack[last];
      ghost var before := dfsStack;
      dfsStack := dfsStack[..last];
      expanded := expanded[..last];
      if AnyUnwritten(g.sessions[cache], g.unwritten) {
        return false;
      }
      ghost var rest := dfsStack;
      if HasUnvisitInput(g.sessions[cache], visited) {
        dfsStack := dfsStack + g.sessions[cache].inputs;
        PushInputs(g.sessions, rest, expanded, cache);
        expanded := expanded + Unexpanded(|g.sessions[cache].inputs|);
      } else {
        NoInputs(g.sessions[cache]);
      }
      ReadyStep(g.sessions, g.unwritten, before, rest, dfsStack, cache);
    }
    return true;
  }

  /** Replacing a cache on the stack by its inputs does not change whether all are ready. */
  lemma ReadyStep(sessions: seq<Session>, unwritten: seq<bool>, before: seq<nat>, rest: seq<nat>, after: seq<nat>,
      c: nat)
    requires Ordered(sessions) && c < |sessions| && before == rest + [c] && LeavesWritten(sessions[c], unwritten)
    requires after == rest + sessions[c].inputs
    ensures (forall k :: 0 <= k < |before| ==> Ready(sessions, unwritten, before[k])) <==>
      (forall k :: 0 <= k < |after| ==> Ready(sessions, unwritten, after[k]))
  {
    var inputs := sessions[c].inputs;
    if forall k :: 0 <= k < |after| ==> Ready(sessions, unwritten, after[k]) {
      forall d | d in inputs ensures Ready(sessions, unwritten, d) {
        var i :| 0 <= i < |inputs| && inputs[i] == d;
        assert after[|rest| + i] == d;
      }
      forall k | 0 <= k < |before| ensures Ready(sessions, unwritten, before[k]) {
        assert k < |rest| ==> after[k] == before[k];
      }
    }
    if forall k :: 0 <= k < |before| ==> Ready(sessions, unwritten, before[k]) {
      assert Ready(sessions, unwritten, before[|rest|]);
      forall k | 0 <= k < |after| ensures Ready(sessions, unwritten, after[k]) {
        if k < |rest| {
          assert after[k] == before[k];
        } else {
          assert after[k] == inputs[k - |rest|];
        }
      }
    }
  }

  // ---------------------------------------------------------------- running

  /** The contents of cache c are those of a run for the sizes it was last resized for, on what its inputs hold now. */
  ghost predicate Executed(g: ExprGraph, c: nat)
    requires g.Runnable() && c < |g.sessions|
    reads g
  {
    var s := g.sessions[c];
    Done(RunStep(g.sem, g.nodes, s, g.sizing.sizes[c]), g.nodes, g.values, g.tensors, s, g.tensors[c], Value([], []),
      |s.pipeline|)
  }

  /** A session does not read its own cache's tensors from outside. */
  lemma DoneElsewhere(step: (nat, seq<Value>, nat) -> Value, nodes: Nodes, at: Placement, values: seq<Value>,
      held: seq<seq<Value>>, s: Session, own: seq<Value>, c: nat)
    requires Placed(nodes, at) && SessionOk(nodes, at, s) && c < |held| && c !in s.inputs
    requires Done(step, nodes, values, held, s, own, Value([], []), |s.pipeline|)
    ensures Done(step, nodes, values, held[c := own], s, own, Value([], []), |s.pipeline|)
  {
    var held' := held[c := own];
    forall j: nat | j < |s.pipeline| ensures EntryDone(step, nodes, values, held', s, own, Value([], []), j) {
      assert EntryDone(step, nodes, values, held, s, own, Value([], []), j) && EntryOk(nodes, at, s, j);
      var entry := s.pipeline[j];
      forall i | 0 <= i < |entry.inputs|
        ensures Fetch(values, held[c := own], s, own, Value([], []), entry.inputs[i]) ==
          Fetch(values, held, s, own, Value([], []), entry.inputs[i])
      {
        assert Resolves(nodes, at, s, j, nodes[entry.expr].inputs[i], entry.inputs[i]);
      }
      assert Inputs(values, held[c := own], s, own, Value([], []), j) == Inputs(values, held, s, own, Value([], []), j);
    }
  }

  /**
   Runs the whole pipeline of c for the sizes it was resized for. It refuses if that resize failed, and may fail
   and leave its tensors in any state.
   */
  method RunSession(g: ExprGraph, c: nat, fails: bool) returns (code: ErrorCode)
    requires g.Runnable() && c < |g.sessions|
    modifies g`tensors
    ensures g.Runnable()
    ensures forall d: nat :: d < |g.sessions| && d != c ==> g.tensors[d] == old(g.tensors[d])
    ensures code == if g.sizing.needResize[c] then ComputeSizeError else if fails then RunFailed else NoError
    ensures code.NoError? ==> Executed(g, c)
  {
    if g.sizing.needResize[c] {
      return ComputeSizeError;
    }
    if fails {
      var junk: seq<Value> :| |junk| == |g.tensors[c]|;
      g.tensors := g.tensors[c := junk];
      return RunFailed;
    }
    assert CacheOk(g.nodes, g.at, g.sessions, c);
    var s, sizes := g.sessions[c], g.sizing.sizes[c];
    var own := g.tensors[c];
    for j := 0 to |s.pipeline|
      invariant g.tensors == old(g.tensors) && |own| == s.tensors
      invariant Done(RunStep(g.sem, g.nodes, s, sizes), g.nodes, g.values, g.tensors, s, own, Value([], []), j)
    {
      var vs := FetchInputs(g.values, g.tensors, s, own, Value([], []), j);
      var step := RunStep(g.sem, g.nodes, s, sizes);
      own := RunEntry(step, g.nodes, g.at, g.values, g.tensors, s, own, Value([], []), j, vs);
    }
    DoneElsewhere(RunStep(g.sem, g.nodes, s, sizes), g.nodes, g.at, g.values, g.tensors, s, own, c);
    g.tensors := g.tensors[c := own];
    code := NoError;
  }

  /** A run for the right sizes on clean inputs leaves what its expressions denote. */
  lemma ExecutedHolds(g: ExprGraph, c: nat)
    requires g.Runnable() && c < |g.sessions| && Executed(g, c)
    requires CacheSized(g.sem, g.nodes, g.shapes.leaves, g.sessions, g.sizing, c)
    requires InputsHold(g.sem.Whole(), g.nodes, g.values, g.at, g.tensors, g.sessions[c])
    ensures HoldsAll(g.sem.Whole(), g.nodes, g.values, g.at, g.tensors[c], c)
  {
    var s := g.sessions[c];
    assert CacheOk(g.nodes, g.at, g.sessions, c);
    SizedRunIsDen(g.sem, g.nodes, g.values, g.shapes.leaves, g.at, g.tensors, s, g.sizing.dims[c], g.sizing.sizes[c],
      g.tensors[c]);
    forall e: nat | e < |g.nodes| && g.at.cacheOf[e] == Some(c) ensures HasEntry(s, e, g.at.offsetOf[e]) {
      assert PlaceOk(g.nodes, g.at, g.sessions, e);
    }
    RunHoldsAll(g.sem.Whole(), g.nodes, g.values, g.at, s, g.tensors[c], c);
  }

  // ---------------------------------------------------------------- computing

  /** Every input of the cache run as number k either ran before it or needed no run. */
  ghost predicate InputsFirst(sessions: seq<Session>, stale: seq<bool>, ran: seq<nat>, k: nat)
    requires k < |ran|
  {
    ran[k] < |sessions| && forall d :: d in sessions[ran[k]].inputs ==> d in ran[..k] || (d < |stale| && !stale[d])
  }

  /** The caches run: each once, only stale ones, and after everything stale that they read. */
  ghost predicate RunLog(sessions: seq<Session>, stale: seq<bool>, ran: seq<nat>) {
    && Distinct(ran)
    && (forall k: nat :: k < |ran| ==> InputsFirst(sessions, stale, ran, k))
    && (forall c :: c in ran ==> c < |stale| && stale[c])
  }

  ghost function Stale(content: seq<bool>, shape: seq<bool>): (s: seq<bool>)
    requires |shape| == |content|
    ensures |s| == |content| && forall d :: 0 <= d < |s| ==> s[d] == (content[d] || shape[d])
  {
    seq(|content|, d requires 0 <= d < |content| => content[d] || shape[d])
  }

  /** How far the walk has come: dirt only shrinks to what was stale, and what became clean has run. */
  ghost predicate Progress(stale: seq<bool>, ran: seq<nat>, content: seq<bool>, shape: seq<bool>) {
    && |content| == |stale| && |shape| == |stale|
    && (forall d: nat :: d < |stale| && (content[d] || shape[d]) ==> stale[d])
    && (forall d: nat :: d < |stale| && stale[d] && !content[d] && !shape[d] ==> d in ran)
  }

  lemma RunLogStep(sessions: seq<Session>, stale: seq<bool>, ran: seq<nat>, content: seq<bool>, shape: seq<bool>,
      visited: set<nat>, c: nat)
    requires RunLog(sessions, stale, ran) && Progress(stale, ran, content, shape) && |stale| == |sessions|
    requires forall d :: d in visited ==> d < |sessions| && !content[d] && !shape[d]
    requires c < |sessions| && content[c] && c !in ran && !HasUnvisitInput(sessions[c], visited)
    ensures RunLog(sessions, stale, ran + [c])
  {
    var ran' := ran + [c];
    forall k: nat | k < |ran'| ensures InputsFirst(sessions, stale, ran', k) {
      if k < |ran| {
        assert InputsFirst(sessions, stale, ran, k) && ran'[..k] == ran[..k];
      } else {
        assert ran'[..k] == ran;
      }
    }
  }

  /**
   What computing target may do: nothing to caches that are neither target nor below it, and a cache that was
   not marked keeps the sizes it was resized for.
   */
  ghost predicate Within(sessions: seq<Session>, target: nat, t0: Snapshot, t: Snapshot)
    requires Ordered(sessions) && target < |sessions|
  {
    && SnapshotFor(sessions, t0) && SnapshotFor(sessions, t)
    && forall d: nat :: d < |sessions| ==> WithinAt(sessions, target, t0, t, d)
  }

  ghost predicate WithinAt(sessions: seq<Session>, target: nat, t0: Snapshot, t: Snapshot, d: nat)
    requires Ordered(sessions) && target < |sessions| && SnapshotFor(sessions, t0) && SnapshotFor(sessions, t)
    requires d < |sessions|
  {
    && (t.shapeDirty[d] ==> t0.shapeDirty[d])
    && (t.shapeDirty[d] == t0.shapeDirty[d] ==> SameSizes(t0.sizing, t.sizing, d))
    && (Under(sessions, target, d) || (
      && t.shapeDirty[d] == t0.shapeDirty[d] && t.contentDirty[d] == t0.contentDirty[d]
      && t.tensors[d] == t0.tensors[d]))
  }

  lemma ResizeWithin(sessions: seq<Session>, target: nat, c: nat, t0: Snapshot, t1: Snapshot, t: Snapshot)
    requires Ordered(sessions) && target < |sessions| && c < |sessions| && Under(sessions, target, c)
    requires SizingFor(sessions, t0.sizing) && SizingFor(sessions, t1.sizing)
    requires Within(sessions, target, t0, t1) && Resized(sessions, c, t1, t)
    ensures Within(sessions, target, t0, t)
  {
    forall d: nat | d < |sessions| ensures WithinAt(sessions, target, t0, t, d) {
      assert WithinAt(sessions, target, t0, t1, d) && ResizedAt(sessions, c, t1, t, d);
      if Under(sessions, c, d) {
        UnderTransitive(sessions, target, c, d);
      }
    }
  }

  /** Resizing keeps the walk's invariants. */
  lemma ResizeKeeps(sessions: seq<Session>, c: nat, stale: seq<bool>, ran: seq<nat>, t0: Snapshot, t: Snapshot)
    requires Ordered(sessions) && c < |sessions| && |stale| == |sessions| && Resized(sessions, c, t0, t)
    requires Progress(stale, ran, t0.contentDirty, t0.shapeDirty)
    ensures Progress(stale, ran, t.contentDirty, t.shapeDirty)
    ensures forall d: nat :: d < |stale| ==>
      ((t.contentDirty[d] || t.shapeDirty[d]) <==> (t0.contentDirty[d] || t0.shapeDirty[d]))
  {
    forall d: nat | d < |stale|
      ensures (t.contentDirty[d] || t.shapeDirty[d]) <==> (t0.contentDirty[d] || t0.shapeDirty[d])
    {
      assert ResizedAt(sessions, c, t0, t, d);
    }
  }

  ghost predicate FreshNow(g: ExprGraph)
    requires g.Runnable()
    reads g
  {
    Fresh(g.sem, g.nodes, g.values, g.at, g.tensors, g.contentDirty, g.shapeDirty)
  }

  /** In state t every cache was sized or marked. */
  ghost predicate SizedIn(g: ExprGraph, t: Snapshot)
    requires g.Runnable() && SizingFor(g.sessions, t.sizing) && SnapshotFor(g.sessions, t)
    reads g
  {
    AllSized(g.sem, g.nodes, g.shapes.leaves, g.sessions, t.sizing, t.shapeDirty)
  }

  /** In state t clean caches were right. */
  ghost predicate FreshIn(g: ExprGraph, t: Snapshot)
    requires g.Runnable() && SnapshotFor(g.sessions, t)
    reads g
  {
    Fresh(g.sem, g.nodes, g.values, g.at, t.tensors, t.contentDirty, t.shapeDirty)
  }

  /**
   Since t0: every cache is sized or marked exactly if it was then and everything placed in the caches resized has
   a shape; and if so, clean caches are right if they were.
   */
  ghost predicate SoundSince(g: ExprGraph, t0: Snapshot)
    requires g.Runnable() && SizingFor(g.sessions, t0.sizing) && SnapshotFor(g.sessions, t0)
    reads g
  {
    && (SizedNow(g) <==> SizedIn(g, t0) && ResizedShaped(g, t0.shapeDirty))
    && (SizedNow(g) && FreshIn(g, t0) ==> FreshNow(g))
  }

  /** What computing target keeps all the way. */
  ghost predicate Keeping(g: ExprGraph, target: nat, stale: seq<bool>, ran: seq<nat>, t0: Snapshot)
    reads g
  {
    && g.Runnable() && Ordered(g.sessions) && target < |g.sessions| && |stale| == |g.sessions|
    && SizingFor(g.sessions, t0.sizing) && Within(g.sessions, target, t0, Now(g)) && SoundSince(g, t0)
    && RunLog(g.sessions, stale, ran) && Progress(stale, ran, g.contentDirty, g.shapeDirty)
  }

  /** The caches visited are up to date, and what ran was visited. */
  ghost predicate VisitedClean(g: ExprGraph, ran: seq<nat>, visited: set<nat>)
    reads g
  {
    && (forall c :: c in ran ==> c in visited)
    && (forall d :: d in visited ==>
          d < |g.contentDirty| && d < |g.shapeDirty| && !g.contentDirty[d] && !g.shapeDirty[d])
  }

  /** The second pass between two steps. */
  ghost predicate Walking(g: ExprGraph, target: nat, fails: set<nat>, stale: seq<bool>, ran: seq<nat>, t0: Snapshot,
      stack: seq<nat>, expanded: seq<bool>, visited: set<nat>)
    reads g
  {
    && Keeping(g, target, stale, ran, t0) && VisitedClean(g, ran, visited)
    && WalkFrom(g.sessions, target, stack, expanded, visited) && (forall c :: c in ran ==> c !in fails)
    && if stack == [] then stale[target] ==> Executed(g, target)
       else (g.contentDirty[target] || g.shapeDirty[target]) == stale[target]
  }

  /** Resizing on the way cannot be stopped, so the caller's recovery from that is not needed. */
  method ResizeTop(g: ExprGraph, ghost target: nat, ghost fails: set<nat>, ghost stale: seq<bool>, ghost ran: seq<nat>,
      ghost t0: Snapshot, stack: seq<nat>, ghost expanded: seq<bool>, ghost visited: set<nat>)
    requires stack != [] && Walking(g, target, fails, stale, ran, t0, stack, expanded, visited)
    modifies g`shapeDirty, g`contentDirty, g`sizing
    ensures Walking(g, target, fails, stale, ran, t0, stack, expanded, visited)
    ensures !g.shapeDirty[stack[|stack| - 1]]
  {
    var c := stack[|stack| - 1];
    if g.shapeDirty[c] {
      ghost var t1 := Now(g);
      var code := Resize(g, c);
      ResizeKeeps(g.sessions, c, stale, ran, t1, Now(g));
      ResizeWithin(g.sessions, target, c, t0, t1, Now(g));
      ResizeSince(g, target, c, t0, t1);
    }
  }

  lemma ResizeSince(g: ExprGraph, target: nat, c: nat, t0: Snapshot, t1: Snapshot)
    requires g.Runnable() && Ordered(g.sessions) && c < |g.sessions| && target < |g.sessions|
    requires SizingFor(g.sessions, t0.sizing) && SizingFor(g.sessions, t1.sizing)
    requires Within(g.sessions, target, t0, t1) && Resized(g.sessions, c, t1, Now(g))
    requires SizedIn(g, t1) <==> SizedIn(g, t0) && MarksShaped(g, t0.shapeDirty, t1.shapeDirty)
    requires SizedIn(g, t1) && FreshIn(g, t0) ==> FreshIn(g, t1)
    requires SizedNow(g) <==> SizedIn(g, t1) && ResizedShaped(g, t1.shapeDirty)
    ensures SoundSince(g, t0)
  {
    forall d: nat | d < |g.sessions|
      ensures t1.shapeDirty[d] ==> t0.shapeDirty[d]
      ensures g.shapeDirty[d] ==> t1.shapeDirty[d]
      ensures !g.contentDirty[d] && !g.shapeDirty[d] ==> !t1.contentDirty[d] && !t1.shapeDirty[d]
    {
      assert WithinAt(g.sessions, target, t0, t1, d) && ResizedAt(g.sessions, c, t1, Now(g), d);
    }
    if SizedNow(g) && FreshIn(g, t0) {
      forall d: nat | d < |g.sessions| && !g.contentDirty[d] && !g.shapeDirty[d]
        ensures HoldsAll(g.sem.Whole(), g.nodes, g.values, g.at, g.tensors[d], d)
      {
        assert HoldsAll(g.sem.Whole(), g.nodes, g.values, g.at, t1.tensors[d], d);
      }
    }
  }

  /** What had lost its mark between two states has a shape. */
  ghost predicate MarksShaped(g: ExprGraph, shape0: seq<bool>, shape1: seq<bool>)
    requires g.Runnable()
    reads g
  {
    forall d: nat :: d < |shape0| && d < |shape1| && d < |g.sessions| && shape0[d] && !shape1[d] ==>
      GroupShaped(g.sem, g.nodes, g.shapes.leaves, g.at, d)
  }

  /** A run on clean inputs, for sizes that are right, makes its cache fresh. */
  lemma RunKeepsSound(g: ExprGraph, c: nat, tensors0: seq<seq<Value>>)
    requires g.Runnable() && c < |g.sessions| && g.contentDirty[c] && !g.shapeDirty[c] && Executed(g, c)
    requires |tensors0| == |g.tensors| && forall d: nat :: d < |g.sessions| && d != c ==> g.tensors[d] == tensors0[d]
    requires Fresh(g.sem, g.nodes, g.values, g.at, tensors0, g.contentDirty, g.shapeDirty)
    requires AllSized(g.sem, g.nodes, g.shapes.leaves, g.sessions, g.sizing, g.shapeDirty)
    requires forall d :: d in g.sessions[c].inputs ==> d < |g.sessions| && !g.contentDirty[d] && !g.shapeDirty[d]
    ensures Fresh(g.sem, g.nodes, g.values, g.at, g.tensors, g.contentDirty[c := false], g.shapeDirty)
  {
    assert CacheOk(g.nodes, g.at, g.sessions, c);
    ExecutedHolds(g, c);
    forall d: nat | d < |g.tensors| && !g.contentDirty[c := false][d] && !g.shapeDirty[d]
      ensures HoldsAll(g.sem.Whole(), g.nodes, g.values, g.at, g.tensors[d], d)
    {
      if d != c {
        assert HoldsAll(g.sem.Whole(), g.nodes, g.values, g.at, tensors0[d], d);
      }
    }
  }

  lemma RunWithin(sessions: seq<Session>, target: nat, c: nat, t0: Snapshot, t1: Snapshot, t: Snapshot)
    requires Ordered(sessions) && target < |sessions| && c < |sessions| && Under(sessions, target, c)
    requires Within(sessions, target, t0, t1) && SnapshotFor(sessions, t)
    requires t.shapeDirty == t1.shapeDirty && t.sizing == t1.sizing
    requires forall d: nat :: d < |sessions| && d != c ==>
      t.contentDirty[d] == t1.contentDirty[d] && t.tensors[d] == t1.tensors[d]
    ensures Within(sessions, target, t0, t)
  {
    forall d: nat | d < |sessions| ensures WithinAt(sessions, target, t0, t, d) {
      assert WithinAt(sessions, target, t0, t1, d);
    }
  }

  /** Why computing gave up: a session failed, or its last resize had. */
  ghost predicate Refused(g: ExprGraph, target: nat, code: ErrorCode, ran: seq<nat>, fails: set<nat>)
    requires g.Runnable() && Ordered(g.sessions) && target < |g.sessions|
    reads g
  {
    ran != [] &&
    var last := ran[|ran| - 1];
    Under(g.sessions, target, last) &&
    match code
    case RunFailed => last in fails
    case ComputeSizeError => last < |g.sessions| && g.sizing.needResize[last] && !SizedNow(g)
    case _ => false
  }

  /** Runs c and clears its flag. */
  method RunAndClear(g: ExprGraph, c: nat, fails: bool) returns (code: ErrorCode)
    requires g.Runnable() && c < |g.sessions| && g.contentDirty[c] && !g.shapeDirty[c]
    requires forall d :: d in g.sessions[c].inputs ==> d < |g.sessions| && !g.contentDirty[d] && !g.shapeDirty[d]
    modifies g`contentDirty, g`tensors
    ensures g.Runnable() && (old(FreshNow(g)) && SizedNow(g) ==> FreshNow(g))
    ensures forall d: nat :: d < |g.sessions| && d != c ==> g.tensors[d] == old(g.tensors[d])
    ensures code == if g.sizing.needResize[c] then ComputeSizeError else if fails then RunFailed else NoError
    ensures g.contentDirty == if code.NoError? then old(g.contentDirty)[c := false] else old(g.contentDirty)
    ensures code.NoError? ==> Executed(g, c)
    ensures code.ComputeSizeError? ==> !SizedNow(g)
  {
    if SizedNow(g) {
      assert CacheSized(g.sem, g.nodes, g.shapes.leaves, g.sessions, g.sizing, c);
    }
    ghost var fresh0 := FreshNow(g);
    code := RunSession(g, c, fails);
    if code == NoError {
      if SizedNow(g) && fresh0 {
        RunKeepsSound(g, c, old(g.tensors));
      }
      g.contentDirty := g.contentDirty[c := false];
    }
  }

  /** Runs the cache c, which is dirty while everything it reads is up to date. */
  method RunDirty(g: ExprGraph, ghost target: nat, c: nat, fails: bool, ghost stale: seq<bool>, ghost ran: seq<nat>,
      ghost visited: set<nat>, ghost t0: Snapshot) returns (code: ErrorCode)
    requires Keeping(g, target, stale, ran, t0) && VisitedClean(g, ran, visited)
    requires c < |g.sessions| && !g.shapeDirty[c] && Under(g.sessions, target, c)
    requires g.contentDirty[c] && !HasUnvisitInput(g.sessions[c], visited)
    modifies g`contentDirty, g`tensors
    ensures Keeping(g, target, stale, ran + [c], t0)
    ensures code == if g.sizing.needResize[c] then ComputeSizeError else if fails then RunFailed else NoError
    ensures code.NoError? ==> g.contentDirty == old(g.contentDirty)[c := false] && Executed(g, c)
    ensures code.ComputeSizeError? ==> !SizedNow(g)
  {
    RunLogStep(g.sessions, stale, ran, g.contentDirty, g.shapeDirty, visited, c);
    ghost var t1 := Now(g);
    code := RunAndClear(g, c, fails);
    RunWithin(g.sessions, target, c, t0, t1, Now(g));
  }

  /** The top of the stack has nothing left to wait for: it is popped, and run if it is dirty. */
  method RunTop(g: ExprGraph, ghost target: nat, fails: set<nat>, ghost stale: seq<bool>, ghost ran: seq<nat>,
      ghost t0: Snapshot, stack: seq<nat>, ghost expanded: seq<bool>, ghost visited: set<nat>)
    returns (code: ErrorCode, ghost ran': seq<nat>)
    requires Walking(g, target, fails, stale, ran, t0, stack, expanded, visited) && stack != []
    requires var c := stack[|stack| - 1];
      !g.shapeDirty[c] && (g.contentDirty[c] ==> !HasUnvisitInput(g.sessions[c], visited))
    modifies g`contentDirty, g`tensors
    ensures Keeping(g, target, stale, ran', t0)
    ensures code.NoError? ==> Walking(g, target, fails, stale, ran', t0, stack[..|stack| - 1],
      expanded[..|stack| - 1], visited + {stack[|stack| - 1]})
    ensures StackWeight(g.sessions, stack[..|stack| - 1], expanded[..|stack| - 1]) <
      StackWeight(g.sessions, stack, expanded)
    ensures !code.NoError? ==> Refused(g, target, code, ran', fails)
  {
    var c := stack[|stack| - 1];
    PopFrom(g.sessions, target, stack, expanded, visited);
    code, ran' := NoError, ran;
    if g.contentDirty[c] {
      code := RunDirty(g, target, c, c in fails, stale, ran, visited, t0);
      ran' := ran + [c];
    }
  }

  /**
   Brings target up to date. It stops without changing anything if an INPUT leaf below it is unwritten; otherwise
   only stale caches run, each once and after what it reads, and the target then holds the result of a run for the
   sizes it was last resized for. Reads stay right exactly if everything placed in the caches resized has a shape.
   */
  method Compute(g: ExprGraph, target: nat, fails: set<nat>) returns (code: ErrorCode, ghost ran: seq<nat>)
    requires g.Runnable() && Ordered(g.sessions) && target < |g.sessions|
    modifies g`shapeDirty, g`contentDirty, g`tensors, g`sizing
    ensures g.Runnable() && Within(g.sessions, target, old(Now(g)), Now(g))
    ensures old(g.Sound()) ==> (g.Sound() <==> ResizedShaped(g, old(g.shapeDirty)))
    ensures code.CallBackStop? <==> !Ready(g.sessions, g.unwritten, target)
    ensures code.CallBackStop? ==> Now(g) == old(Now(g)) && ran == []
    ensures code.NoError? ==> !g.contentDirty[target] && !g.shapeDirty[target] && forall c :: c in ran ==> c !in fails
    ensures code.NoError? && old(g.contentDirty[target] || g.shapeDirty[target]) ==> Executed(g, target)
    ensures code.NoError? || code.CallBackStop? || Refused(g, target, code, ran, fails)
    ensures RunLog(g.sessions, Stale(old(g.contentDirty), old(g.shapeDirty)), ran)
    ensures Progress(Stale(old(g.contentDirty), old(g.shapeDirty)), ran, g.contentDirty, g.shapeDirty)
  {
    ran := [];
    var ready := Check(g, target);
    if !ready {
      return CallBackStop, ran;
    }
    code, ran := RunWalk(g, target, fails);
  }

  lemma PushTop(g: ExprGraph, target: nat, fails: set<nat>, stale: seq<bool>, ran: seq<nat>, t0: Snapshot,
      stack: seq<nat>, expanded: seq<bool>, visited: set<nat>)
    requires stack != [] && Walking(g, target, fails, stale, ran, t0, stack, expanded, visited)
    requires HasUnvisitInput(g.sessions[stack[|stack| - 1]], visited)
    ensures var inputs := g.sessions[stack[|stack| - 1]].inputs;
      var expanded' := expanded[|stack| - 1 := true] + Unexpanded(|inputs|);
      && Walking(g, target, fails, stale, ran, t0, stack + inputs, expanded', visited)
      && StackWeight(g.sessions, stack + inputs, expanded') < StackWeight(g.sessions, stack, expanded)
  {
    PushFrom(g.sessions, target, stack, expanded, visited, stack[|stack| - 1]);
  }

  /** Reads are right, and nothing that computing target may resize can fail. */
  ghost predicate SoundFrom(g: ExprGraph, target: nat)
    requires g.Runnable() && Ordered(g.sessions) && target < |g.sessions|
    reads g
  {
    g.Sound() && Sizable(g.sem, g.nodes, g.shapes.leaves, g.at, g.sessions, target)
  }

  /** Computing target resizes nothing else. */
  lemma SizableResizes(g: ExprGraph, target: nat, t0: Snapshot)
    requires g.Runnable() && Ordered(g.sessions) && target < |g.sessions| && Within(g.sessions, target, t0, Now(g))
    requires Sizable(g.sem, g.nodes, g.shapes.leaves, g.at, g.sessions, target)
    ensures ResizedShaped(g, t0.shapeDirty)
  {
    forall d: nat | d < |g.sessions| && t0.shapeDirty[d] && !g.shapeDirty[d] ensures Under(g.sessions, target, d) {
      assert WithinAt(g.sessions, target, t0, Now(g), d);
    }
  }

  /** The second pass. */
  method RunWalk(g: ExprGraph, target: nat, fails: set<nat>) returns (code: ErrorCode, ghost ran: seq<nat>)
    requires g.Runnable() && Ordered(g.sessions) && target < |g.sessions|
    modifies g`shapeDirty, g`contentDirty, g`tensors, g`sizing
    ensures Keeping(g, target, Stale(old(g.contentDirty), old(g.shapeDirty)), ran, old(Now(g)))
    ensures code.NoError? ==> !g.contentDirty[target] && !g.shapeDirty[target] && forall c :: c in ran ==> c !in fails
    ensures code.NoError? && old(g.contentDirty[target] || g.shapeDirty[target]) ==> Executed(g, target)
    ensures !code.NoError? ==> Refused(g, target, code, ran, fails)
  {
    ran := [];
    ghost var stale, t0 := Stale(g.contentDirty, g.shapeDirty), Now(g);
    var dfsStack: seq<nat> := [target];
    var visited: set<nat> := {};
    ghost var expanded := [false];
    while dfsStack != []
      invariant Walking(g, target, fails, stale, ran, t0, dfsStack, expanded, visited)
      decreases StackWeight(g.sessions, dfsStack, expanded)
    {
      code, dfsStack, visited, ran, expanded := WalkOnce(g, target, fails, stale, ran, t0, dfsStack, expanded, visited);
      if code != NoError {
        return;
      }
    }
    return NoError, ran;
  }

  /** One step of it: the top of the stack is resized, and then what it waits for is pushed or it is run. */
  method WalkOnce(g: ExprGraph, ghost target: nat, fails: set<nat>, ghost stale: seq<bool>, ghost ran: seq<nat>,
      ghost t0: Snapshot, stack: seq<nat>, ghost expanded: seq<bool>, visited: set<nat>)
    returns (code: ErrorCode, stack': seq<nat>, visited': set<nat>, ghost ran': seq<nat>, ghost expanded': seq<bool>)
    requires Walking(g, target, fails, stale, ran, t0, stack, expanded, visited) && stack != []
    modifies g`shapeDirty, g`contentDirty, g`tensors, g`sizing
    ensures Keeping(g, target, stale, ran', t0)
    ensures if code.NoError? then Walking(g, target, fails, stale, ran', t0, stack', expanded', visited')
      else Refused(g, target, code, ran', fails)
    ensures code.NoError? ==>
      StackWeight(g.sessions, stack', expanded') < StackWeight(g.sessions, stack, expanded)
  {
    var last := |stack| - 1;
    var cache := stack[last];
    ResizeTop(g, target, fails, stale, ran, t0, stack, expanded, visited);
    if g.contentDirty[cache] && HasUnvisitInput(g.sessions[cache], visited) {
      PushTop(g, target, fails, stale, ran, t0, stack, expanded, visited);
      code, ran', visited' := NoError, ran, visited;
      expanded' := expanded[last := true] + Unexpanded(|g.sessions[cache].inputs|);
      stack' := stack + g.sessions[cache].inputs;
    } else {
      code, ran' := RunTop(g, target, fails, stale, ran, t0, stack, expanded, visited);
      visited' := visited + {cache};
      stack', expanded' := stack[..last], expanded[..last];
    }
  }
}
