/**
 The pipeline that a compute cache runs (express/Executor.cpp:463-601): operators in order, each
 input a leaf's tensor, a tensor of another cache, or an output of an earlier operator.
 */
module Sessions {
  import opened Wrappers
  import opened ExprModel

  datatype Source =
    | LeafTensor(expr: nat)
    | CacheTensor(cache: nat, tensor: nat)
    | OwnTensor(entry: nat, index: nat)

  /** An operator of the pipeline; its outputs are the tensors from `first` on. */
  datatype OpInfo = OpInfo(expr: nat, inputs: seq<Source>, first: nat)

  /** What a cache keeps for good: its pipeline, how many tensors that uses, the caches and INPUT leaves it reads. */
  datatype Session = Session(pipeline: seq<OpInfo>, tensors: nat, inputs: seq<nat>, inputInside: seq<nat>)

  /** Which cache holds each expression's outputs, and from which tensor on. */
  datatype Placement = Placement(cacheOf: seq<Option<nat>>, offsetOf: seq<nat>)

  ghost predicate Placed(nodes: Nodes, at: Placement) {
    |at.cacheOf| == |nodes| && |at.offsetOf| == |nodes|
  }

  /** Source src stands for port p in entry j of session s. */
  ghost predicate Resolves(nodes: Nodes, at: Placement, s: Session, j: nat, p: Port, src: Source)
    requires Placed(nodes, at) && j <= |s.pipeline|
  {
    IsPort(nodes, p) &&
    if IsLeaf(nodes, p.expr) then
      src == LeafTensor(p.expr) && (nodes[p.expr].kind.Input? ==> p.expr in s.inputInside)
    else match src
      case LeafTensor(_) => false
      case CacheTensor(d, t) => at.cacheOf[p.expr] == Some(d) && d in s.inputs && t == at.offsetOf[p.expr] + p.index
      case OwnTensor(k, index) => k < j && s.pipeline[k].expr == p.expr && index == p.index
  }

  ghost predicate EntryOk(nodes: Nodes, at: Placement, s: Session, j: nat)
    requires Placed(nodes, at) && j < |s.pipeline|
  {
    var entry := s.pipeline[j];
    && entry.expr < |nodes| && !IsLeaf(nodes, entry.expr) && |entry.inputs| == |nodes[entry.expr].inputs|
    && entry.first + nodes[entry.expr].outputs == (if j + 1 < |s.pipeline| then s.pipeline[j + 1].first else s.tensors)
    && forall i :: 0 <= i < |entry.inputs| ==> Resolves(nodes, at, s, j, nodes[entry.expr].inputs[i], entry.inputs[i])
  }

  /** Every entry takes its inputs from leaves, cached expressions or earlier entries. */
  ghost predicate SessionOk(nodes: Nodes, at: Placement, s: Session)
    requires Placed(nodes, at)
  {
    forall j: nat :: j < |s.pipeline| ==> EntryOk(nodes, at, s, j)
  }

  /** The pipeline computes e into the tensors from `first` on. */
  ghost predicate HasEntry(s: Session, e: nat, first: nat) {
    exists j: nat :: j < |s.pipeline| && IsEntry(s, j, e, first)
  }

  ghost predicate IsEntry(s: Session, j: nat, e: nat, first: nat)
    requires j < |s.pipeline|
  {
    s.pipeline[j].expr == e && s.pipeline[j].first == first
  }

  lemma {:induction false} FirstRises(nodes: Nodes, at: Placement, s: Session, j: nat, k: nat)
    requires Placed(nodes, at) && SessionOk(nodes, at, s) && j < k < |s.pipeline|
    ensures s.pipeline[j].expr < |nodes|
    ensures s.pipeline[j].first + nodes[s.pipeline[j].expr].outputs <= s.pipeline[k].first
    decreases k
  {
    assert EntryOk(nodes, at, s, k - 1);
    if j < k - 1 {
      FirstRises(nodes, at, s, j, k - 1);
    }
  }

  lemma {:induction false} EntryFits(nodes: Nodes, at: Placement, s: Session, j: nat)
    requires Placed(nodes, at) && SessionOk(nodes, at, s) && j < |s.pipeline|
    ensures s.pipeline[j].expr < |nodes| && s.pipeline[j].first + nodes[s.pipeline[j].expr].outputs <= s.tensors
  {
    assert EntryOk(nodes, at, s, j) && EntryOk(nodes, at, s, |s.pipeline| - 1);
    if j < |s.pipeline| - 1 {
      FirstRises(nodes, at, s, j, |s.pipeline| - 1);
    }
  }

  // ---------------------------------------------------------------- contents

  // A session's tensors hold contents (T is Value) and have dimensions (T is Shape); both come about by
  // going through the pipeline once, so both are described here at once.

  /** The tensors from `first` on hold the outputs of e. */
  ghost predicate Holds<T>(f: (nat, seq<T>, nat) -> T, nodes: Nodes, leaves: seq<T>, own: seq<T>, e: nat, first: nat)
    requires Acyclic(nodes) && |leaves| == |nodes|
  {
    e < |nodes| && first + nodes[e].outputs <= |own| &&
    forall k: nat :: k < nodes[e].outputs ==> HoldsAt(f, nodes, leaves, own, Port(e, k), first + k)
  }

  ghost predicate HoldsAt<T>(f: (nat, seq<T>, nat) -> T, nodes: Nodes, leaves: seq<T>, own: seq<T>, p: Port, t: nat)
    requires Acyclic(nodes) && |leaves| == |nodes| && IsPort(nodes, p) && t < |own|
  {
    own[t] == Den(f, nodes, leaves, p)
  }

  /** The first n entries have run. */
  ghost predicate HasRun<T>(f: (nat, seq<T>, nat) -> T, nodes: Nodes, leaves: seq<T>, s: Session, own: seq<T>, n: nat)
    requires Acyclic(nodes) && |leaves| == |nodes| && n <= |s.pipeline|
  {
    forall j: nat :: j < n ==> Holds(f, nodes, leaves, own, s.pipeline[j].expr, s.pipeline[j].first)
  }

  /** A cache holds every expression placed in it. */
  ghost predicate HoldsAll<T>(f: (nat, seq<T>, nat) -> T, nodes: Nodes, leaves: seq<T>, at: Placement, own: seq<T>,
      c: nat)
    requires Acyclic(nodes) && |leaves| == |nodes| && Placed(nodes, at)
  {
    forall e: nat :: e < |nodes| && at.cacheOf[e] == Some(c) ==> Holds(f, nodes, leaves, own, e, at.offsetOf[e])
  }

  ghost predicate InputsHold<T>(f: (nat, seq<T>, nat) -> T, nodes: Nodes, leaves: seq<T>, at: Placement,
      held: seq<seq<T>>, s: Session)
    requires Acyclic(nodes) && |leaves| == |nodes| && Placed(nodes, at)
  {
    forall d :: d in s.inputs ==> d < |held| && HoldsAll(f, nodes, leaves, at, held[d], d)
  }

  /** What reading a source yields; `none` stands for a tensor that does not exist. */
  function Fetch<T>(leaves: seq<T>, held: seq<seq<T>>, s: Session, own: seq<T>, none: T, src: Source): T {
    match src
    case LeafTensor(e) => if e < |leaves| then leaves[e] else none
    case CacheTensor(d, t) => if d < |held| && t < |held[d]| then held[d][t] else none
    case OwnTensor(k, index) =>
      if k < |s.pipeline| && s.pipeline[k].first + index < |own| then own[s.pipeline[k].first + index] else none
  }

  /** What entry j reads. */
  ghost function Inputs<T>(leaves: seq<T>, held: seq<seq<T>>, s: Session, own: seq<T>, none: T, j: nat): (vs: seq<T>)
    requires j < |s.pipeline|
    ensures |vs| == |s.pipeline[j].inputs|
    ensures forall i :: 0 <= i < |vs| ==> vs[i] == Fetch(leaves, held, s, own, none, s.pipeline[j].inputs[i])
  {
    seq(|s.pipeline[j].inputs|, i requires 0 <= i < |s.pipeline[j].inputs| =>
      Fetch(leaves, held, s, own, none, s.pipeline[j].inputs[i]))
  }

  /** Entry j has put its outputs, which step gives from what it reads, into its tensors. */
  ghost predicate EntryDone<T>(step: (nat, seq<T>, nat) -> T, nodes: Nodes, leaves: seq<T>, held: seq<seq<T>>,
      s: Session, own: seq<T>, none: T, j: nat)
    requires j < |s.pipeline|
  {
    var entry := s.pipeline[j];
    entry.expr < |nodes| && entry.first + nodes[entry.expr].outputs <= |own| &&
    forall k: nat :: k < nodes[entry.expr].outputs ==>
      own[entry.first + k] == step(j, Inputs(leaves, held, s, own, none, j), k)
  }

  /** The first n entries have, one after the other. */
  ghost predicate Done<T>(step: (nat, seq<T>, nat) -> T, nodes: Nodes, leaves: seq<T>, held: seq<seq<T>>, s: Session,
      own: seq<T>, none: T, n: nat)
    requires n <= |s.pipeline|
  {
    forall j: nat :: j < n ==> EntryDone(step, nodes, leaves, held, s, own, none, j)
  }

  /** Tensors from `first` on are not read by the entries before the one that starts there. */
  lemma InputsKept<T>(nodes: Nodes, at: Placement, leaves: seq<T>, held: seq<seq<T>>, s: Session, own: seq<T>,
      own': seq<T>, none: T, i: nat, j: nat)
    requires Placed(nodes, at) && SessionOk(nodes, at, s) && i <= j < |s.pipeline| && |own'| == |own|
    requires forall t: nat :: t < |own| && t < s.pipeline[j].first ==> own'[t] == own[t]
    ensures Inputs(leaves, held, s, own', none, i) == Inputs(leaves, held, s, own, none, i)
  {
    assert EntryOk(nodes, at, s, i);
    var entry := s.pipeline[i];
    forall x | 0 <= x < |entry.inputs|
      ensures Fetch(leaves, held, s, own', none, entry.inputs[x]) == Fetch(leaves, held, s, own, none, entry.inputs[x])
    {
      assert Resolves(nodes, at, s, i, nodes[entry.expr].inputs[x], entry.inputs[x]);
      if entry.inputs[x].OwnTensor? {
        FirstRises(nodes, at, s, entry.inputs[x].entry, j);
      }
    }
  }

  /** One more entry, which writes only its own tensors. */
  lemma DoneStep<T>(step: (nat, seq<T>, nat) -> T, nodes: Nodes, at: Placement, leaves: seq<T>, held: seq<seq<T>>,
      s: Session, own: seq<T>, own': seq<T>, none: T, j: nat)
    requires Placed(nodes, at) && SessionOk(nodes, at, s) && j < |s.pipeline| && |own'| == |own|
    requires Done(step, nodes, leaves, held, s, own, none, j)
    requires forall t: nat :: t < |own| && t < s.pipeline[j].first ==> own'[t] == own[t]
    requires EntryDone(step, nodes, leaves, held, s, own', none, j)
    ensures Done(step, nodes, leaves, held, s, own', none, j + 1)
  {
    forall i: nat | i < j ensures EntryDone(step, nodes, leaves, held, s, own', none, i) {
      assert EntryDone(step, nodes, leaves, held, s, own, none, i);
      InputsKept(nodes, at, leaves, held, s, own, own', none, i, j);
      FirstRises(nodes, at, s, i, j);
    }
  }

  /** Runs entry j: all its outputs, from the inputs vs. */
  method RunEntry<T>(step: (nat, seq<T>, nat) -> T, nodes: Nodes, ghost at: Placement, ghost leaves: seq<T>,
      ghost held: seq<seq<T>>, s: Session, own: seq<T>, ghost none: T, j: nat, vs: seq<T>) returns (own': seq<T>)
    requires Placed(nodes, at) && SessionOk(nodes, at, s) && j < |s.pipeline| && |own| == s.tensors
    requires Done(step, nodes, leaves, held, s, own, none, j) && vs == Inputs(leaves, held, s, own, none, j)
    ensures |own'| == |own| && Done(step, nodes, leaves, held, s, own', none, j + 1)
    ensures s.pipeline[j].expr < |nodes|
    ensures forall t: nat :: t < |own| && t < s.pipeline[j].first ==> own'[t] == own[t]
    ensures forall t: nat :: s.pipeline[j].first + nodes[s.pipeline[j].expr].outputs <= t < |own| ==> own'[t] == own[t]
  {
    var e, first := s.pipeline[j].expr, s.pipeline[j].first;
    EntryFits(nodes, at, s, j);
    own' := own;
    for k := 0 to nodes[e].outputs
      invariant |own'| == |own|
      invariant forall t: nat :: t < |own| && (t < first || first + k <= t) ==> own'[t] == own[t]
      invariant forall x: nat :: x < k ==> own'[first + x] == step(j, vs, x)
    {
      own' := own'[first + k := step(j, vs, k)];
    }
    InputsKept(nodes, at, leaves, held, s, own, own', none, j, j);
    DoneStep(step, nodes, at, leaves, held, s, own, own', none, j);
  }

  /** What entry j reads, one input after the other. */
  method FetchInputs<T>(leaves: seq<T>, held: seq<seq<T>>, s: Session, own: seq<T>, none: T, j: nat)
    returns (vs: seq<T>)
    requires j < |s.pipeline|
    ensures vs == Inputs(leaves, held, s, own, none, j)
  {
    vs := [];
    for i := 0 to |s.pipeline[j].inputs|
      invariant |vs| == i
      invariant forall x :: 0 <= x < i ==> vs[x] == Fetch(leaves, held, s, own, none, s.pipeline[j].inputs[x])
    {
      vs := vs + [Fetch(leaves, held, s, own, none, s.pipeline[j].inputs[i])];
    }
  }

  /** A resolved source yields what its port denotes. */
  lemma FetchIsDen<T>(f: (nat, seq<T>, nat) -> T, nodes: Nodes, leaves: seq<T>, at: Placement, held: seq<seq<T>>,
      s: Session, own: seq<T>, none: T, j: nat, p: Port, src: Source)
    requires Acyclic(nodes) && |leaves| == |nodes| && Placed(nodes, at) && j < |s.pipeline|
    requires Resolves(nodes, at, s, j, p, src) && NodeOk(nodes, p.expr)
    requires InputsHold(f, nodes, leaves, at, held, s) && HasRun(f, nodes, leaves, s, own, j)
    ensures Fetch(leaves, held, s, own, none, src) == Den(f, nodes, leaves, p)
  {
    if !IsLeaf(nodes, p.expr) {
      match src
      case CacheTensor(d, t) =>
        HeldIsDen(f, nodes, leaves, held[d], p, at.offsetOf[p.expr]);
      case OwnTensor(k, index) =>
        HeldIsDen(f, nodes, leaves, own, p, s.pipeline[k].first);
    }
  }

  lemma HeldIsDen<T>(f: (nat, seq<T>, nat) -> T, nodes: Nodes, leaves: seq<T>, own: seq<T>, p: Port, first: nat)
    requires Acyclic(nodes) && |leaves| == |nodes| && IsPort(nodes, p) && Holds(f, nodes, leaves, own, p.expr, first)
    ensures first + p.index < |own| && own[first + p.index] == Den(f, nodes, leaves, p)
  {
    assert HoldsAt(f, nodes, leaves, own, Port(p.expr, p.index), first + p.index);
  }

  /** So an entry reads what its inputs denote. */
  lemma InputsAreDen<T>(f: (nat, seq<T>, nat) -> T, nodes: Nodes, leaves: seq<T>, at: Placement, held: seq<seq<T>>,
      s: Session, own: seq<T>, none: T, j: nat)
    requires Acyclic(nodes) && |leaves| == |nodes| && Placed(nodes, at) && SessionOk(nodes, at, s) && j < |s.pipeline|
    requires InputsHold(f, nodes, leaves, at, held, s) && HasRun(f, nodes, leaves, s, own, j)
    ensures s.pipeline[j].expr < |nodes|
    ensures Inputs(leaves, held, s, own, none, j) ==
      DenPrefix(f, nodes, leaves, s.pipeline[j].expr, |nodes[s.pipeline[j].expr].inputs|)
  {
    assert EntryOk(nodes, at, s, j);
    var entry := s.pipeline[j];
    assert NodeOk(nodes, entry.expr);
    forall i | 0 <= i < |entry.inputs|
      ensures Fetch(leaves, held, s, own, none, entry.inputs[i]) ==
        DenPrefix(f, nodes, leaves, entry.expr, |nodes[entry.expr].inputs|)[i]
    {
      var p := nodes[entry.expr].inputs[i];
      assert Resolves(nodes, at, s, j, p, entry.inputs[i]) && NodeOk(nodes, p.expr);
      FetchIsDen(f, nodes, leaves, at, held, s, own, none, j, p, entry.inputs[i]);
      DenPrefixAt(f, nodes, leaves, entry.expr, |nodes[entry.expr].inputs|, i);
    }
  }

  /** At entry j, step does to the right inputs what f does. */
  ghost predicate Agrees<T>(step: (nat, seq<T>, nat) -> T, f: (nat, seq<T>, nat) -> T, nodes: Nodes, leaves: seq<T>,
      s: Session, j: nat)
    requires Acyclic(nodes) && |leaves| == |nodes| && j < |s.pipeline|
  {
    var e := s.pipeline[j].expr;
    e < |nodes| && !IsLeaf(nodes, e) && forall k: nat :: k < nodes[e].outputs ==>
      var vs := DenPrefix(f, nodes, leaves, e, |nodes[e].inputs|);
      step(j, vs, k) == f(nodes[e].op.value, vs, k)
  }

  /** If it does so at every entry, going through the pipeline computes what the expressions denote. */
  lemma {:induction false} DoneIsDen<T>(step: (nat, seq<T>, nat) -> T, f: (nat, seq<T>, nat) -> T, nodes: Nodes,
      leaves: seq<T>, at: Placement, held: seq<seq<T>>, s: Session, own: seq<T>, none: T, n: nat)
    requires Acyclic(nodes) && |leaves| == |nodes| && Placed(nodes, at) && SessionOk(nodes, at, s) && n <= |s.pipeline|
    requires InputsHold(f, nodes, leaves, at, held, s) && Done(step, nodes, leaves, held, s, own, none, n)
    requires forall j: nat :: j < n ==> Agrees(step, f, nodes, leaves, s, j)
    ensures HasRun(f, nodes, leaves, s, own, n)
  {
    if n > 0 {
      DoneIsDen(step, f, nodes, leaves, at, held, s, own, none, n - 1);
      InputsAreDen(f, nodes, leaves, at, held, s, own, none, n - 1);
      assert EntryDone(step, nodes, leaves, held, s, own, none, n - 1) && Agrees(step, f, nodes, leaves, s, n - 1);
      var e, first := s.pipeline[n - 1].expr, s.pipeline[n - 1].first;
      forall k: nat | k < nodes[e].outputs ensures HoldsAt(f, nodes, leaves, own, Port(e, k), first + k) {
      }
      assert Holds(f, nodes, leaves, own, e, first);
    }
  }

  /** After the whole pipeline every expression placed in it is there. */
  lemma RunHoldsAll<T>(f: (nat, seq<T>, nat) -> T, nodes: Nodes, leaves: seq<T>, at: Placement, s: Session,
      own: seq<T>, c: nat)
    requires Acyclic(nodes) && |leaves| == |nodes| && Placed(nodes, at)
    requires HasRun(f, nodes, leaves, s, own, |s.pipeline|)
    requires forall e: nat :: e < |nodes| && at.cacheOf[e] == Some(c) ==> HasEntry(s, e, at.offsetOf[e])
    ensures HoldsAll(f, nodes, leaves, at, own, c)
  {
    forall e: nat | e < |nodes| && at.cacheOf[e] == Some(c) ensures Holds(f, nodes, leaves, own, e, at.offsetOf[e]) {
      var j: nat :| j < |s.pipeline| && IsEntry(s, j, e, at.offsetOf[e]);
    }
  }

  // ---------------------------------------------------------------- sizes

  /** Inferring the shapes of the pipeline's tensors. */
  function SizeStep(sem: Semantics, nodes: Nodes, s: Session): (nat, seq<Shape>, nat) -> Shape {
    (j: nat, vs: seq<Shape>, k: nat) =>
      if j < |s.pipeline| && s.pipeline[j].expr < |nodes| && nodes[s.pipeline[j].expr].op.Some?
      then sem.infer(nodes[s.pipeline[j].expr].op.value, vs, k) else []
  }

  /** Running the operators, prepared for inputs of the sizes given, entry by entry. */
  function RunStep(sem: Semantics, nodes: Nodes, s: Session, sizes: seq<seq<Shape>>): (nat, seq<Value>, nat) -> Value {
    (j: nat, vs: seq<Value>, k: nat) =>
      if j < |s.pipeline| && j < |sizes| && s.pipeline[j].expr < |nodes| && nodes[s.pipeline[j].expr].op.Some?
      then sem.Exec(nodes[s.pipeline[j].expr].op.value, sizes[j], vs, k) else Value([], [])
  }

  /** Entry j has a shape and is prepared for inputs of the sizes they should have now. */
  ghost predicate SizedAt(sem: Semantics, nodes: Nodes, shapes: seq<Shape>, s: Session, sizes: seq<seq<Shape>>, j: nat)
    requires Acyclic(nodes) && |shapes| == |nodes| && j < |s.pipeline|
  {
    var e := s.pipeline[j].expr;
    && j < |sizes| && e < |nodes| && HasShape(sem, nodes, shapes, e)
    && sizes[j] == DenPrefix(sem.infer, nodes, shapes, e, |nodes[e].inputs|)
  }

  /** So are all entries, and the tensors have the right dimensions. */
  ghost predicate Sized(sem: Semantics, nodes: Nodes, shapes: seq<Shape>, s: Session, dims: seq<Shape>,
      sizes: seq<seq<Shape>>)
    requires Acyclic(nodes) && |shapes| == |nodes|
  {
    && HasRun(sem.infer, nodes, shapes, s, dims, |s.pipeline|)
    && forall j: nat :: j < |s.pipeline| ==> SizedAt(sem, nodes, shapes, s, sizes, j)
  }

  /** A session that is prepared for the right sizes, run on the right inputs, computes what its expressions denote. */
  lemma SizedRunIsDen(sem: Semantics, nodes: Nodes, values: seq<Value>, shapes: seq<Shape>, at: Placement,
      tensors: seq<seq<Value>>, s: Session, dims: seq<Shape>, sizes: seq<seq<Shape>>, own: seq<Value>)
    requires Acyclic(nodes) && |values| == |nodes| && shapes == Dims(values) && Placed(nodes, at)
    requires SessionOk(nodes, at, s) && Sized(sem, nodes, shapes, s, dims, sizes)
    requires InputsHold(sem.Whole(), nodes, values, at, tensors, s)
    requires Done(RunStep(sem, nodes, s, sizes), nodes, values, tensors, s, own, Value([], []), |s.pipeline|)
    ensures HasRun(sem.Whole(), nodes, values, s, own, |s.pipeline|)
  {
    forall j: nat | j < |s.pipeline| ensures Agrees(RunStep(sem, nodes, s, sizes), sem.Whole(), nodes, values, s, j) {
      assert SizedAt(sem, nodes, shapes, s, sizes, j) && EntryOk(nodes, at, s, j);
      var e := s.pipeline[j].expr;
      DenPrefixDims(sem, nodes, values, shapes, e, |nodes[e].inputs|);
    }
    DoneIsDen(RunStep(sem, nodes, s, sizes), sem.Whole(), nodes, values, at, tensors, s, own, Value([], []),
      |s.pipeline|);
  }

  // ---------------------------------------------------------------- change

  lemma HoldsUnaffected<T>(f: (nat, seq<T>, nat) -> T, nodes: Nodes, leaves: seq<T>, own: seq<T>, e: nat, first: nat,
      leaf: nat, v: T)
    requires Acyclic(nodes) && |leaves| == |nodes| && leaf < |nodes| && Holds(f, nodes, leaves, own, e, first)
    requires e != leaf && !DependsOn(nodes, e, leaf)
    ensures Holds(f, nodes, leaves[leaf := v], own, e, first)
  {
    forall k: nat | k < nodes[e].outputs ensures HoldsAt(f, nodes, leaves[leaf := v], own, Port(e, k), first + k) {
      assert HoldsAt(f, nodes, leaves, own, Port(e, k), first + k);
      DenUnaffected(f, nodes, leaves, leaf, v, Port(e, k));
    }
  }

  /** A leaf that nothing in the cache depends on may change. */
  lemma HoldsAllUnaffected<T>(f: (nat, seq<T>, nat) -> T, nodes: Nodes, leaves: seq<T>, at: Placement, own: seq<T>,
      c: nat, leaf: nat, v: T)
    requires Acyclic(nodes) && |leaves| == |nodes| && Placed(nodes, at) && leaf < |nodes|
    requires HoldsAll(f, nodes, leaves, at, own, c)
    requires forall e: nat :: e < |nodes| && at.cacheOf[e] == Some(c) ==> e != leaf && !DependsOn(nodes, e, leaf)
    ensures HoldsAll(f, nodes, leaves[leaf := v], at, own, c)
  {
    forall e: nat | e < |nodes| && at.cacheOf[e] == Some(c)
      ensures Holds(f, nodes, leaves[leaf := v], own, e, at.offsetOf[e])
    {
      HoldsUnaffected(f, nodes, leaves, own, e, at.offsetOf[e], leaf, v);
    }
  }

  /** And one that nothing in the pipeline depends on may be resized. */
  lemma SizedUnaffected(sem: Semantics, nodes: Nodes, shapes: seq<Shape>, at: Placement, s: Session, dims: seq<Shape>,
      sizes: seq<seq<Shape>>, leaf: nat, v: Shape)
    requires Acyclic(nodes) && |shapes| == |nodes| && Placed(nodes, at) && SessionOk(nodes, at, s) && leaf < |nodes|
    requires IsLeaf(nodes, leaf) && Sized(sem, nodes, shapes, s, dims, sizes)
    requires forall j: nat :: j < |s.pipeline| ==> !DependsOn(nodes, s.pipeline[j].expr, leaf)
    ensures Sized(sem, nodes, shapes[leaf := v], s, dims, sizes)
  {
    forall j: nat | j < |s.pipeline|
      ensures Holds(sem.infer, nodes, shapes[leaf := v], dims, s.pipeline[j].expr, s.pipeline[j].first)
      ensures SizedAt(sem, nodes, shapes[leaf := v], s, sizes, j)
    {
      var e := s.pipeline[j].expr;
      assert EntryOk(nodes, at, s, j) && SizedAt(sem, nodes, shapes, s, sizes, j);
      HoldsUnaffected(sem.infer, nodes, shapes, dims, e, s.pipeline[j].first, leaf, v);
      DenPrefixUnaffected(sem.infer, nodes, shapes, leaf, v, e, |nodes[e].inputs|);
      HasShapeUnaffected(sem, nodes, shapes, leaf, v, e);
    }
  }

  function Grown(at: Placement): Placement {
    Placement(at.cacheOf + [None], at.offsetOf + [0])
  }

  lemma HoldsGrows<T>(f: (nat, seq<T>, nat) -> T, nodes: Nodes, leaves: seq<T>, own: seq<T>, e: nat, first: nat,
      node: Node, v: T)
    requires Acyclic(nodes) && Acyclic(nodes + [node]) && |leaves| == |nodes| && Holds(f, nodes, leaves, own, e, first)
    ensures Holds(f, nodes + [node], leaves + [v], own, e, first)
  {
    forall k: nat | k < nodes[e].outputs
      ensures HoldsAt(f, nodes + [node], leaves + [v], own, Port(e, k), first + k)
    {
      assert HoldsAt(f, nodes, leaves, own, Port(e, k), first + k);
      DenGrows(f, nodes, leaves, node, v, Port(e, k));
    }
  }

  lemma HoldsAllGrows<T>(f: (nat, seq<T>, nat) -> T, nodes: Nodes, leaves: seq<T>, at: Placement, own: seq<T>, c: nat,
      node: Node, v: T)
    requires Acyclic(nodes) && Acyclic(nodes + [node]) && |leaves| == |nodes| && Placed(nodes, at)
    requires HoldsAll(f, nodes, leaves, at, own, c)
    ensures HoldsAll(f, nodes + [node], leaves + [v], Grown(at), own, c)
  {
    forall e: nat | e < |nodes| + 1 && Grown(at).cacheOf[e] == Some(c)
      ensures Holds(f, nodes + [node], leaves + [v], own, e, Grown(at).offsetOf[e])
    {
      HoldsGrows(f, nodes, leaves, own, e, at.offsetOf[e], node, v);
    }
  }

  lemma SizedGrows(sem: Semantics, nodes: Nodes, shapes: seq<Shape>, s: Session, dims: seq<Shape>,
      sizes: seq<seq<Shape>>, node: Node, v: Shape)
    requires Acyclic(nodes) && Acyclic(nodes + [node]) && |shapes| == |nodes|
    requires Sized(sem, nodes, shapes, s, dims, sizes)
    ensures Sized(sem, nodes + [node], shapes + [v], s, dims, sizes)
  {
    forall j: nat | j < |s.pipeline|
      ensures Holds(sem.infer, nodes + [node], shapes + [v], dims, s.pipeline[j].expr, s.pipeline[j].first)
      ensures SizedAt(sem, nodes + [node], shapes + [v], s, sizes, j)
    {
      var e := s.pipeline[j].expr;
      assert SizedAt(sem, nodes, shapes, s, sizes, j);
      HoldsGrows(sem.infer, nodes, shapes, dims, e, s.pipeline[j].first, node, v);
      DenPrefixGrows(sem.infer, nodes, shapes, node, v, e, |nodes[e].inputs|);
      HasShapeGrows(sem, nodes, shapes, node, v, e);
    }
  }

  lemma SessionOkGrows(nodes: Nodes, at: Placement, s: Session, node: Node)
    requires Placed(nodes, at) && SessionOk(nodes, at, s)
    ensures SessionOk(nodes + [node], Grown(at), s)
  {
    forall j: nat | j < |s.pipeline| ensures EntryOk(nodes + [node], Grown(at), s, j) {
      assert EntryOk(nodes, at, s, j);
      var entry := s.pipeline[j];
      forall i | 0 <= i < |entry.inputs|
        ensures Resolves(nodes + [node], Grown(at), s, j, (nodes + [node])[entry.expr].inputs[i], entry.inputs[i])
      {
        assert Resolves(nodes, at, s, j, nodes[entry.expr].inputs[i], entry.inputs[i]);
      }
    }
  }

  /** Placing expressions that had no cache changes no older session. */
  lemma SessionOkPlaced(nodes: Nodes, at: Placement, at': Placement, s: Session)
    requires Placed(nodes, at) && Placed(nodes, at') && SessionOk(nodes, at, s)
    requires forall e: nat :: e < |nodes| && at.cacheOf[e].Some? ==>
      at'.cacheOf[e] == at.cacheOf[e] && at'.offsetOf[e] == at.offsetOf[e]
    ensures SessionOk(nodes, at', s)
  {
    forall j: nat | j < |s.pipeline| ensures EntryOk(nodes, at', s, j) {
      assert EntryOk(nodes, at, s, j);
      var entry := s.pipeline[j];
      forall i | 0 <= i < |entry.inputs|
        ensures Resolves(nodes, at', s, j, nodes[entry.expr].inputs[i], entry.inputs[i])
      {
        assert Resolves(nodes, at, s, j, nodes[entry.expr].inputs[i], entry.inputs[i]);
      }
    }
  }
}
