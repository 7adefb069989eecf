/**
 `Expr::replace` (express/Expr.cpp:503-569) as substitution. Replacing rewires expressions in place,
 so that inputs need no longer have smaller numbers: here a rank orders the graph instead.
 */
module Substitution {
  import opened Wrappers
  import opened ExprModel
  import opened ExprGraphs
  import opened InformDirty

  type Ranks = seq<nat>

  ghost predicate RankOk(nodes: Nodes, rank: Ranks, e: nat)
    requires e < |nodes| && |rank| == |nodes|
  {
    && (IsLeaf(nodes, e) ==> nodes[e].inputs == [])
    && forall i :: 0 <= i < |nodes[e].inputs| ==>
         IsPort(nodes, nodes[e].inputs[i]) && rank[nodes[e].inputs[i].expr] < rank[e]
  }

  /** The graph is acyclic, as the ranks show. */
  ghost predicate Ranked(nodes: Nodes, rank: Ranks) {
    |rank| == |nodes| && forall e: nat :: e < |nodes| ==> RankOk(nodes, rank, e)
  }

  // ---------------------------------------------------------------- meaning

  /** The value of p where expression `hole` stands for the given outputs; leaves hold `values`. */
  ghost function Eval<T>(f: (nat, seq<T>, nat) -> T, nodes: Nodes, rank: Ranks, values: seq<T>, hole: Option<nat>,
      outputs: nat -> T, p: Port): T
    requires Ranked(nodes, rank) && |values| == |nodes| && IsPort(nodes, p)
    decreases rank[p.expr], 1, 0
  {
    if hole == Some(p.expr) then outputs(p.index)
    else if IsLeaf(nodes, p.expr) then values[p.expr]
    else
      assert RankOk(nodes, rank, p.expr);
      f(nodes[p.expr].op.value, EvalPrefix(f, nodes, rank, values, hole, outputs, p.expr, |nodes[p.expr].inputs|),
        p.index)
  }

  ghost function EvalPrefix<T>(f: (nat, seq<T>, nat) -> T, nodes: Nodes, rank: Ranks, values: seq<T>, hole: Option<nat>,
      outputs: nat -> T, e: nat, n: nat): (vs: seq<T>)
    requires Ranked(nodes, rank) && |values| == |nodes| && e < |nodes| && n <= |nodes[e].inputs|
    ensures |vs| == n
    decreases rank[e], 0, n
  {
    if n == 0 then []
    else
      assert RankOk(nodes, rank, e);
      EvalPrefix(f, nodes, rank, values, hole, outputs, e, n - 1) +
        [Eval(f, nodes, rank, values, hole, outputs, nodes[e].inputs[n - 1])]
  }

  /** The numbering in creation order is a ranking, and with it this is the value from scratch. */
  lemma {:induction false} EvalIsDen<T>(f: (nat, seq<T>, nat) -> T, nodes: Nodes, rank: Ranks, values: seq<T>,
      outputs: nat -> T, p: Port)
    requires Acyclic(nodes) && Ranked(nodes, rank) && |values| == |nodes| && IsPort(nodes, p)
    ensures Eval(f, nodes, rank, values, None, outputs, p) == Den(f, nodes, values, p)
    decreases p.expr, 1, 0
  {
    if !IsLeaf(nodes, p.expr) {
      PrefixIsDen(f, nodes, rank, values, outputs, p.expr, |nodes[p.expr].inputs|);
    }
  }

  lemma {:induction false} PrefixIsDen<T>(f: (nat, seq<T>, nat) -> T, nodes: Nodes, rank: Ranks, values: seq<T>,
      outputs: nat -> T, e: nat, n: nat)
    requires Acyclic(nodes) && Ranked(nodes, rank) && |values| == |nodes| && e < |nodes| && n <= |nodes[e].inputs|
    ensures EvalPrefix(f, nodes, rank, values, None, outputs, e, n) == DenPrefix(f, nodes, values, e, n)
    decreases e, 0, n
  {
    if n > 0 {
      assert NodeOk(nodes, e);
      PrefixIsDen(f, nodes, rank, values, outputs, e, n - 1);
      EvalIsDen(f, nodes, rank, values, outputs, nodes[e].inputs[n - 1]);
    }
  }

  /** Expression e has d among its transitive inputs. */
  ghost predicate Needs(nodes: Nodes, rank: Ranks, e: nat, d: nat)
    requires Ranked(nodes, rank)
    decreases if e < |rank| then rank[e] else 0, 1
  {
    e < |nodes| && RankOk(nodes, rank, e) && exists i: nat ::
      i < |nodes[e].inputs| && NeedsThrough(nodes, rank, e, i, d)
  }

  ghost predicate NeedsThrough(nodes: Nodes, rank: Ranks, e: nat, i: nat, d: nat)
    requires Ranked(nodes, rank) && e < |nodes| && RankOk(nodes, rank, e) && i < |nodes[e].inputs|
    decreases rank[e], 0
  {
    nodes[e].inputs[i].expr == d || Needs(nodes, rank, nodes[e].inputs[i].expr, d)
  }

  // ---------------------------------------------------------------- substitution

  /** Replacing: dst becomes another src. */
  function Replaced(nodes: Nodes, dst: nat, src: nat): Nodes
    requires dst < |nodes| && src < |nodes|
  {
    nodes[dst := nodes[src]]
  }

  ghost predicate CanReplace(nodes: Nodes, rank: Ranks, dst: nat, src: nat) {
    && Ranked(nodes, rank) && dst < |nodes| && src < |nodes| && dst != src
    && nodes[src].outputs == nodes[dst].outputs && !Needs(nodes, rank, src, dst)
  }

  ghost function Above(rank: Ranks): (m: nat)
    ensures forall e :: 0 <= e < |rank| ==> rank[e] < m
  {
    if rank == [] then 0
    else
      var m := Above(rank[..|rank| - 1]);
      if rank[|rank| - 1] < m then m else rank[|rank| - 1] + 1
  }

  ghost function LiftedRank(nodes: Nodes, rank: Ranks, dst: nat, e: nat): nat
    requires Ranked(nodes, rank) && e < |rank|
  {
    if e == dst || Needs(nodes, rank, e, dst) then rank[e] + Above(rank) else rank[e]
  }

  /** Everything that needs the replaced expression, and it itself, moves above all the rest. */
  ghost function Lifted(nodes: Nodes, rank: Ranks, dst: nat): (r: Ranks)
    requires Ranked(nodes, rank)
    ensures |r| == |rank|
    ensures forall e :: 0 <= e < |r| ==>
      r[e] == if e == dst || Needs(nodes, rank, e, dst) then rank[e] + Above(rank) else rank[e]
  {
    seq(|rank|, e requires 0 <= e < |rank| => LiftedRank(nodes, rank, dst, e))
  }

  /** The graph stays acyclic. */
  lemma ReplacedIsRanked(nodes: Nodes, rank: Ranks, dst: nat, src: nat)
    requires CanReplace(nodes, rank, dst, src)
    ensures Ranked(Replaced(nodes, dst, src), Lifted(nodes, rank, dst))
  {
    var nodes', rank' := Replaced(nodes, dst, src), Lifted(nodes, rank, dst);
    forall e: nat | e < |nodes| ensures RankOk(nodes', rank', e) {
      var source := if e == dst then src else e;
      assert RankOk(nodes, rank, source) && nodes'[e] == nodes[source];
      forall i: nat | i < |nodes'[e].inputs|
        ensures IsPort(nodes', nodes'[e].inputs[i]) && rank'[nodes'[e].inputs[i].expr] < rank'[e]
      {
        var d := nodes'[e].inputs[i].expr;
        assert IsPort(nodes, nodes[source].inputs[i]);
        assert (d == dst || Needs(nodes, rank, d, dst)) ==> NeedsThrough(nodes, rank, source, i, dst);
      }
    }
  }

  /** What does not need old is not affected. */
  lemma {:induction false} EvalUntouched<T>(f: (nat, seq<T>, nat) -> T, nodes: Nodes, rank: Ranks, values: seq<T>,
      dst: nat, src: nat, outputs: nat -> T, p: Port)
    requires CanReplace(nodes, rank, dst, src) && |values| == |nodes| && IsPort(nodes, p)
    requires p.expr != dst && !Needs(nodes, rank, p.expr, dst)
    ensures Ranked(Replaced(nodes, dst, src), Lifted(nodes, rank, dst)) && IsPort(Replaced(nodes, dst, src), p)
    ensures Eval(f, Replaced(nodes, dst, src), Lifted(nodes, rank, dst), values[dst := values[src]], None,
        outputs, p) ==
      Eval(f, nodes, rank, values, None, outputs, p)
    decreases rank[p.expr], 1, 0
  {
    ReplacedIsRanked(nodes, rank, dst, src);
    if !IsLeaf(nodes, p.expr) {
      PrefixUntouched(f, nodes, rank, values, dst, src, outputs, p.expr, p.expr, |nodes[p.expr].inputs|);
    }
  }

  /** The inputs of e, or of old once it is a copy of e. */
  lemma {:induction false} PrefixUntouched<T>(f: (nat, seq<T>, nat) -> T, nodes: Nodes, rank: Ranks, values: seq<T>,
      dst: nat, src: nat, outputs: nat -> T, e: nat, e': nat, n: nat)
    requires CanReplace(nodes, rank, dst, src) && |values| == |nodes| && e < |nodes| && n <= |nodes[e].inputs|
    requires e != dst && !Needs(nodes, rank, e, dst) && (e' == e || (e == src && e' == dst))
    ensures Ranked(Replaced(nodes, dst, src), Lifted(nodes, rank, dst))
    ensures EvalPrefix(f, Replaced(nodes, dst, src), Lifted(nodes, rank, dst), values[dst := values[src]], None,
        outputs, e', n) ==
      EvalPrefix(f, nodes, rank, values, None, outputs, e, n)
    decreases rank[e], 0, n
  {
    ReplacedIsRanked(nodes, rank, dst, src);
    if n > 0 {
      assert RankOk(nodes, rank, e);
      assert !NeedsThrough(nodes, rank, e, n - 1, dst);
      PrefixUntouched(f, nodes, rank, values, dst, src, outputs, e, e', n - 1);
      EvalUntouched(f, nodes, rank, values, dst, src, outputs, nodes[e].inputs[n - 1]);
    }
  }

  /** After the replacement dst means what src meant. */
  lemma OldMeansFrom<T>(f: (nat, seq<T>, nat) -> T, nodes: Nodes, rank: Ranks, values: seq<T>, dst: nat, src: nat,
      outputs: nat -> T, k: nat)
    requires CanReplace(nodes, rank, dst, src) && |values| == |nodes| && k < nodes[dst].outputs
    ensures Ranked(Replaced(nodes, dst, src), Lifted(nodes, rank, dst))
    ensures IsPort(Replaced(nodes, dst, src), Port(dst, k))
    ensures Eval(f, Replaced(nodes, dst, src), Lifted(nodes, rank, dst), values[dst := values[src]], None,
        outputs, Port(dst, k)) ==
      Eval(f, nodes, rank, values, None, outputs, Port(src, k))
  {
    ReplacedIsRanked(nodes, rank, dst, src);
    if !IsLeaf(nodes, src) {
      PrefixUntouched(f, nodes, rank, values, dst, src, outputs, src, dst, |nodes[src].inputs|);
    }
  }

  /** And everything means what it meant with src in the place of dst. */
  lemma {:induction false} ReplaceIsSubstitution<T>(f: (nat, seq<T>, nat) -> T, nodes: Nodes, rank: Ranks,
      values: seq<T>, dst: nat, src: nat, outputs: nat -> T, p: Port)
    requires CanReplace(nodes, rank, dst, src) && |values| == |nodes| && IsPort(nodes, p)
    requires forall k: nat :: k < nodes[src].outputs ==>
      outputs(k) == Eval(f, nodes, rank, values, None, outputs, Port(src, k))
    ensures Ranked(Replaced(nodes, dst, src), Lifted(nodes, rank, dst)) && IsPort(Replaced(nodes, dst, src), p)
    ensures Eval(f, Replaced(nodes, dst, src), Lifted(nodes, rank, dst), values[dst := values[src]], None,
        outputs, p) ==
      Eval(f, nodes, rank, values, Some(dst), outputs, p)
    decreases rank[p.expr], 1, 0
  {
    ReplacedIsRanked(nodes, rank, dst, src);
    if p.expr == dst {
      OldMeansFrom(f, nodes, rank, values, dst, src, outputs, p.index);
      assert p == Port(dst, p.index);
    } else if !IsLeaf(nodes, p.expr) {
      PrefixIsSubstitution(f, nodes, rank, values, dst, src, outputs, p.expr, |nodes[p.expr].inputs|);
    }
  }

  lemma {:induction false} PrefixIsSubstitution<T>(f: (nat, seq<T>, nat) -> T, nodes: Nodes, rank: Ranks,
      values: seq<T>, dst: nat, src: nat, outputs: nat -> T, e: nat, n: nat)
    requires CanReplace(nodes, rank, dst, src) && |values| == |nodes| && e < |nodes| && e != dst
    requires n <= |nodes[e].inputs|
    requires forall k: nat :: k < nodes[src].outputs ==>
      outputs(k) == Eval(f, nodes, rank, values, None, outputs, Port(src, k))
    ensures Ranked(Replaced(nodes, dst, src), Lifted(nodes, rank, dst))
    ensures EvalPrefix(f, Replaced(nodes, dst, src), Lifted(nodes, rank, dst), values[dst := values[src]], None,
        outputs, e, n) ==
      EvalPrefix(f, nodes, rank, values, Some(dst), outputs, e, n)
    decreases rank[e], 0, n
  {
    ReplacedIsRanked(nodes, rank, dst, src);
    if n > 0 {
      assert RankOk(nodes, rank, e);
      PrefixIsSubstitution(f, nodes, rank, values, dst, src, outputs, e, n - 1);
      ReplaceIsSubstitution(f, nodes, rank, values, dst, src, outputs, nodes[e].inputs[n - 1]);
    }
  }

  // ---------------------------------------------------------------- the links

  /** What expressions can share: contents, the cache and whether the shape is known. */
  datatype Inside = Inside(content: Value, cache: Option<nat>, cacheOffset: nat, infoDirty: bool)

  /** Consumer lists hold exactly the consumers, besides slots that have been reset. */
  ghost predicate SlotsLinked(nodes: Nodes, to: seq<seq<Option<nat>>>) {
    |to| == |nodes| && forall e: nat, x: nat :: e < |nodes| ==> (Some(x) in to[e] <==> Consumes(nodes, x, e))
  }

  /** Resets every slot of x in one list. */
  method ResetSlots(list0: seq<Option<nat>>, x: nat) returns (list: seq<Option<nat>>)
    ensures forall y: nat :: Some(y) in list <==> y != x && Some(y) in list0
  {
    list := list0;
    for j := 0 to |list0|
      invariant |list| == |list0|
      invariant forall k :: 0 <= k < |list0| ==> list[k] == if k < j && list0[k] == Some(x) then None else list0[k]
    {
      if list[j] == Some(x) {
        list := list[j := None];
      }
    }
    forall y: nat ensures Some(y) in list <==> y != x && Some(y) in list0 {
      if y != x && Some(y) in list0 {
        var k :| 0 <= k < |list0| && list0[k] == Some(y);
        assert list[k] == Some(y);
      }
    }
  }

  /** Takes dst out of the lists of its inputs. */
  method Unlink(nodes: Nodes, to0: seq<seq<Option<nat>>>, dst: nat) returns (to: seq<seq<Option<nat>>>)
    requires SlotsLinked(nodes, to0) && dst < |nodes|
    requires forall i :: 0 <= i < |nodes[dst].inputs| ==> IsPort(nodes, nodes[dst].inputs[i])
    ensures |to| == |to0| && forall e: nat, y: nat :: e < |to| ==> (Some(y) in to[e] <==> y != dst && Some(y) in to0[e])
  {
    to := to0;
    var inputs := nodes[dst].inputs;
    for i := 0 to |inputs|
      invariant |to| == |to0|
      invariant forall e: nat, y: nat :: e < |to| ==>
        (Some(y) in to[e] <==> Some(y) in to0[e] && !(y == dst && Among(inputs, i, e)))
    {
      ghost var before := to;
      var p := inputs[i].expr;
      var list := ResetSlots(to[p], dst);
      to := to[p := list];
      forall e: nat, y: nat | e < |to|
        ensures Some(y) in to[e] <==> Some(y) in to0[e] && !(y == dst && Among(inputs, i + 1, e))
      {
        assert Among(inputs, i + 1, e) <==> Among(inputs, i, e) || e == p by {
          if e == p {
            assert inputs[i].expr == e;
          }
        }
        assert Some(y) in before[e] <==> Some(y) in to0[e] && !(y == dst && Among(inputs, i, e));
      }
    }
    forall e: nat, y: nat | e < |to| ensures Some(y) in to[e] <==> y != dst && Some(y) in to0[e] {
      if Some(dst) in to0[e] {
        assert Consumes(nodes, dst, e);
        assert Among(inputs, |inputs|, e);
      }
    }
  }

  /** Enters x into a list unless it is there: in the first free slot, or at the end. */
  method EnterSlot(list0: seq<Option<nat>>, x: nat) returns (list: seq<Option<nat>>)
    ensures forall y: nat :: Some(y) in list <==> y == x || Some(y) in list0
  {
    list := list0;
    if Some(x) in list {
      return;
    }
    for j := 0 to |list|
      invariant list == list0
    {
      if list[j] == None {
        list := list[j := Some(x)];
        assert list[j] == Some(x);
        forall y: nat ensures Some(y) in list <==> y == x || Some(y) in list0 {
          if Some(y) in list0 {
            var k :| 0 <= k < |list0| && list0[k] == Some(y);
            assert list[k] == Some(y);
          }
        }
        return;
      }
    }
    list := list + [Some(x)];
  }

  /** Enters dst into the lists of src's inputs. */
  method Relink(to0: seq<seq<Option<nat>>>, inputs: seq<Port>, dst: nat) returns (to: seq<seq<Option<nat>>>)
    requires forall i :: 0 <= i < |inputs| ==> inputs[i].expr < |to0|
    ensures |to| == |to0|
    ensures forall e: nat, y: nat :: e < |to| ==>
      (Some(y) in to[e] <==> Some(y) in to0[e] || (y == dst && Among(inputs, |inputs|, e)))
  {
    to := to0;
    for i := 0 to |inputs|
      invariant |to| == |to0|
      invariant forall e: nat, y: nat :: e < |to| ==>
        (Some(y) in to[e] <==> Some(y) in to0[e] || (y == dst && Among(inputs, i, e)))
    {
      ghost var before := to;
      var p := inputs[i].expr;
      var list := EnterSlot(to[p], dst);
      to := to[p := list];
      forall e: nat, y: nat | e < |to|
        ensures Some(y) in to[e] <==> Some(y) in to0[e] || (y == dst && Among(inputs, i + 1, e))
      {
        assert Among(inputs, i + 1, e) <==> Among(inputs, i, e) || e == p by {
          if e == p {
            assert inputs[i].expr == e;
          }
        }
        assert Some(y) in before[e] <==> Some(y) in to0[e] || (y == dst && Among(inputs, i, e));
      }
    }
  }

  /** The lists are right for the replaced graph. */
  lemma RelinkedIsLinked(nodes: Nodes, dst: nat, src: nat, to0: seq<seq<Option<nat>>>, to1: seq<seq<Option<nat>>>,
      to2: seq<seq<Option<nat>>>)
    requires SlotsLinked(nodes, to0) && dst < |nodes| && src < |nodes| && |to1| == |to0| && |to2| == |to0|
    requires forall e: nat, y: nat :: e < |to1| ==> (Some(y) in to1[e] <==> y != dst && Some(y) in to0[e])
    requires forall e: nat, y: nat :: e < |to2| ==>
      (Some(y) in to2[e] <==> Some(y) in to1[e] || (y == dst && Among(nodes[src].inputs, |nodes[src].inputs|, e)))
    ensures SlotsLinked(Replaced(nodes, dst, src), to2)
  {
    var nodes' := Replaced(nodes, dst, src);
    forall e: nat, x: nat | e < |nodes| ensures Some(x) in to2[e] <==> Consumes(nodes', x, e) {
      if x == dst {
        assert Consumes(nodes', dst, e) <==> Among(nodes[src].inputs, |nodes[src].inputs|, e) by {
          if Among(nodes[src].inputs, |nodes[src].inputs|, e) {
            var k: nat :| k < |nodes[src].inputs| && nodes[src].inputs[k].expr == e;
            assert nodes'[dst].inputs[k].expr == e;
          }
        }
      } else {
        assert Consumes(nodes', x, e) <==> Consumes(nodes, x, e);
      }
    }
  }

  // ---------------------------------------------------------------- the consumers

  ghost predicate OnlyNeeding(nodes: Nodes, rank: Ranks, v0: seq<bool>, v1: seq<bool>, e: nat)
    requires Ranked(nodes, rank)
  {
    forall y: nat :: New(v0, v1, y) ==> Needs(nodes, rank, y, e)
  }

  lemma {:induction false} NeedsTransitive(nodes: Nodes, rank: Ranks, y: nat, x: nat, e: nat)
    requires Ranked(nodes, rank) && Needs(nodes, rank, y, x) && Needs(nodes, rank, x, e)
    ensures Needs(nodes, rank, y, e)
    decreases if y < |rank| then rank[y] else 0
  {
    assert RankOk(nodes, rank, y);
    var i: nat :| i < |nodes[y].inputs| && NeedsThrough(nodes, rank, y, i, x);
    if nodes[y].inputs[i].expr != x {
      NeedsTransitive(nodes, rank, nodes[y].inputs[i].expr, x, e);
    }
    assert NeedsThrough(nodes, rank, y, i, e);
  }

  lemma ConsumerNeeds(nodes: Nodes, rank: Ranks, x: nat, e: nat)
    requires Ranked(nodes, rank) && Consumes(nodes, x, e)
    ensures e < |nodes| && Needs(nodes, rank, x, e) && rank[x] > rank[e]
  {
    assert RankOk(nodes, rank, x);
    var i: nat :| i < |nodes[x].inputs| && nodes[x].inputs[i].expr == e;
    assert NeedsThrough(nodes, rank, x, i, e);
  }

  /** What needs e is exactly what a closed visit from e finds. */
  lemma {:induction false} VisitFindsNeeding(nodes: Nodes, rank: Ranks, e: nat, v0: seq<bool>, v1: seq<bool>, y: nat)
    requires Ranked(nodes, rank) && |v0| == |nodes| && Unvisited(v0) && Grew(v0, v1)
    requires ConsumersIn(nodes, e, v1) && Closed(nodes, v0, v1) && Needs(nodes, rank, y, e)
    ensures y < |v1| && v1[y]
    decreases if y < |rank| then rank[y] else 0
  {
    assert RankOk(nodes, rank, y);
    var i: nat :| i < |nodes[y].inputs| && NeedsThrough(nodes, rank, y, i, e);
    var d := nodes[y].inputs[i].expr;
    assert Consumes(nodes, y, d);
    if d != e {
      VisitFindsNeeding(nodes, rank, e, v0, v1, d);
      assert New(v0, v1, d) && ConsumersIn(nodes, d, v1);
    }
  }

  function Dropped(s: Inside): Inside {
    s.(cache := None, cacheOffset := 0, infoDirty := true)
  }

  /** Something newly visited has h inside. */
  ghost predicate Holder(inside: seq<nat>, v0: seq<bool>, v1: seq<bool>, h: nat) {
    exists y: nat :: New(v0, v1, y) && y < |inside| && inside[y] == h
  }

  /** Everything newly visited has lost its cache and its shape, and nothing else has. */
  ghost predicate DroppedBy(inside: seq<nat>, v0: seq<bool>, v1: seq<bool>, before: seq<Inside>, after: seq<Inside>) {
    |after| == |before| && forall h: nat :: h < |before| ==>
      after[h] == if Holder(inside, v0, v1, h) then Dropped(before[h]) else before[h]
  }

  ghost predicate ValidBy(v0: seq<bool>, v1: seq<bool>, before: seq<bool>, after: seq<bool>) {
    |after| == |before| && forall y: nat :: y < |before| ==> after[y] == (before[y] || New(v0, v1, y))
  }

  ghost predicate SameConsumers(before: seq<seq<Option<nat>>>, after: seq<seq<Option<nat>>>) {
    |after| == |before| && forall e: nat, x: nat :: e < |before| ==> (Some(x) in after[e] <==> Some(x) in before[e])
  }

  ghost predicate ListsKeptBelow(rank: Ranks, r: nat, before: seq<seq<Option<nat>>>, after: seq<seq<Option<nat>>>) {
    |after| == |before| && forall d: nat :: d < |before| && d < |rank| && rank[d] < r ==> after[d] == before[d]
  }

  /** What expressions hold, through what is inside them. */
  ghost function ContentsOf(inside: seq<nat>, insides: seq<Inside>): (values: seq<Value>)
    requires forall e: nat :: e < |inside| ==> inside[e] < |insides|
    ensures |values| == |inside| && forall e: nat :: e < |inside| ==> values[e] == insides[inside[e]].content
  {
    seq(|inside|, e requires 0 <= e < |inside| => insides[inside[e]].content)
  }

  /** Something that needs d has h inside. */
  ghost predicate HeldByNeeding(nodes: Nodes, rank: Ranks, inside: seq<nat>, d: nat, h: nat)
    requires Ranked(nodes, rank)
  {
    exists y: nat :: NeedingHolder(nodes, rank, inside, d, h, y)
  }

  ghost predicate NeedingHolder(nodes: Nodes, rank: Ranks, inside: seq<nat>, d: nat, h: nat, y: nat)
    requires Ranked(nodes, rank)
  {
    y < |inside| && inside[y] == h && Needs(nodes, rank, y, d)
  }

  // ---------------------------------------------------------------- caches that are kept

  /** What needed dst still does. */
  lemma {:induction false} StillNeeds(nodes: Nodes, rank: Ranks, dst: nat, src: nat, y: nat)
    requires CanReplace(nodes, rank, dst, src) && y != dst && Needs(nodes, rank, y, dst)
    ensures Ranked(Replaced(nodes, dst, src), Lifted(nodes, rank, dst))
    ensures Needs(Replaced(nodes, dst, src), Lifted(nodes, rank, dst), y, dst)
    decreases if y < |rank| then rank[y] else 0
  {
    ReplacedIsRanked(nodes, rank, dst, src);
    var nodes', rank' := Replaced(nodes, dst, src), Lifted(nodes, rank, dst);
    assert RankOk(nodes, rank, y) && RankOk(nodes', rank', y);
    var i: nat :| i < |nodes[y].inputs| && NeedsThrough(nodes, rank, y, i, dst);
    var d := nodes[y].inputs[i].expr;
    if d != dst {
      StillNeeds(nodes, rank, dst, src, d);
    }
    assert NeedsThrough(nodes', rank', y, i, dst);
  }

  /**
   A cache that replacing keeps still holds the right values: what was right for an expression is, and dst shares what
   is inside src.
   */
  lemma KeptStaysRight<T>(f: (nat, seq<T>, nat) -> T, nodes: Nodes, rank: Ranks, values: seq<T>, outputs: nat -> T,
      inside: seq<nat>, dst: nat, src: nat, y: nat, k: nat)
    requires CanReplace(nodes, rank, dst, src) && |values| == |nodes| == |inside| && y < |nodes|
    requires k < nodes[y].outputs
    ensures var nodes', rank' := Replaced(nodes, dst, src), Lifted(nodes, rank, dst);
      Ranked(nodes', rank') && IsPort(nodes', Port(y, k)) &&
      (!HeldByNeeding(nodes', rank', inside[dst := inside[src]], dst, inside[dst := inside[src]][y]) ==>
        Eval(f, nodes', rank', values[dst := values[src]], None, outputs, Port(y, k)) ==
          Eval(f, nodes, rank, values, None, outputs, Port(if y == dst then src else y, k)))
  {
    ReplacedIsRanked(nodes, rank, dst, src);
    var nodes', rank', inside' := Replaced(nodes, dst, src), Lifted(nodes, rank, dst), inside[dst := inside[src]];
    if y == dst {
      OldMeansFrom(f, nodes, rank, values, dst, src, outputs, k);
    } else if !HeldByNeeding(nodes', rank', inside', dst, inside'[y]) {
      if Needs(nodes, rank, y, dst) {
        StillNeeds(nodes, rank, dst, src, y);
        assert NeedingHolder(nodes', rank', inside', dst, inside'[y], y);
      }
      EvalUntouched(f, nodes, rank, values, dst, src, outputs, Port(y, k));
    }
  }

  class RewiredGraph {
    var nodes: Nodes
    ghost var rank: Ranks
    var to: seq<seq<Option<nat>>>
    var inside: seq<nat>
    var insides: seq<Inside>
    var valid: seq<bool>
    var visited: seq<bool>

    ghost predicate Shaped()
      reads this
    {
      && Ranked(nodes, rank) && |to| == |nodes| && |inside| == |nodes| && |valid| == |nodes| && |visited| == |nodes|
      && forall e: nat :: e < |nodes| ==> inside[e] < |insides|
    }

    ghost predicate Valid()
      reads this
    {
      Shaped() && SlotsLinked(nodes, to) && Unvisited(visited)
    }

    /** Visits everything below e that has not been visited; slots that were reset are erased on the way. */
    method VisitOutputs(e: nat) returns (touched: seq<nat>)
      requires Shaped() && SlotsLinked(nodes, to) && e < |nodes|
      modifies this`to, this`visited, this`insides, this`valid
      ensures Shaped() && SameConsumers(old(to), to) && ListsKeptBelow(rank, rank[e], old(to), to)
      ensures Grew(old(visited), visited) && ConsumersIn(nodes, e, visited) && Closed(nodes, old(visited), visited)
      ensures OnlyNeeding(nodes, rank, old(visited), visited, e)
      ensures DroppedBy(inside, old(visited), visited, old(insides), insides)
      ensures ValidBy(old(visited), visited, old(valid), valid)
      ensures Lists(touched, old(visited), visited)
      decreases Above(rank) - rank[e], 1
    {
      touched := [];
      var i := 0;
      ghost var v0, insides0, valid0 := visited, insides, valid;
      while i < |to[e]|
        invariant Shaped() && i <= |to[e]| && SameConsumers(old(to), to) && ListsKeptBelow(rank, rank[e], old(to), to)
        invariant forall k: nat :: k < i ==> to[e][k].Some? && to[e][k].value < |visited| && visited[to[e][k].value]
        invariant Grew(v0, visited) && Closed(nodes, v0, visited) && OnlyNeeding(nodes, rank, v0, visited, e)
        invariant DroppedBy(inside, v0, visited, insides0, insides) && ValidBy(v0, visited, valid0, valid)
        invariant Lists(touched, v0, visited)
        decreases |to[e]| - i
      {
        if to[e][i].None? {
          EraseSlot(e, i);
        } else {
          var x := to[e][i].value;
          assert Some(x) in to[e];
          ConsumerNeeds(nodes, rank, x, e);
          var more := VisitConsumer(e, x, v0, insides0, valid0);
          touched := touched + more;
          i := i + 1;
        }
      }
      forall x: nat | Consumes(nodes, x, e) ensures visited[x] {
        assert Some(x) in to[e];
      }
    }

    method EraseSlot(e: nat, i: nat)
      requires e < |to| && i < |to[e]| && to[e][i].None?
      modifies this`to
      ensures |to| == |old(to)| && SameConsumers(old(to), to)
      ensures to == old(to)[e := old(to)[e][..i] + old(to)[e][i + 1..]]
    {
      ghost var before := to[e];
      to := to[e := to[e][..i] + to[e][i + 1..]];
      forall x: nat ensures Some(x) in to[e] <==> Some(x) in before {
        if Some(x) in before {
          var k :| 0 <= k < |before| && before[k] == Some(x);
          if k < i {
            assert to[e][k] == Some(x);
          } else {
            assert to[e][k - 1] == Some(x);
          }
        }
      }
    }

    /** One consumer of e: drops its cache and shape, and goes on below it, unless it has been visited. */
    method VisitConsumer(e: nat, x: nat, ghost v0: seq<bool>, ghost insides0: seq<Inside>, ghost valid0: seq<bool>)
      returns (more: seq<nat>)
      requires Shaped() && SlotsLinked(nodes, to) && e < |nodes| && Consumes(nodes, x, e) && Needs(nodes, rank, x, e)
      requires rank[x] > rank[e]
      requires |v0| == |nodes| && Grew(v0, visited) && Closed(nodes, v0, visited)
      requires OnlyNeeding(nodes, rank, v0, visited, e)
      requires DroppedBy(inside, v0, visited, insides0, insides) && ValidBy(v0, visited, valid0, valid)
      modifies this`to, this`visited, this`insides, this`valid
      ensures Shaped() && SameConsumers(old(to), to) && ListsKeptBelow(rank, rank[e] + 1, old(to), to)
      ensures Grew(old(visited), visited) && Grew(v0, visited) && visited[x]
      ensures Closed(nodes, v0, visited) && OnlyNeeding(nodes, rank, v0, visited, e)
      ensures DroppedBy(inside, v0, visited, insides0, insides) && ValidBy(v0, visited, valid0, valid)
      ensures Lists(more, old(visited), visited)
      decreases Above(rank) - rank[x], 2
    {
      more := [];
      if visited[x] {
        return;
      }
      ghost var v1, insides1, valid1 := visited, insides, valid;
      visited := visited[x := true];
      insides := insides[inside[x] := Dropped(insides[inside[x]])];
      valid := valid[x := true];
      ghost var insides', valid' := insides, valid;
      more := VisitOutputs(x);
      GrowStep(nodes, x, v0, v1, visited);
      forall y: nat | New(v0, visited, y) ensures Needs(nodes, rank, y, e) {
        if y != x && !New(v0, v1, y) {
          NeedsTransitive(nodes, rank, y, x, e);
        }
      }
      DropStep(inside, x, v0, v1, visited, insides0, insides1, insides', insides);
      more := [x] + more;
    }

    /** What leaves hold. */
    ghost function Contents(): (values: seq<Value>)
      requires Shaped()
      reads this
      ensures |values| == |nodes|
    {
      ContentsOf(inside, insides)
    }

    /** Rewires the lists and lets dst become another src, sharing what is inside it. */
    method Rewire(dst: nat, src: nat)
      requires Valid() && CanReplace(nodes, rank, dst, src)
      modifies this`to, this`nodes, this`rank, this`inside, this`valid
      ensures Valid() && nodes == Replaced(old(nodes), dst, src) && rank == Lifted(old(nodes), old(rank), dst)
      ensures inside == old(inside)[dst := old(inside)[src]]
      ensures Contents() == old(Contents())[dst := old(Contents())[src]]
      ensures valid == old(valid)[dst := old(valid)[src]]
    {
      ghost var to0, contents, inside0 := to, Contents(), inside;
      assert RankOk(nodes, rank, dst) && RankOk(nodes, rank, src);
      to := Unlink(nodes, to, dst);
      ghost var to1 := to;
      to := Relink(to, nodes[src].inputs, dst);
      RelinkedIsLinked(nodes, dst, src, to0, to1, to);
      ReplacedIsRanked(nodes, rank, dst, src);
      rank := Lifted(nodes, rank, dst);
      nodes := nodes[dst := nodes[src]];
      valid := valid[dst := valid[src]];
      inside := inside[dst := inside[src]];
      assert forall e: nat :: e < |nodes| ==> inside[e] == inside0[if e == dst then src else e];
      assert Contents() == contents[dst := contents[src]];
    }

    /**
     Replaces dst by src: the graph stays acyclic and linked, means what ReplaceIsSubstitution says,
     and exactly what is inside something that needs dst has lost its cache and has to be inferred again.
     */
    method Replace(dst: nat, src: nat)
      requires Valid() && dst < |nodes| && src < |nodes| && (dst == src || CanReplace(nodes, rank, dst, src))
      modifies this
      ensures Valid()
      ensures dst == src ==> nodes == old(nodes) && insides == old(insides)
      ensures dst != src ==> nodes == Replaced(old(nodes), dst, src) && rank == Lifted(old(nodes), old(rank), dst)
      ensures dst != src ==> Contents() == old(Contents())[dst := old(Contents())[src]]
      ensures dst != src ==> inside == old(inside)[dst := old(inside)[src]] && |insides| == |old(insides)|
      ensures dst != src ==> forall h: nat :: h < |insides| ==>
        insides[h] == if HeldByNeeding(nodes, rank, inside, dst, h) then Dropped(old(insides)[h]) else old(insides)[h]
      ensures dst != src ==> forall y: nat :: y < |nodes| ==>
        (valid[y] <==> old(valid)[dst := old(valid)[src]][y] || Needs(nodes, rank, y, dst))
    {
      if dst == src {
        return;
      }
      Rewire(dst, src);
      ghost var v0, insides0, contents := visited, insides, Contents();
      var touched := VisitOutputs(dst);
      ghost var v1 := visited;
      forall y: nat | y < |nodes| ensures New(v0, v1, y) <==> Needs(nodes, rank, y, dst) {
        if Needs(nodes, rank, y, dst) {
          VisitFindsNeeding(nodes, rank, dst, v0, v1, y);
        }
      }
      forall h: nat ensures Holder(inside, v0, v1, h) <==> HeldByNeeding(nodes, rank, inside, dst, h) {
        if Holder(inside, v0, v1, h) {
          var y: nat :| New(v0, v1, y) && y < |inside| && inside[y] == h;
          assert NeedingHolder(nodes, rank, inside, dst, h, y);
        }
      }
      assert Contents() == contents;
      ClearVisited(touched, v0, v1);
    }

    method ClearVisited(touched: seq<nat>, ghost v0: seq<bool>, ghost v1: seq<bool>)
      requires visited == v1 && Unvisited(v0) && |v0| == |v1| && Lists(touched, v0, v1)
      modifies this`visited
      ensures |visited| == |v1| && Unvisited(visited)
    {
      for i := 0 to |touched|
        invariant |visited| == |v1| && forall y: nat :: y < |v1| ==> (visited[y] <==> v1[y] && y !in touched[..i])
      {
        assert touched[i] in touched && New(v0, v1, touched[i]) && touched[..i + 1] == touched[..i] + [touched[i]];
        visited := visited[touched[i] := false];
      }
      assert touched[..|touched|] == touched;
      forall y: nat | y < |v1| ensures !visited[y] {
        assert v1[y] ==> New(v0, v1, y);
      }
    }
  }

  lemma DropStep(inside: seq<nat>, x: nat, v0: seq<bool>, v1: seq<bool>, v2: seq<bool>, s0: seq<Inside>,
      s1: seq<Inside>, s: seq<Inside>, s2: seq<Inside>)
    requires DroppedBy(inside, v0, v1, s0, s1) && x < |v1| && x < |inside| && inside[x] < |s1|
    requires s == s1[inside[x] := Dropped(s1[inside[x]])]
    requires DroppedBy(inside, v1[x := true], v2, s, s2)
    requires forall y: nat :: New(v0, v2, y) <==> New(v0, v1, y) || y == x || New(v1[x := true], v2, y)
    ensures DroppedBy(inside, v0, v2, s0, s2)
  {
    forall h: nat | h < |s0| ensures s2[h] == if Holder(inside, v0, v2, h) then Dropped(s0[h]) else s0[h] {
      assert Holder(inside, v0, v2, h) <==>
        Holder(inside, v0, v1, h) || inside[x] == h || Holder(inside, v1[x := true], v2, h) by {
        assert New(v0, v2, x);
        if Holder(inside, v0, v1, h) {
          var y: nat :| New(v0, v1, y) && y < |inside| && inside[y] == h;
          assert New(v0, v2, y);
        }
        if Holder(inside, v1[x := true], v2, h) {
          var y: nat :| New(v1[x := true], v2, y) && y < |inside| && inside[y] == h;
          assert New(v0, v2, y);
        }
      }
    }
  }
}
