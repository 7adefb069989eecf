/**
 `getExecuteOrder` (express/Expr.cpp:1335-1384): everything that some variables depend on, producers
 before consumers, found with an explicit stack and the expressions' visited flags.
 */
module ExecuteOrder {
  import opened Wrappers
  import opened ExprModel
  import opened ExprGraphs
  import opened DepthFirst

  predicate IsConst(nodes: Nodes, e: nat)
    requires e < |nodes|
  {
    IsLeaf(nodes, e) && nodes[e].kind == Constant
  }

  ghost predicate InputsBefore(nodes: Nodes, order: seq<nat>, k: nat)
    requires k < |order|
  {
    order[k] < |nodes| && forall i :: 0 <= i < |nodes[order[k]].inputs| ==> nodes[order[k]].inputs[i].expr in order[..k]
  }

  /** Producers come before their consumers, and nothing is listed twice. */
  ghost predicate Sorted(nodes: Nodes, order: seq<nat>) {
    Distinct(order) && forall k: nat :: k < |order| ==> InputsBefore(nodes, order, k)
  }

  /** Expression e is one of the outputs or one of them depends on it. */
  ghost predicate Wanted(nodes: Nodes, outputs: seq<nat>, e: nat)
    requires Acyclic(nodes)
  {
    e < |nodes| && (e in outputs || exists o :: o in outputs && DependsOn(nodes, o, e))
  }

  lemma InputWanted(nodes: Nodes, outputs: seq<nat>, e: nat, i: nat)
    requires Acyclic(nodes) && Wanted(nodes, outputs, e) && i < |nodes[e].inputs|
    ensures NodeOk(nodes, e) && Wanted(nodes, outputs, nodes[e].inputs[i].expr)
  {
    assert NodeOk(nodes, e);
    var d := nodes[e].inputs[i].expr;
    assert InputLeadsTo(nodes, e, i, d);
    if e !in outputs {
      var o :| o in outputs && DependsOn(nodes, o, e);
      DependsTransitive(nodes, o, e, d);
    }
  }

  /** A sorted list holds everything that its elements depend on. */
  lemma {:induction false} SortedIsClosed(nodes: Nodes, order: seq<nat>, k: nat, d: nat)
    requires Acyclic(nodes) && Sorted(nodes, order) && k < |order| && DependsOn(nodes, order[k], d)
    ensures d in order
    decreases k
  {
    assert InputsBefore(nodes, order, k);
    var e := order[k];
    var i: nat :| i < |nodes[e].inputs| && InputLeadsTo(nodes, e, i, d);
    var j :| 0 <= j < k && order[..k][j] == nodes[e].inputs[i].expr;
    if order[j] != d {
      SortedIsClosed(nodes, order, j, d);
    }
  }

  lemma AppendSorted(nodes: Nodes, order: seq<nat>, e: nat)
    requires Sorted(nodes, order) && e < |nodes| && e !in order
    requires forall i :: 0 <= i < |nodes[e].inputs| ==> nodes[e].inputs[i].expr in order
    ensures Sorted(nodes, order + [e])
  {
    DistinctAppend(order, e);
    var order' := order + [e];
    forall k: nat | k < |order'| ensures InputsBefore(nodes, order', k) {
      if k < |order| {
        assert InputsBefore(nodes, order, k) && order'[..k] == order[..k];
      } else {
        assert order'[..k] == order;
      }
    }
  }

  // ---------------------------------------------------------------- the walk

  ghost function Listed(order: seq<nat>): set<nat> {
    set e | e in order
  }

  /** Flags and list agree. */
  ghost predicate Flagged(g: ExprGraph, order: seq<nat>)
    reads g
  {
    && Acyclic(g.nodes) && |g.visited| == |g.nodes|
    && forall e: nat :: e < |g.nodes| ==> (g.visited[e] <==> e in order)
  }

  ghost predicate AllWanted(nodes: Nodes, outputs: seq<nat>, s: seq<nat>)
    requires Acyclic(nodes)
  {
    forall e :: e in s ==> Wanted(nodes, outputs, e)
  }

  /** Every output is listed or waiting. */
  ghost predicate Pending(outputs: seq<nat>, order: seq<nat>, stack: seq<nat>) {
    forall o :: o in outputs ==> o in order || o in stack
  }

  /** Constant outputs go straight into the list, the others onto the stack. */
  method Start(g: ExprGraph, outputs: seq<nat>) returns (sequence: seq<nat>, workStack: seq<nat>)
    requires Flagged(g, []) && forall o :: o in outputs ==> o < |g.nodes|
    modifies g`visited
    ensures Flagged(g, sequence) && Sorted(g.nodes, sequence) && Pending(outputs, sequence, workStack)
    ensures AllWanted(g.nodes, outputs, sequence) && AllWanted(g.nodes, outputs, workStack)
  {
    sequence, workStack := [], [];
    for i := 0 to |outputs|
      invariant Flagged(g, sequence) && Sorted(g.nodes, sequence) && Pending(outputs[..i], sequence, workStack)
      invariant AllWanted(g.nodes, outputs, sequence) && AllWanted(g.nodes, outputs, workStack)
    {
      var output := outputs[i];
      assert output in outputs && outputs[..i + 1] == outputs[..i] + [output] && NodeOk(g.nodes, output);
      if IsConst(g.nodes, output) && !g.visited[output] {
        AppendSorted(g.nodes, sequence, output);
        g.visited := g.visited[output := true];
        sequence := sequence + [output];
      } else {
        workStack := workStack + [output];
      }
    }
    assert outputs[..|outputs|] == outputs;
  }

  /** The first input that is not visited. */
  method UnvisitedInput(g: ExprGraph, e: nat, ghost sequence: seq<nat>) returns (next: Option<nat>)
    requires Flagged(g, sequence) && e < |g.nodes|
    ensures next.None? ==> forall i :: 0 <= i < |g.nodes[e].inputs| ==> g.nodes[e].inputs[i].expr in sequence
    ensures next.Some? ==>
      next.value < e && next.value !in sequence && exists i: nat ::
        i < |g.nodes[e].inputs| && g.nodes[e].inputs[i].expr == next.value
  {
    assert NodeOk(g.nodes, e);
    var inputs := g.nodes[e].inputs;
    for i := 0 to |inputs|
      invariant forall k :: 0 <= k < i ==> inputs[k].expr in sequence
    {
      if !g.visited[inputs[i].expr] {
        return Some(inputs[i].expr);
      }
    }
    return None;
  }

  /** Each expression that the outputs need, once, after what it needs itself; all flags are cleared again. */
  method GetExecuteOrder(g: ExprGraph, outputs: seq<nat>) returns (sequence: seq<nat>)
    requires Flagged(g, []) && forall o :: o in outputs ==> o < |g.nodes|
    modifies g`visited
    ensures Flagged(g, []) && Sorted(g.nodes, sequence)
    ensures forall e: nat :: e in sequence <==> Wanted(g.nodes, outputs, e)
  {
    var workStack;
    sequence, workStack := Start(g, outputs);
    sequence := Walk(g, outputs, sequence, workStack);
    forall e: nat ensures e in sequence <==> Wanted(g.nodes, outputs, e) {
      if Wanted(g.nodes, outputs, e) && e !in outputs {
        var o :| o in outputs && DependsOn(g.nodes, o, e);
        var k: nat :| k < |sequence| && sequence[k] == o;
        SortedIsClosed(g.nodes, sequence, k, e);
      }
    }
    for i := 0 to |sequence|
      invariant |g.visited| == |g.nodes|
      invariant forall e: nat :: e < |g.nodes| ==> (g.visited[e] <==> e in sequence && e !in sequence[..i])
    {
      assert sequence[i] in sequence && sequence[..i + 1] == sequence[..i] + [sequence[i]];
      g.visited := g.visited[sequence[i] := false];
    }
    assert sequence[..|sequence|] == sequence;
  }

  /** Lists the top of the stack and takes it off. */
  method Emit(g: ExprGraph, ghost outputs: seq<nat>, sequence0: seq<nat>, stack: seq<nat>, ghost base: nat)
    returns (sequence: seq<nat>)
    requires stack != [] && Flagged(g, sequence0) && Sorted(g.nodes, sequence0) && Pending(outputs, sequence0, stack)
    requires AllWanted(g.nodes, outputs, sequence0) && AllWanted(g.nodes, outputs, stack)
    requires Path(stack, base, Listed(sequence0))
    requires var e := stack[|stack| - 1];
      e < |g.nodes| && e !in sequence0 && forall i :: 0 <= i < |g.nodes[e].inputs| ==>
        g.nodes[e].inputs[i].expr in sequence0
    modifies g`visited
    ensures Flagged(g, sequence) && Sorted(g.nodes, sequence) && Pending(outputs, sequence, stack[..|stack| - 1])
    ensures AllWanted(g.nodes, outputs, sequence)
    ensures Path(stack[..|stack| - 1], Lowered(base, |stack| - 1), Listed(sequence))
    ensures Todo(|g.nodes|, Listed(sequence)) < Todo(|g.nodes|, Listed(sequence0))
  {
    var expr := stack[|stack| - 1];
    assert expr in stack;
    AppendSorted(g.nodes, sequence0, expr);
    PopPath(stack, base, Listed(sequence0));
    TodoShrinks(|g.nodes|, Listed(sequence0), expr);
    sequence := sequence0 + [expr];
    assert Listed(sequence) == Listed(sequence0) + {expr};
    g.visited := g.visited[expr := true];
    StillPending(outputs, sequence0, sequence, stack);
  }

  lemma StillPending(outputs: seq<nat>, before: seq<nat>, after: seq<nat>, stack: seq<nat>)
    requires stack != [] && Pending(outputs, before, stack) && stack[|stack| - 1] in after
    requires forall e :: e in before ==> e in after
    ensures Pending(outputs, after, stack[..|stack| - 1])
  {
    forall o | o in outputs && o !in after ensures o in stack[..|stack| - 1] {
      var k :| 0 <= k < |stack| && stack[k] == o;
      assert stack[..|stack| - 1][k] == o;
    }
  }

  method Walk(g: ExprGraph, ghost outputs: seq<nat>, sequence0: seq<nat>, workStack0: seq<nat>)
    returns (sequence: seq<nat>)
    requires Flagged(g, sequence0) && Sorted(g.nodes, sequence0) && Pending(outputs, sequence0, workStack0)
    requires AllWanted(g.nodes, outputs, sequence0) && AllWanted(g.nodes, outputs, workStack0)
    modifies g`visited
    ensures Flagged(g, sequence) && Sorted(g.nodes, sequence) && Pending(outputs, sequence, [])
    ensures AllWanted(g.nodes, outputs, sequence)
  {
    sequence := sequence0;
    var workStack := workStack0;
    ghost var base: nat := |workStack|;
    while workStack != []
      invariant Flagged(g, sequence) && Sorted(g.nodes, sequence) && Pending(outputs, sequence, workStack)
      invariant AllWanted(g.nodes, outputs, sequence) && AllWanted(g.nodes, outputs, workStack)
      invariant Path(workStack, base, Listed(sequence))
      decreases Todo(|g.nodes|, Listed(sequence)), base, Top(workStack)
    {
      var last := |workStack| - 1;
      var expr := workStack[last];
      assert expr in workStack;
      if g.visited[expr] {
        PopPath(workStack, base, Listed(sequence));
        assert Listed(sequence) == Listed(sequence) + {expr};
        StillPending(outputs, sequence, sequence, workStack);
        workStack, base := workStack[..last], Lowered(base, last);
        continue;
      }
      var next := UnvisitedInput(g, expr, sequence);
      if next.Some? {
        var i: nat :| i < |g.nodes[expr].inputs| && g.nodes[expr].inputs[i].expr == next.value;
        InputWanted(g.nodes, outputs, expr, i);
        workStack := workStack + [next.value];
      } else {
        sequence := Emit(g, outputs, sequence, workStack, base);
        workStack, base := workStack[..last], Lowered(base, last);
      }
    }
  }
}
