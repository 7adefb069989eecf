/** Building the dataflow graph of a command list (codegen/OpFuse.cpp:418-449). */
module CommandGraph {
  import opened Wrappers
  import opened Commands
  import opened FusionGraph

  /** The last of the first n commands that writes t. */
  function LastWriter(cmds: seq<Command>, n: nat, t: Tensor): (p: Option<nat>)
    requires n <= |cmds|
    ensures p.Some? ==> p.value < n
  {
    if n == 0 then None
    else if t in cmds[n - 1].outputs then Some(n - 1)
    else LastWriter(cmds, n - 1, t)
  }

  /** s reads what p was the last to write. */
  ghost predicate Feeds(cmds: seq<Command>, p: nat, s: nat) {
    s < |cmds| && exists k :: 0 <= k < |cmds[s].inputs| && LastWriter(cmds, s, cmds[s].inputs[k]) == Some(p)
  }

  /** The writers of the first k inputs of command s, in order. */
  ghost function Writers(cmds: seq<Command>, s: nat, k: nat): seq<nat>
    requires s < |cmds| && k <= |cmds[s].inputs|
  {
    if k == 0 then []
    else
      var p := LastWriter(cmds, s, cmds[s].inputs[k - 1]);
      Writers(cmds, s, k - 1) + if p.Some? then [p.value] else []
  }

  /** The readers of p among the first k inputs of command s, once per input. */
  ghost function ReadersAt(cmds: seq<Command>, p: nat, s: nat, k: nat): seq<nat>
    requires s < |cmds| && k <= |cmds[s].inputs|
  {
    if k == 0 then []
    else
      ReadersAt(cmds, p, s, k - 1) + if LastWriter(cmds, s, cmds[s].inputs[k - 1]) == Some(p) then [s] else []
  }

  /** The readers of p among the first n commands, in order. */
  ghost function Readers(cmds: seq<Command>, p: nat, n: nat): seq<nat>
    requires n <= |cmds|
  {
    if n == 0 then [] else Readers(cmds, p, n - 1) + ReadersAt(cmds, p, n - 1, |cmds[n - 1].inputs|)
  }

  /** The list of p after the first n commands and the first k inputs of command n. */
  ghost function ReadersSoFar(cmds: seq<Command>, p: nat, n: nat, k: nat): seq<nat>
    requires n <= |cmds| && (n < |cmds| ==> k <= |cmds[n].inputs|)
  {
    Readers(cmds, p, n) + if n < |cmds| then ReadersAt(cmds, p, n, k) else []
  }

  ghost function WritersSoFar(cmds: seq<Command>, s: nat, n: nat, k: nat): seq<nat>
    requires s < |cmds| && n <= |cmds| && (n < |cmds| ==> k <= |cmds[n].inputs|)
  {
    if s < n then Writers(cmds, s, |cmds[s].inputs|) else if s == n then Writers(cmds, s, k) else []
  }

  ghost predicate SuccBuilt(cmds: seq<Command>, n: nat, k: nat, succ: Edges)
    requires n <= |cmds| && (n < |cmds| ==> k <= |cmds[n].inputs|)
  {
    |succ| == |cmds| && forall p: nat :: p < |cmds| ==> succ[p] == ReadersSoFar(cmds, p, n, k)
  }

  ghost predicate PredBuilt(cmds: seq<Command>, n: nat, k: nat, pred: Edges)
    requires n <= |cmds| && (n < |cmds| ==> k <= |cmds[n].inputs|)
  {
    |pred| == |cmds| && forall s: nat :: s < |cmds| ==> pred[s] == WritersSoFar(cmds, s, n, k)
  }

  lemma {:induction false} ReadersAtFed(cmds: seq<Command>, p: nat, s: nat, k: nat)
    requires s < |cmds| && k <= |cmds[s].inputs|
    ensures forall x: nat :: x in ReadersAt(cmds, p, s, k) <==>
      x == s && exists j :: 0 <= j < k && LastWriter(cmds, s, cmds[s].inputs[j]) == Some(p)
  {
    if k > 0 {
      ReadersAtFed(cmds, p, s, k - 1);
    }
  }

  /** The lists hold exactly the data dependences. */
  lemma {:induction false} ReadersFed(cmds: seq<Command>, p: nat, n: nat)
    requires n <= |cmds|
    ensures forall x: nat :: x in Readers(cmds, p, n) <==> x < n && Feeds(cmds, p, x)
  {
    if n > 0 {
      ReadersFed(cmds, p, n - 1);
      ReadersAtFed(cmds, p, n - 1, |cmds[n - 1].inputs|);
    }
  }

  lemma {:induction false} WritersFeed(cmds: seq<Command>, s: nat, k: nat)
    requires s < |cmds| && k <= |cmds[s].inputs|
    ensures forall p: nat :: p in Writers(cmds, s, k) <==>
      exists j :: 0 <= j < k && LastWriter(cmds, s, cmds[s].inputs[j]) == Some(p)
  {
    if k > 0 {
      WritersFeed(cmds, s, k - 1);
    }
  }

  lemma ListsAreEdges(cmds: seq<Command>, succ: Edges, pred: Edges)
    requires SuccBuilt(cmds, |cmds|, 0, succ) && PredBuilt(cmds, |cmds|, 0, pred)
    ensures Forward(succ)
    ensures forall p: nat, s: nat :: Edge(succ, p, s) <==> Feeds(cmds, p, s)
    ensures forall p: nat, s: nat :: Edge(pred, s, p) <==> Feeds(cmds, p, s)
  {
    forall p: nat, s: nat
      ensures Edge(succ, p, s) <==> Feeds(cmds, p, s)
      ensures Edge(pred, s, p) <==> Feeds(cmds, p, s)
    {
      if p < |cmds| {
        ReadersFed(cmds, p, |cmds|);
      }
      if s < |cmds| {
        WritersFeed(cmds, s, |cmds[s].inputs|);
      }
    }
    forall i, j | 0 <= i < |succ| && 0 <= j < |succ[i]| ensures i < succ[i][j] < |succ| {
      assert Edge(succ, i, succ[i][j]);
    }
  }

  /** The map holds the last writer among the first n commands. */
  ghost predicate WritersKnown(cmds: seq<Command>, n: nat, m: map<Tensor, nat>)
    requires n <= |cmds|
  {
    forall t :: LastWriter(cmds, n, t) == if t in m then Some(m[t]) else None
  }

  ghost predicate OutputsNoted(cmds: seq<Command>, n: nat, o: nat, before: map<Tensor, nat>, m: map<Tensor, nat>)
    requires n < |cmds| && o <= |cmds[n].outputs|
  {
    && (forall k :: 0 <= k < o ==> cmds[n].outputs[k] in m && m[cmds[n].outputs[k]] == n)
    && (forall t :: t in m ==> t in cmds[n].outputs || t in before)
    && (forall t :: t in before ==> t in m)
    && (forall t :: t in m && t !in cmds[n].outputs ==> m[t] == before[t])
  }

  lemma AllNoted(cmds: seq<Command>, n: nat, before: map<Tensor, nat>, m: map<Tensor, nat>)
    requires n < |cmds| && WritersKnown(cmds, n, before) && OutputsNoted(cmds, n, |cmds[n].outputs|, before, m)
    ensures WritersKnown(cmds, n + 1, m)
  {
  }

  lemma ReaderStep(cmds: seq<Command>, p: nat, n: nat, k: nat)
    requires n < |cmds| && k < |cmds[n].inputs|
    ensures ReadersSoFar(cmds, p, n, k + 1) ==
      ReadersSoFar(cmds, p, n, k) + if LastWriter(cmds, n, cmds[n].inputs[k]) == Some(p) then [n] else []
  {
    var a, b := Readers(cmds, p, n), ReadersAt(cmds, p, n, k);
    var c := if LastWriter(cmds, n, cmds[n].inputs[k]) == Some(p) then [n] else [];
    assert ReadersAt(cmds, p, n, k + 1) == b + c;
    assert a + (b + c) == a + b + c;
  }

  /** x is appended to list p, if there is one. */
  ghost predicate Appended(lists: Edges, lists': Edges, p: Option<nat>, x: nat) {
    |lists'| == |lists| &&
    forall q: nat :: q < |lists| ==> lists'[q] == lists[q] + if p == Some(q) then [x] else []
  }

  lemma ReaderLinked(cmds: seq<Command>, n: nat, k: nat, succ: Edges, succ': Edges)
    requires n < |cmds| && k < |cmds[n].inputs| && SuccBuilt(cmds, n, k, succ)
    requires Appended(succ, succ', LastWriter(cmds, n, cmds[n].inputs[k]), n)
    ensures SuccBuilt(cmds, n, k + 1, succ')
  {
    forall p: nat | p < |cmds| ensures succ'[p] == ReadersSoFar(cmds, p, n, k + 1) {
      ReaderStep(cmds, p, n, k);
    }
  }

  lemma WriterLinked(cmds: seq<Command>, n: nat, k: nat, pred: Edges, pred': Edges)
    requires n < |cmds| && k < |cmds[n].inputs| && PredBuilt(cmds, n, k, pred)
    requires match LastWriter(cmds, n, cmds[n].inputs[k])
      case None => pred' == pred
      case Some(p) => Appended(pred, pred', Some(n), p)
    ensures PredBuilt(cmds, n, k + 1, pred')
  {
  }

  method Append(lists: Edges, p: nat, x: nat) returns (lists': Edges)
    requires p < |lists|
    ensures Appended(lists, lists', Some(p), x)
  {
    lists' := lists[p := lists[p] + [x]];
  }

  /** The edge for input k of command n, if an earlier command writes it (lines 421-427). */
  method InsertEdge(cmds: seq<Command>, n: nat, k: nat, outputTensor: map<Tensor, nat>, succ0: Edges, pred0: Edges)
    returns (succ: Edges, pred: Edges)
    requires n < |cmds| && k < |cmds[n].inputs| && WritersKnown(cmds, n, outputTensor)
    requires SuccBuilt(cmds, n, k, succ0) && PredBuilt(cmds, n, k, pred0)
    ensures SuccBuilt(cmds, n, k + 1, succ) && PredBuilt(cmds, n, k + 1, pred)
  {
    succ, pred := succ0, pred0;
    var input := cmds[n].inputs[k];
    ghost var p := LastWriter(cmds, n, input);
    assert p == if input in outputTensor then Some(outputTensor[input]) else None;
    if input in outputTensor {
      pred := Append(pred, n, outputTensor[input]);
      succ := Append(succ, outputTensor[input], n);
    }
    ReaderLinked(cmds, n, k, succ0, succ);
    WriterLinked(cmds, n, k, pred0, pred);
  }

  /** The edges of command n (lines 441-443). */
  method LinkInputs(cmds: seq<Command>, n: nat, outputTensor: map<Tensor, nat>, succ0: Edges, pred0: Edges)
    returns (succ: Edges, pred: Edges)
    requires n < |cmds| && WritersKnown(cmds, n, outputTensor)
    requires SuccBuilt(cmds, n, 0, succ0) && PredBuilt(cmds, n, 0, pred0)
    ensures SuccBuilt(cmds, n, |cmds[n].inputs|, succ) && PredBuilt(cmds, n, |cmds[n].inputs|, pred)
  {
    succ, pred := succ0, pred0;
    var k := 0;
    while k < |cmds[n].inputs|
      invariant 0 <= k <= |cmds[n].inputs| && SuccBuilt(cmds, n, k, succ) && PredBuilt(cmds, n, k, pred)
    {
      succ, pred := InsertEdge(cmds, n, k, outputTensor, succ, pred);
      k := k + 1;
    }
  }

  /** Command n is now the last writer of its outputs (lines 444-446). */
  method NoteOutputs(cmds: seq<Command>, n: nat, before: map<Tensor, nat>) returns (outputTensor: map<Tensor, nat>)
    requires n < |cmds| && WritersKnown(cmds, n, before)
    ensures WritersKnown(cmds, n + 1, outputTensor)
  {
    outputTensor := before;
    var o := 0;
    while o < |cmds[n].outputs|
      invariant 0 <= o <= |cmds[n].outputs| && OutputsNoted(cmds, n, o, before, outputTensor)
    {
      outputTensor := outputTensor[cmds[n].outputs[o] := n];
      o := o + 1;
    }
    AllNoted(cmds, n, before, outputTensor);
  }

  /** One graph edge per input that an earlier command writes; the lists are in command and input order. */
  method BuildGraph(cmds: seq<Command>) returns (succ: Edges, pred: Edges)
    ensures SuccBuilt(cmds, |cmds|, 0, succ) && PredBuilt(cmds, |cmds|, 0, pred) && Forward(succ)
    ensures forall p: nat, s: nat :: Edge(succ, p, s) <==> Feeds(cmds, p, s)
    ensures forall p: nat, s: nat :: Edge(pred, s, p) <==> Feeds(cmds, p, s)
  {
    succ, pred := seq(|cmds|, _ => []), seq(|cmds|, _ => []);
    var outputTensor: map<Tensor, nat> := map[];
    var n := 0;
    while n < |cmds|
      invariant 0 <= n <= |cmds| && SuccBuilt(cmds, n, 0, succ) && PredBuilt(cmds, n, 0, pred)
      invariant WritersKnown(cmds, n, outputTensor)
    {
      succ, pred := LinkInputs(cmds, n, outputTensor, succ, pred);
      ListsDone(cmds, n, succ, pred);
      outputTensor := NoteOutputs(cmds, n, outputTensor);
      n := n + 1;
    }
    ListsAreEdges(cmds, succ, pred);
  }

  lemma ListsDone(cmds: seq<Command>, n: nat, succ: Edges, pred: Edges)
    requires n < |cmds| && SuccBuilt(cmds, n, |cmds[n].inputs|, succ) && PredBuilt(cmds, n, |cmds[n].inputs|, pred)
    ensures SuccBuilt(cmds, n + 1, 0, succ) && PredBuilt(cmds, n + 1, 0, pred)
  {
    forall p: nat | p < |cmds| ensures succ[p] == ReadersSoFar(cmds, p, n + 1, 0) {
      assert Readers(cmds, p, n + 1) == Readers(cmds, p, n) + ReadersAt(cmds, p, n, |cmds[n].inputs|);
    }
  }
}
