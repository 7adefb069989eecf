/**
 Running a command list in which every tensor is written at most once and never before it is
 read: each command's outputs can be read off the final state.
 */
module SingleAssignment {
  import opened Wrappers
  import opened Commands
  import opened Kernels
  import opened KernelMeaning
  import opened CommandGraph

  ghost predicate WritesTo(cmds: seq<Command>, i: nat, t: Tensor) {
    i < |cmds| && t in cmds[i].outputs
  }

  ghost predicate ReadsFrom(cmds: seq<Command>, i: nat, t: Tensor) {
    i < |cmds| && t in cmds[i].inputs
  }

  ghost predicate IsSingleAssignment(cmds: seq<Command>) {
    && (forall i :: 0 <= i < |cmds| ==> Distinct(cmds[i].outputs))
    && (forall i: nat, j: nat, t :: WritesTo(cmds, i, t) && WritesTo(cmds, j, t) ==> i == j)
    && (forall i: nat, j: nat, t :: WritesTo(cmds, i, t) && ReadsFrom(cmds, j, t) ==> i < j)
  }

  /** The command lists that fusion is given: operators only, elementwise ones with one output
      and matching operand sizes, and no command writing a constant. */
  ghost predicate IsProgram(w: World, cmds: seq<Command>) {
    && IsSingleAssignment(cmds)
    && (forall i :: 0 <= i < |cmds| ==> cmds[i].action.Plain?)
    && (forall i :: 0 <= i < |cmds| && IsLegal(cmds[i]) ==> |cmds[i].outputs| == 1 && OperandsShaped(w, cmds[i]))
    && (forall i: nat, t :: WritesTo(cmds, i, t) ==> !w.describe(t).constant)
  }

  ghost predicate Written(cmds: seq<Command>, from: nat, to: nat, t: Tensor) {
    exists i: nat :: from <= i < to && WritesTo(cmds, i, t)
  }

  lemma {:induction false} RunStable(w: World, cmds: seq<Command>, st: State, m: nat, n: nat, t: Tensor)
    requires m <= n <= |cmds| && !Written(cmds, m, n, t)
    ensures Get(RunTo(w, cmds, st, n), t) == Get(RunTo(w, cmds, st, m), t)
    decreases n - m
  {
    if m < n {
      assert !WritesTo(cmds, n - 1, t);
      RunStable(w, cmds, st, m, n - 1, t);
      StepGet(w, cmds[n - 1], RunTo(w, cmds, st, n - 1), t);
    }
  }

  lemma {:induction false} IndexOfUnique(ts: seq<Tensor>, k: nat)
    requires k < |ts| && Distinct(ts)
    ensures IndexOf(ts, ts[k]) == k
  {
    if k > 0 {
      assert ts[0] != ts[k];
      assert ts[1..][k - 1] == ts[k];
      IndexOfUnique(ts[1..], k - 1);
    }
  }

  /** A command's outputs depend only on its inputs. */
  lemma OutBufferDepends(w: World, cmd: Command, a: State, b: State, k: nat)
    requires k < |cmd.outputs| && forall t :: t in cmd.inputs ==> Get(a, t) == Get(b, t)
    ensures OutBuffer(w, cmd, a, k) == OutBuffer(w, cmd, b, k)
  {
    assert Args(cmd.inputs, a) == Args(cmd.inputs, b);
    forall o: nat ensures LaneArgs(cmd.inputs, a, o) == LaneArgs(cmd.inputs, b, o) {
    }
  }

  /** Every command's outputs hold, at the end, what the command computes from the final state. */
  lemma FinalStateSettled(w: World, cmds: seq<Command>, st: State, i: nat, k: nat)
    requires IsSingleAssignment(cmds) && i < |cmds| && k < |cmds[i].outputs| && !cmds[i].action.Erased?
    ensures Get(Run(w, cmds, st), cmds[i].outputs[k]) == OutBuffer(w, cmds[i], Run(w, cmds, st), k)
  {
    var t := cmds[i].outputs[k];
    var before, fin := RunTo(w, cmds, st, i), Run(w, cmds, st);
    assert WritesTo(cmds, i, t);
    RunStable(w, cmds, st, i + 1, |cmds|, t);
    StepGet(w, cmds[i], before, t);
    IndexOfUnique(cmds[i].outputs, k);
    forall x | x in cmds[i].inputs ensures Get(before, x) == Get(fin, x) {
      assert ReadsFrom(cmds, i, x);
      RunStable(w, cmds, st, i, |cmds|, x);
    }
    OutBufferDepends(w, cmds[i], before, fin, k);
  }

  lemma {:induction false} RunWellSized(w: World, cmds: seq<Command>, st: State, n: nat)
    requires IsProgram(w, cmds) && WellSized(w, st) && n <= |cmds|
    ensures WellSized(w, RunTo(w, cmds, st, n))
  {
    if n > 0 {
      RunWellSized(w, cmds, st, n - 1);
      var before, after := RunTo(w, cmds, st, n - 1), RunTo(w, cmds, st, n);
      forall t | Inlined(w, t) ensures Get(after, t) == [w.describe(t).value] {
        StepGet(w, cmds[n - 1], before, t);
        assert !WritesTo(cmds, n - 1, t);
      }
    }
  }

  /** With single assignment the last writer is the writer. */
  lemma {:induction false} WriterIsLastWriter(cmds: seq<Command>, p: nat, n: nat, t: Tensor)
    requires IsSingleAssignment(cmds) && p < n <= |cmds| && t in cmds[p].outputs
    ensures LastWriter(cmds, n, t) == Some(p)
  {
    assert WritesTo(cmds, p, t) && (n - 1 > p ==> !WritesTo(cmds, n - 1, t));
    if n - 1 > p {
      WriterIsLastWriter(cmds, p, n - 1, t);
    }
  }

  lemma {:induction false} LastWriterWrites(cmds: seq<Command>, n: nat, t: Tensor)
    requires n <= |cmds| && LastWriter(cmds, n, t).Some?
    ensures t in cmds[LastWriter(cmds, n, t).value].outputs
  {
    if t !in cmds[n - 1].outputs {
      LastWriterWrites(cmds, n - 1, t);
    }
  }

  /** A reader comes after the writer and is fed by it. */
  lemma ReaderIsFed(cmds: seq<Command>, p: nat, s: nat, t: Tensor)
    requires IsSingleAssignment(cmds) && p < |cmds| && s < |cmds| && t in cmds[p].outputs && t in cmds[s].inputs
    ensures p < s && Feeds(cmds, p, s)
  {
    assert WritesTo(cmds, p, t) && ReadsFrom(cmds, s, t);
    WriterIsLastWriter(cmds, p, s, t);
    var k :| 0 <= k < |cmds[s].inputs| && cmds[s].inputs[k] == t;
  }
}
