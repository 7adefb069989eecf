/**
 Depth-first walks with an explicit stack over a graph whose inputs have smaller numbers: the first
 `base` elements are the walk's targets, and above them lies a path of inputs that are not done.
 */
module DepthFirst {
  import opened Wrappers

  ghost predicate Path(stack: seq<nat>, base: nat, done: set<nat>) {
    && base <= |stack| && (stack != [] ==> base > 0)
    && (forall k :: base <= k < |stack| ==> stack[k] < stack[k - 1] && stack[k] !in done)
  }

  lemma {:induction false} PathFalls(stack: seq<nat>, base: nat, done: set<nat>, j: nat, k: nat)
    requires Path(stack, base, done) && base <= j < k < |stack|
    ensures stack[j] > stack[k]
    decreases k
  {
    if j < k - 1 {
      PathFalls(stack, base, done, j, k - 1);
    }
  }

  ghost function Lowered(base: nat, n: nat): nat {
    if base > n then n else base
  }

  ghost function Top(stack: seq<nat>): nat {
    if stack == [] then 0 else stack[|stack| - 1]
  }

  /** Popping the top, which is done now; only a target can have been done before. */
  lemma PopPath(stack: seq<nat>, base: nat, done: set<nat>)
    requires stack != [] && Path(stack, base, done)
    ensures Path(stack[..|stack| - 1], Lowered(base, |stack| - 1), done + {Top(stack)})
    ensures Top(stack) in done ==> base == |stack|
  {
    var last := |stack| - 1;
    forall k | base <= k < last ensures stack[k] > stack[last] {
      PathFalls(stack, base, done, k, last);
    }
  }

  /** How many of the first n numbers are not done. */
  ghost function Todo(n: nat, done: set<nat>): nat {
    if n == 0 then 0 else Todo(n - 1, done) + if n - 1 in done then 0 else 1
  }

  lemma {:induction false} TodoShrinks(n: nat, done: set<nat>, e: nat)
    ensures Todo(n, done + {e}) <= Todo(n, done)
    ensures e < n && e !in done ==> Todo(n, done + {e}) < Todo(n, done)
  {
    if n > 0 {
      TodoShrinks(n - 1, done, e);
    }
  }
}
