/**
 Depth-first walks over compute caches (express/Utils.cpp:215-328): the stack, why the walk ends, and what is
 below a cache.
 */
module CacheWalks {
  import opened Wrappers
  import opened ExprModel
  import opened Sessions

  /** The caches that c reads have smaller numbers. */
  ghost predicate Ordered(sessions: seq<Session>) {
    forall c: nat, d :: c < |sessions| && d in sessions[c].inputs ==> d < c
  }

  predicate HasUnvisitInput(s: Session, visited: set<nat>) {
    exists d :: d in s.inputs && d !in visited
  }

  // ---------------------------------------------------------------- termination

  /** How often a walk that visits each cache once per path to it can come to c and what it reads, doubled. */
  ghost function Weight(sessions: seq<Session>, c: nat): nat
    decreases c, 1, 0
  {
    2 + if c < |sessions| then InputWeight(sessions, c, |sessions[c].inputs|) else 0
  }

  ghost function InputWeight(sessions: seq<Session>, c: nat, n: nat): nat
    requires c < |sessions| && n <= |sessions[c].inputs|
    decreases c, 0, n
  {
    if n == 0 then 0
    else
      InputWeight(sessions, c, n - 1) +
        if sessions[c].inputs[n - 1] < c then Weight(sessions, sessions[c].inputs[n - 1]) else 0
  }

  /** What is left to do for a stack; an expanded element has already pushed its inputs. */
  ghost function StackWeight(sessions: seq<Session>, stack: seq<nat>, expanded: seq<bool>): nat
    requires |expanded| == |stack|
  {
    if stack == [] then 0
    else
      var last := |stack| - 1;
      StackWeight(sessions, stack[..last], expanded[..last]) +
        if expanded[last] then 1 else Weight(sessions, stack[last])
  }

  ghost function Unexpanded(n: nat): (s: seq<bool>)
    ensures |s| == n && forall k :: 0 <= k < n ==> !s[k]
  {
    seq(n, _ => false)
  }

  lemma PushOne(sessions: seq<Session>, stack: seq<nat>, expanded: seq<bool>, d: nat)
    requires |expanded| == |stack|
    ensures StackWeight(sessions, stack + [d], expanded + [false]) ==
      StackWeight(sessions, stack, expanded) + Weight(sessions, d)
  {
    assert (stack + [d])[..|stack|] == stack && (expanded + [false])[..|stack|] == expanded;
  }

  lemma {:induction false} PushPrefix(sessions: seq<Session>, stack: seq<nat>, expanded: seq<bool>, c: nat,
      inputs: seq<nat>, n: nat)
    requires Ordered(sessions) && c < |sessions| && inputs == sessions[c].inputs && n <= |inputs|
    requires |expanded| == |stack|
    ensures StackWeight(sessions, stack + inputs[..n], expanded + Unexpanded(n)) ==
      StackWeight(sessions, stack, expanded) + InputWeight(sessions, c, n)
  {
    if n == 0 {
      assert stack + inputs[..0] == stack && expanded + Unexpanded(0) == expanded;
    } else {
      var d := inputs[n - 1];
      assert d in inputs && d < c;
      PushPrefix(sessions, stack, expanded, c, inputs, n - 1);
      PushOne(sessions, stack + inputs[..n - 1], expanded + Unexpanded(n - 1), d);
      OneLonger(stack, expanded, inputs, n);
    }
  }

  lemma OneLonger(stack: seq<nat>, expanded: seq<bool>, inputs: seq<nat>, n: nat)
    requires 0 < n <= |inputs|
    ensures stack + inputs[..n] == (stack + inputs[..n - 1]) + [inputs[n - 1]]
    ensures expanded + Unexpanded(n) == (expanded + Unexpanded(n - 1)) + [false]
  {
    assert Unexpanded(n) == Unexpanded(n - 1) + [false];
  }

  /** Pushing a cache's inputs on top of it, marked as expanded, or in its place, makes progress. */
  lemma PushInputs(sessions: seq<Session>, stack: seq<nat>, expanded: seq<bool>, c: nat)
    requires Ordered(sessions) && c < |sessions| && |expanded| == |stack|
    ensures StackWeight(sessions, stack + sessions[c].inputs, expanded + Unexpanded(|sessions[c].inputs|)) ==
      StackWeight(sessions, stack, expanded) + Weight(sessions, c) - 2
    ensures forall k :: 0 <= k < |sessions[c].inputs| ==> sessions[c].inputs[k] < c
  {
    var inputs := sessions[c].inputs;
    assert inputs == inputs[..|inputs|];
    PushPrefix(sessions, stack, expanded, c, inputs, |inputs|);
    forall k | 0 <= k < |inputs| ensures inputs[k] < c {
      assert inputs[k] in inputs;
    }
  }

  lemma NoInputs(s: Session)
    ensures s.inputs == [] || HasUnvisitInput(s, {})
  {
    if s.inputs != [] {
      assert s.inputs[0] in s.inputs;
    }
  }

  // ---------------------------------------------------------------- below a cache

  /** c or a cache that c reads, directly or not. */
  ghost predicate Under(sessions: seq<Session>, c: nat, d: nat)
    requires Ordered(sessions) && c < |sessions|
    decreases c
  {
    d == c || exists m: nat :: m in sessions[c].inputs && Under(sessions, m, d)
  }

  lemma {:induction false} UnderInput(sessions: seq<Session>, c: nat, d: nat, m: nat)
    requires Ordered(sessions) && c < |sessions| && d < |sessions| && Under(sessions, c, d) && m in sessions[d].inputs
    ensures m < |sessions| && Under(sessions, c, m)
    decreases c
  {
    if d == c {
      assert Under(sessions, m, m);
    } else {
      var i: nat :| i in sessions[c].inputs && Under(sessions, i, d);
      UnderInput(sessions, i, d, m);
    }
  }

  lemma {:induction false} UnderTransitive(sessions: seq<Session>, c: nat, d: nat, x: nat)
    requires Ordered(sessions) && c < |sessions| && d < |sessions| && Under(sessions, c, d) && Under(sessions, d, x)
    ensures Under(sessions, c, x)
    decreases c
  {
    if d != c {
      var m: nat :| m in sessions[c].inputs && Under(sessions, m, d);
      UnderTransitive(sessions, m, d, x);
    }
  }

  // ---------------------------------------------------------------- walking

  ghost predicate Above(stack: seq<nat>, k: nat, d: nat) {
    exists m: nat :: k < m < |stack| && stack[m] == d
  }

  ghost predicate InputsSeen(s: Session, stack: seq<nat>, k: nat, visited: set<nat>) {
    forall d :: d in s.inputs ==> d in visited || Above(stack, k, d)
  }

  /** A walk's stack: every input of an expanded cache is done or further up. */
  ghost predicate Walk(sessions: seq<Session>, stack: seq<nat>, expanded: seq<bool>, visited: set<nat>) {
    && |expanded| == |stack|
    && (forall k: nat :: k < |stack| ==> stack[k] < |sessions|)
    && (forall k: nat :: k < |stack| && expanded[k] ==> InputsSeen(sessions[stack[k]], stack, k, visited))
  }

  /** Popping a finished cache. */
  lemma PopKeepsWalk(sessions: seq<Session>, stack: seq<nat>, expanded: seq<bool>, visited: set<nat>)
    requires stack != [] && Walk(sessions, stack, expanded, visited)
    ensures var last := |stack| - 1;
      && Walk(sessions, stack[..last], expanded[..last], visited + {stack[last]})
      && StackWeight(sessions, stack[..last], expanded[..last]) < StackWeight(sessions, stack, expanded)
  {
    var last := |stack| - 1;
    forall k: nat | k < last && expanded[k]
      ensures InputsSeen(sessions[stack[k]], stack[..last], k, visited + {stack[last]})
    {
      assert InputsSeen(sessions[stack[k]], stack, k, visited);
      forall d | d in sessions[stack[k]].inputs ensures d in visited + {stack[last]} || Above(stack[..last], k, d) {
        if d !in visited && d != stack[last] {
          var m: nat :| k < m < |stack| && stack[m] == d;
          assert stack[..last][m] == d;
        }
      }
    }
  }

  lemma ExpandedTopIsSeen(sessions: seq<Session>, stack: seq<nat>, expanded: seq<bool>, visited: set<nat>)
    requires stack != [] && Walk(sessions, stack, expanded, visited)
    ensures expanded[|stack| - 1] ==> !HasUnvisitInput(sessions[stack[|stack| - 1]], visited)
  {
    if expanded[|stack| - 1] {
      assert InputsSeen(sessions[stack[|stack| - 1]], stack, |stack| - 1, visited);
    }
  }

  /** Pushing the inputs of the top, which still has one to visit and so was not expanded before. */
  lemma PushKeepsWalk(sessions: seq<Session>, stack: seq<nat>, expanded: seq<bool>, visited: set<nat>, c: nat)
    requires Ordered(sessions) && stack != [] && c == stack[|stack| - 1] && Walk(sessions, stack, expanded, visited)
    requires HasUnvisitInput(sessions[c], visited)
    ensures var stack' := stack + sessions[c].inputs;
      var expanded' := expanded[|stack| - 1 := true] + Unexpanded(|sessions[c].inputs|);
      && Walk(sessions, stack', expanded', visited)
      && StackWeight(sessions, stack', expanded') < StackWeight(sessions, stack, expanded)
  {
    var last := |stack| - 1;
    var inputs := sessions[c].inputs;
    var stack', expanded' := stack + inputs, expanded[last := true] + Unexpanded(|inputs|);
    ExpandedTopIsSeen(sessions, stack, expanded, visited);
    assert expanded[last := true][..last] == expanded[..last];
    PushInputs(sessions, stack, expanded[last := true], c);
    forall k: nat | k < |stack'| && expanded'[k] ensures InputsSeen(sessions[stack'[k]], stack', k, visited) {
      forall d | d in sessions[stack'[k]].inputs ensures d in visited || Above(stack', k, d) {
        if k == last {
          var i :| 0 <= i < |inputs| && inputs[i] == d;
          assert stack'[|stack| + i] == d;
        } else {
          assert InputsSeen(sessions[stack[k]], stack, k, visited);
          if d !in visited {
            var m: nat :| k < m < |stack| && stack[m] == d;
            assert stack'[m] == d;
          }
        }
      }
    }
  }

  // ---------------------------------------------------------------- walking from a target

  /** A walk of what target reads; it is over when target is done. */
  ghost predicate WalkFrom(sessions: seq<Session>, target: nat, stack: seq<nat>, expanded: seq<bool>, visited: set<nat>)
    requires Ordered(sessions) && target < |sessions|
  {
    && Walk(sessions, stack, expanded, visited)
    && (if stack == [] then target in visited else stack[0] == target)
    && (forall k: nat :: 0 < k < |stack| ==> stack[k] < target)
    && (forall k: nat :: k < |stack| ==> Under(sessions, target, stack[k]))
  }

  lemma PopFrom(sessions: seq<Session>, target: nat, stack: seq<nat>, expanded: seq<bool>, visited: set<nat>)
    requires Ordered(sessions) && target < |sessions| && stack != []
    requires WalkFrom(sessions, target, stack, expanded, visited)
    ensures var last := |stack| - 1;
      && WalkFrom(sessions, target, stack[..last], expanded[..last], visited + {stack[last]})
      && StackWeight(sessions, stack[..last], expanded[..last]) < StackWeight(sessions, stack, expanded)
  {
    PopKeepsWalk(sessions, stack, expanded, visited);
  }

  lemma PushFrom(sessions: seq<Session>, target: nat, stack: seq<nat>, expanded: seq<bool>, visited: set<nat>, c: nat)
    requires Ordered(sessions) && target < |sessions| && stack != [] && c == stack[|stack| - 1]
    requires WalkFrom(sessions, target, stack, expanded, visited) && HasUnvisitInput(sessions[c], visited)
    ensures var stack' := stack + sessions[c].inputs;
      var expanded' := expanded[|stack| - 1 := true] + Unexpanded(|sessions[c].inputs|);
      && WalkFrom(sessions, target, stack', expanded', visited)
      && StackWeight(sessions, stack', expanded') < StackWeight(sessions, stack, expanded)
  {
    PushKeepsWalk(sessions, stack, expanded, visited, c);
    var stack' := stack + sessions[c].inputs;
    forall k: nat | |stack| <= k < |stack'| ensures Under(sessions, target, stack'[k]) && stack'[k] < target {
      var d := stack'[k];
      assert d in sessions[c].inputs;
      UnderInput(sessions, target, c, d);
    }
  }
}
