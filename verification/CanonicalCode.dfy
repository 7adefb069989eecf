/**
 Canonical prefix codes as section 3.2.2 of RFC 1951 defines them from a list of code lengths,
 and the Kraft inequality that says which lists have such a code.
 */
module CanonicalCode {
  import opened BitStream

  const MAX_LENGTH: nat := 15

  type Lengths = seq<nat>

  ghost predicate ValidLengths(lens: Lengths) {
    forall i :: 0 <= i < |lens| ==> lens[i] <= MAX_LENGTH
  }

  /** How many of the first n symbols have length l. */
  function CountTo(lens: Lengths, l: nat, n: nat): nat
    requires n <= |lens|
  {
    if n == 0 then 0 else CountTo(lens, l, n - 1) + if lens[n - 1] == l then 1 else 0
  }

  function Count(lens: Lengths, l: nat): nat {
    CountTo(lens, l, |lens|)
  }

  /** The smallest code of length l, and one more than the largest. */
  function First(lens: Lengths, l: nat): nat
    decreases l, 0
  {
    if l <= 1 then 0 else 2 * End(lens, l - 1)
  }

  function End(lens: Lengths, l: nat): nat
    decreases l, 1
  {
    First(lens, l) + Count(lens, l)
  }

  /** Codes of equal length are consecutive, in symbol order. */
  function Code(lens: Lengths, i: nat): nat
    requires i < |lens|
  {
    First(lens, lens[i]) + CountTo(lens, lens[i], i)
  }

  /** The stream at p begins with the code of symbol i, most significant bit first. */
  ghost predicate Matches(lens: Lengths, data: seq<byte>, p: nat, i: nat) {
    i < |lens| && lens[i] > 0 && High(data, p, lens[i]) == Code(lens, i)
  }

  /** No length has more codes than it has bit patterns left. */
  ghost predicate Fits(lens: Lengths) {
    forall l :: 1 <= l <= MAX_LENGTH ==> FitsAt(lens, l)
  }

  ghost predicate FitsAt(lens: Lengths, l: nat) {
    End(lens, l) <= Pow2(l)
  }

  // ---------------------------------------------------------------- Kraft

  /** The sum of 2^-length over the coded symbols, scaled by 2^15. */
  ghost function KraftSum(lens: Lengths): nat {
    if lens == [] then 0 else KraftSum(lens[..|lens| - 1]) + KraftTerm(lens[|lens| - 1])
  }

  ghost function KraftTerm(l: nat): nat {
    if 1 <= l <= MAX_LENGTH then Pow2(MAX_LENGTH - l) else 0
  }

  /** The same sum, by length. */
  ghost function KraftUpTo(lens: Lengths, l: nat): nat
    requires l <= MAX_LENGTH
  {
    if l == 0 then 0 else KraftUpTo(lens, l - 1) + KraftLevel(lens, l)
  }

  ghost function KraftLevel(lens: Lengths, l: nat): nat
    requires l <= MAX_LENGTH
  {
    ShiftLeft(Count(lens, l), MAX_LENGTH - l)
  }

  lemma {:induction false} CountToPrefix(a: Lengths, b: Lengths, l: nat, n: nat)
    requires n <= |a| && n <= |b| && a[..n] == b[..n]
    ensures CountTo(a, l, n) == CountTo(b, l, n)
  {
    if n > 0 {
      assert a[n - 1] == a[..n][n - 1] && b[n - 1] == b[..n][n - 1];
      assert a[..n - 1] == a[..n][..n - 1] && b[..n - 1] == b[..n][..n - 1];
      CountToPrefix(a, b, l, n - 1);
    }
  }

  lemma CountAppend(lens: Lengths, l: nat)
    requires lens != []
    ensures Count(lens, l) == Count(lens[..|lens| - 1], l) + if lens[|lens| - 1] == l then 1 else 0
  {
    CountToPrefix(lens, lens[..|lens| - 1], l, |lens| - 1);
  }

  lemma {:induction false} KraftUpToAppend(lens: Lengths, l: nat)
    requires lens != [] && l <= MAX_LENGTH
    ensures var last := lens[|lens| - 1];
      KraftUpTo(lens, l) == KraftUpTo(lens[..|lens| - 1], l) + if last <= l then KraftTerm(last) else 0
  {
    if l > 0 {
      KraftUpToAppend(lens, l - 1);
      CountAppend(lens, l);
      ShiftLeftAdd(Count(lens[..|lens| - 1], l), 1, MAX_LENGTH - l);
      ShiftLeftOne(MAX_LENGTH - l);
    }
  }

  lemma {:induction false} KraftEmpty(l: nat)
    requires l <= MAX_LENGTH
    ensures KraftUpTo([], l) == 0
  {
    if l > 0 {
      KraftEmpty(l - 1);
      ShiftLeftAdd(0, 0, MAX_LENGTH - l);
    }
  }

  lemma {:induction false} KraftByLength(lens: Lengths, n: nat)
    requires n == MAX_LENGTH
    ensures KraftSum(lens) == KraftUpTo(lens, n)
  {
    if lens == [] {
      KraftEmpty(n);
    } else {
      KraftByLength(lens[..|lens| - 1], n);
      KraftUpToAppend(lens, n);
    }
  }

  lemma {:induction false} EndIsPartialKraft(lens: Lengths, l: nat)
    requires 1 <= l <= MAX_LENGTH
    ensures ShiftLeft(End(lens, l), MAX_LENGTH - l) == KraftUpTo(lens, l)
  {
    var n := MAX_LENGTH - l;
    ShiftLeftAdd(First(lens, l), Count(lens, l), n);
    if l > 1 {
      EndIsPartialKraft(lens, l - 1);
      assert ShiftLeft(End(lens, l - 1), n + 1) == ShiftLeft(First(lens, l), n);
    } else {
      assert KraftUpTo(lens, 0) == 0;
      ShiftLeftAdd(0, 0, n);
    }
  }

  lemma {:induction false} KraftRises(lens: Lengths, l: nat, m: nat)
    requires l <= m <= MAX_LENGTH
    ensures KraftUpTo(lens, l) <= KraftUpTo(lens, m)
    decreases m - l
  {
    if l < m {
      KraftRises(lens, l, m - 1);
    }
  }

  lemma Pow2Scale(l: nat, x: nat)
    requires l <= MAX_LENGTH
    ensures x <= Pow2(l) <==> ShiftLeft(x, MAX_LENGTH - l) <= Pow2(MAX_LENGTH)
  {
    var n := MAX_LENGTH - l;
    ShiftLeftOne(l);
    ShiftLeftOne(l + n);
    ShiftLeftSplit(1, l, n);
    if x <= Pow2(l) {
      ShiftLeftMonotone(x, Pow2(l), n);
    } else {
      ShiftLeftMonotone(Pow2(l) + 1, x, n);
      ShiftLeftAdd(Pow2(l), 1, n);
      ShiftLeftOne(n);
    }
  }

  /** A length list fits exactly when it meets the Kraft inequality. */
  lemma FitsIffKraft(lens: Lengths, n: nat)
    requires n == MAX_LENGTH
    ensures Fits(lens) <==> KraftSum(lens) <= Pow2(n)
  {
    KraftByLength(lens, n);
    forall l | 1 <= l <= MAX_LENGTH
      ensures FitsAt(lens, l) <==> KraftUpTo(lens, l) <= Pow2(MAX_LENGTH)
      ensures KraftUpTo(lens, l) <= KraftUpTo(lens, MAX_LENGTH)
    {
      EndIsPartialKraft(lens, l);
      Pow2Scale(l, End(lens, l));
      KraftRises(lens, l, MAX_LENGTH);
    }
  }

  // ---------------------------------------------------------------- prefix freedom

  lemma {:induction false} CountToRises(lens: Lengths, l: nat, n: nat, m: nat)
    requires n <= m <= |lens|
    ensures CountTo(lens, l, n) <= CountTo(lens, l, m)
    ensures n < m && lens[n] == l ==> CountTo(lens, l, n) < CountTo(lens, l, m)
    decreases m - n
  {
    if n < m {
      CountToRises(lens, l, n, m - 1);
    }
  }

  lemma CodeBounds(lens: Lengths, i: nat)
    requires ValidLengths(lens) && i < |lens| && lens[i] > 0
    ensures First(lens, lens[i]) <= Code(lens, i) < End(lens, lens[i])
    ensures Fits(lens) ==> Code(lens, i) < Pow2(lens[i])
  {
    CountToRises(lens, lens[i], i, |lens|);
    if Fits(lens) {
      assert FitsAt(lens, lens[i]);
    }
  }

  /** Codes of length m start after every extension of the codes of length l. */
  lemma {:induction false} LongerCodesAfter(lens: Lengths, l: nat, m: nat)
    requires 1 <= l < m
    ensures ShiftLeft(End(lens, l), m - l) <= First(lens, m)
    decreases m - l
  {
    ShiftLeftDouble(End(lens, l), m - l - 1);
    if m > l + 1 {
      LongerCodesAfter(lens, l, m - 1);
    }
  }

  /** A stream whose next bits are below End for length l has no longer code at this place. */
  lemma NoLongerMatch(lens: Lengths, data: seq<byte>, p: nat, l: nat, j: nat)
    requires ValidLengths(lens) && 1 <= l && High(data, p, l) < End(lens, l)
    requires j < |lens| && l < lens[j]
    ensures !Matches(lens, data, p, j)
  {
    var m := lens[j];
    LongerCodesAfter(lens, l, m);
    HighPrefix(data, p, l, m);
    CodeBounds(lens, j);
    ShiftCompare(High(data, p, m), End(lens, l), m - l);
  }

  /** No code is a prefix of another: at most one symbol matches. */
  lemma PrefixFree(lens: Lengths, data: seq<byte>, p: nat, i: nat, j: nat)
    requires ValidLengths(lens) && Matches(lens, data, p, i) && Matches(lens, data, p, j)
    ensures i == j
  {
    CodeBounds(lens, i);
    CodeBounds(lens, j);
    if lens[i] < lens[j] {
      NoLongerMatch(lens, data, p, lens[i], j);
    } else if lens[j] < lens[i] {
      NoLongerMatch(lens, data, p, lens[j], i);
    } else if i < j {
      CountToRises(lens, lens[i], i, j);
    } else if j < i {
      CountToRises(lens, lens[i], j, i);
    }
  }

  lemma {:induction false} NthSymbol(lens: Lengths, l: nat, c: nat, n: nat) returns (i: nat)
    requires n <= |lens| && c < CountTo(lens, l, n)
    ensures i < n && lens[i] == l && CountTo(lens, l, i) == c
  {
    if lens[n - 1] == l && CountTo(lens, l, n - 1) == c {
      i := n - 1;
    } else {
      i := NthSymbol(lens, l, c, n - 1);
    }
  }

  /** Bits in the range of length l are a code of length l. */
  lemma RangeMatches(lens: Lengths, data: seq<byte>, p: nat, l: nat) returns (i: nat)
    requires l >= 1 && First(lens, l) <= High(data, p, l) < End(lens, l)
    ensures Matches(lens, data, p, i) && lens[i] == l
    ensures CountTo(lens, l, i) == High(data, p, l) - First(lens, l)
  {
    i := NthSymbol(lens, l, High(data, p, l) - First(lens, l), |lens|);
  }

  /** The next l bits are at or above the range of length l. */
  ghost predicate AtOrAbove(lens: Lengths, data: seq<byte>, p: nat, l: nat) {
    High(data, p, l) >= End(lens, l)
  }

  /** Where no code of length up to l matches, the bits lie at or above every such range. */
  lemma {:induction false} NoShortMatch(lens: Lengths, data: seq<byte>, p: nat, l: nat)
    requires l >= 1
    requires forall i: nat :: i < |lens| && lens[i] <= l ==> !Matches(lens, data, p, i)
    ensures AtOrAbove(lens, data, p, l)
  {
    if l > 1 {
      NoShortMatch(lens, data, p, l - 1);
    }
    if High(data, p, l) < End(lens, l) {
      var i := RangeMatches(lens, data, p, l);
    }
  }

  /** Where the bits lie at or above the range of length l, no code of length l matches. */
  lemma AboveRange(lens: Lengths, data: seq<byte>, p: nat, i: nat)
    requires ValidLengths(lens) && i < |lens| && lens[i] > 0 && AtOrAbove(lens, data, p, lens[i])
    ensures !Matches(lens, data, p, i)
  {
    CodeBounds(lens, i);
  }
}
