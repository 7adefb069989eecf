/**
 The order in which a GIF frame's rows are stored, Appendix E of the GIF89a specification: from top
 to bottom, or interlaced in four passes.
 */
module GifRows {
  import opened Wrappers

  /** Every step-th row from `from` on. */
  function Rows(from: nat, step: nat, h: nat): (r: seq<nat>)
    requires step > 0
    decreases if from < h then h - from else 0
  {
    if from >= h then [] else [from] + Rows(from + step, step, h)
  }

  /** First row and spacing of pass p of an interlaced frame, counted down from 3. */
  function PassStart(p: nat): nat {
    if p == 3 then 4 else if p == 2 then 2 else 1
  }

  function PassStep(p: nat): (s: nat)
    ensures s == 2 * PassStart(p)
  {
    if p == 3 then 8 else if p == 2 then 4 else 2
  }

  /** The passes that are left. */
  function Passes(p: nat, h: nat): seq<nat> {
    if p == 0 then [] else Rows(PassStart(p), PassStep(p), h) + Passes(p - 1, h)
  }

  function RowOrder(interlaced: bool, h: nat): seq<nat> {
    if interlaced then Rows(0, 8, h) + Passes(3, h) else Rows(0, 1, h)
  }

  // ---------------------------------------------------------------- each row once

  lemma {:induction false} RowsHold(from: nat, step: nat, h: nat, r: nat, k: nat)
    requires step > 0 && r == from + k * step && r < h
    ensures r in Rows(from, step, h)
    decreases k
  {
    if k > 0 {
      assert from + step + (k - 1) * step == r && from + step <= r by {
        assert k * step == (k - 1) * step + step;
        assert (k - 1) * step >= 0;
      }
      RowsHold(from + step, step, h, r, k - 1);
    }
  }

  lemma {:induction false} RowsAre(from: nat, step: nat, h: nat, r: nat) returns (k: nat)
    requires step > 0 && r in Rows(from, step, h)
    ensures r == from + k * step && from <= r < h
    decreases if from < h then h - from else 0
  {
    k := 0;
    if r != from {
      k := RowsAre(from + step, step, h, r);
      k := k + 1;
      assert k * step == (k - 1) * step + step;
    }
  }

  lemma {:induction false} RowsDoNotRepeat(from: nat, step: nat, h: nat)
    requires step > 0
    ensures Distinct(Rows(from, step, h))
    decreases if from < h then h - from else 0
  {
    if from < h {
      RowsDoNotRepeat(from + step, step, h);
      var rest := Rows(from + step, step, h);
      forall i | 0 <= i < |rest| ensures rest[i] > from {
        var k := RowsAre(from + step, step, h, rest[i]);
      }
    }
  }

  /** Which rows a pass holds. */
  lemma PassHolds(from: nat, step: nat, h: nat, r: nat)
    requires step == 8 || step == 4 || step == 2 || step == 1
    requires from < step
    ensures r in Rows(from, step, h) <==> r < h && r % step == from
  {
    if r in Rows(from, step, h) {
      var k := RowsAre(from, step, h, r);
      Remainder(from, step, r, k);
    }
    if r < h && r % step == from {
      Remainder(from, step, r, r / step);
      RowsHold(from, step, h, r, r / step);
    }
  }

  lemma Remainder(from: nat, step: nat, r: nat, k: nat)
    requires step == 8 || step == 4 || step == 2 || step == 1
    requires from < step
    ensures r == from + k * step ==> r % step == from
    ensures r % step == from && k == r / step ==> r == from + k * step
  {
    if step == 8 {
      assert k * step == 8 * k;
    } else if step == 4 {
      assert k * step == 4 * k;
    } else if step == 2 {
      assert k * step == 2 * k;
    }
  }

  lemma PassesHold(h: nat, r: nat)
    ensures r in Passes(1, h) <==> r < h && r % 2 == 1
    ensures r in Passes(2, h) <==> r < h && (r % 4 == 2 || r % 2 == 1)
    ensures r in Passes(3, h) <==> r < h && (r % 8 == 4 || r % 4 == 2 || r % 2 == 1)
  {
    PassHolds(1, 2, h, r);
    PassHolds(2, 4, h, r);
    PassHolds(4, 8, h, r);
    assert Passes(1, h) == Rows(1, 2, h);
    assert Passes(2, h) == Rows(2, 4, h) + Passes(1, h);
    assert Passes(3, h) == Rows(4, 8, h) + Passes(2, h);
  }

  lemma {:induction false} PassesDoNotRepeat(p: nat, h: nat)
    requires p <= 3
    ensures Distinct(Passes(p, h))
  {
    if p > 0 {
      PassesDoNotRepeat(p - 1, h);
      RowsDoNotRepeat(PassStart(p), PassStep(p), h);
      forall r | r in Rows(PassStart(p), PassStep(p), h) ensures r !in Passes(p - 1, h) {
        PassHolds(PassStart(p), PassStep(p), h, r);
        PassesHold(h, r);
      }
      DistinctConcat(Rows(PassStart(p), PassStep(p), h), Passes(p - 1, h));
    }
  }

  lemma InterlacedHolds(h: nat, r: nat)
    ensures r in Rows(0, 8, h) ==> r !in Passes(3, h)
    ensures r in Rows(0, 8, h) || r in Passes(3, h) <==> r < h
  {
    PassHolds(0, 8, h, r);
    PassesHold(h, r);
    Residue(r);
  }

  lemma Residue(r: nat)
    ensures r % 8 == 0 || r % 8 == 4 || r % 4 == 2 || r % 2 == 1
    ensures r % 8 == 0 ==> r % 8 != 4 && r % 4 != 2 && r % 2 != 1
  {
  }

  /** Interlaced or not, every row is stored exactly once. */
  lemma RowOrderIsBijection(interlaced: bool, h: nat)
    ensures Distinct(RowOrder(interlaced, h))
    ensures forall r: nat :: r in RowOrder(interlaced, h) <==> r < h
  {
    if interlaced {
      RowsDoNotRepeat(0, 8, h);
      PassesDoNotRepeat(3, h);
      forall r: nat
        ensures r in Rows(0, 8, h) ==> r !in Passes(3, h)
        ensures r in Rows(0, 8, h) + Passes(3, h) <==> r < h
      {
        InterlacedHolds(h, r);
      }
      DistinctConcat(Rows(0, 8, h), Passes(3, h));
    } else {
      RowsDoNotRepeat(0, 1, h);
      forall r: nat ensures r in Rows(0, 1, h) <==> r < h {
        PassHolds(0, 1, h, r);
      }
    }
  }
}
