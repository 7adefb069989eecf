/**
 Where the decoder differs from RFC 1951: it reads zero bits past the end of the input (3rd_party/imageHelper/
 stb_image.h:3954-3958) and goes on at the symbols that the RFC reserves (4063-4068).
 */
module LenientInflate {
  import opened Wrappers
  import opened BitStream
  import opened CanonicalCode
  import opened InflateSpec

  function Lenient(slack: nat): Rules {
    Rules(false, slack)
  }

  /** Decoding by the RFC comes to a reserved symbol or to the end of the input. */
  ghost predicate Cut<T>(r: Outcome<T>) {
    r == Failed(ReservedSymbol) || r == Failed(Exhausted)
  }

  /** What the decoder gives, r, against what the RFC gives, s. */
  ghost predicate Agrees<T>(r: Outcome<T>, s: Outcome<T>, data: seq<byte>) {
    && (!Cut(s) ==> r == s)
    && (s == Failed(Exhausted) && r.Done? ==> r.pos > 8 * |data|)
    && r != Failed(ReservedSymbol)
  }

  lemma StepAgrees(literals: Lengths, distances: Lengths, data: seq<byte>, p: nat, out: seq<byte>, cap: Option<nat>)
    ensures var s := BlockStep(literals, distances, data, p, out, cap, true);
      var r := BlockStep(literals, distances, data, p, out, cap, false);
      (if s == Stop(ReservedSymbol) then r != s else r == s) && r != Stop(Exhausted) && r != Stop(ReservedSymbol)
  {
  }

  /** Past the end the decoder can only go further. */
  lemma {:induction false} BlockPastEnd(literals: Lengths, distances: Lengths, data: seq<byte>, p: nat, out: seq<byte>,
      cap: Option<nat>, slack: nat)
    ensures BlockData(literals, distances, data, p, out, cap, Lenient(slack)) != Failed(ReservedSymbol)
    decreases 8 * |data| + slack + 1 - p
  {
    if !PastEnd(p, data, Lenient(slack)) {
      StepAgrees(literals, distances, data, p, out, cap);
      match BlockStep(literals, distances, data, p, out, cap, false)
      case More(p1, out1) => BlockPastEnd(literals, distances, data, p1, out1, cap, slack);
      case _ =>
    }
  }

  lemma {:induction false} BlockDataAgrees(literals: Lengths, distances: Lengths, data: seq<byte>, p: nat,
      out: seq<byte>, cap: Option<nat>, slack: nat)
    ensures Agrees(BlockData(literals, distances, data, p, out, cap, Lenient(slack)),
      BlockData(literals, distances, data, p, out, cap, RFC), data)
    decreases 8 * |data| + 1 - p
  {
    BlockPastEnd(literals, distances, data, p, out, cap, slack);
    if !PastEnd(p, data, RFC) {
      StepAgrees(literals, distances, data, p, out, cap);
      match BlockStep(literals, distances, data, p, out, cap, true)
      case More(p1, out1) => BlockDataAgrees(literals, distances, data, p1, out1, cap, slack);
      case _ =>
    }
  }

  lemma BlockAgrees(kind: nat, data: seq<byte>, p: nat, out: seq<byte>, cap: Option<nat>, slack: nat)
    ensures Agrees(Block(kind, data, p, out, cap, Lenient(slack)), Block(kind, data, p, out, cap, RFC), data)
  {
    if kind == 1 {
      BlockDataAgrees(FixedLiterals(), FixedDistances(), data, p, out, cap, slack);
    } else if kind == 2 {
      match DynamicHeader(data, p)
      case Failed(why) =>
      case Done(p1, both) => BlockDataAgrees(both.literals, both.distances, data, p1, out, cap, slack);
    }
  }

  lemma {:induction false} BlocksPastEnd(data: seq<byte>, p: nat, out: seq<byte>, cap: Option<nat>, slack: nat)
    ensures Blocks(data, p, out, cap, Lenient(slack)) != Failed(ReservedSymbol)
    decreases 8 * |data| + slack + 1 - p
  {
    if !PastEnd(p, data, Lenient(slack)) {
      var kind := Low(data, p + 1, 2);
      BlockAgrees(kind, data, p + 3, out, cap, slack);
      match Block(kind, data, p + 3, out, cap, Lenient(slack))
      case Failed(why) =>
      case Done(p1, out1) => BlocksPastEnd(data, p1, out1, cap, slack);
    }
  }

  /** What follows a block. */
  ghost function AfterBlock(b: Outcome<seq<byte>>, last: bool, data: seq<byte>, cap: Option<nat>, rules: Rules)
    : Outcome<seq<byte>>
  {
    match b
    case Failed(why) => Failed(why)
    case Done(p, out) =>
      if PastEnd(p, data, rules) then Failed(Exhausted) else if last then b else Blocks(data, p, out, cap, rules)
  }

  lemma AfterBlockAgrees(b: Outcome<seq<byte>>, c: Outcome<seq<byte>>, last: bool, data: seq<byte>, cap: Option<nat>,
      slack: nat)
    requires Agrees(b, c, data)
    requires c.Done? && c.pos <= 8 * |data| ==>
      Agrees(Blocks(data, c.pos, c.value, cap, Lenient(slack)), Blocks(data, c.pos, c.value, cap, RFC), data)
    ensures Agrees(AfterBlock(b, last, data, cap, Lenient(slack)), AfterBlock(c, last, data, cap, RFC), data)
  {
    if b.Done? {
      BlocksPastEnd(data, b.pos, b.value, cap, slack);
    }
  }

  lemma BlockHere(kind: nat, last: bool, data: seq<byte>, p: nat, out: seq<byte>, cap: Option<nat>, rules: Rules)
    returns (b: Outcome<seq<byte>>)
    requires !PastEnd(p, data, rules) && kind == Low(data, p + 1, 2) && last == (Bit(data, p) == 1)
    ensures b == Block(kind, data, p + 3, out, cap, rules)
    ensures Blocks(data, p, out, cap, rules) == AfterBlock(b, last, data, cap, rules)
  {
    b := Block(kind, data, p + 3, out, cap, rules);
  }

  /** By either rules the same block comes next, and it is the last or not. */
  lemma NextBlock(data: seq<byte>, p: nat, out: seq<byte>, cap: Option<nat>, slack: nat)
    returns (b: Outcome<seq<byte>>, c: Outcome<seq<byte>>, last: bool)
    requires !PastEnd(p, data, RFC)
    ensures Agrees(b, c, data) && (c.Done? ==> c.pos > p)
    ensures Blocks(data, p, out, cap, Lenient(slack)) == AfterBlock(b, last, data, cap, Lenient(slack))
    ensures Blocks(data, p, out, cap, RFC) == AfterBlock(c, last, data, cap, RFC)
  {
    var kind := Low(data, p + 1, 2);
    last := Bit(data, p) == 1;
    b := BlockHere(kind, last, data, p, out, cap, Lenient(slack));
    c := BlockHere(kind, last, data, p, out, cap, RFC);
    BlockAgrees(kind, data, p + 3, out, cap, slack);
  }

  lemma {:induction false} BlocksAgree(data: seq<byte>, p: nat, out: seq<byte>, cap: Option<nat>, slack: nat)
    ensures Agrees(Blocks(data, p, out, cap, Lenient(slack)), Blocks(data, p, out, cap, RFC), data)
    decreases 8 * |data| + 1 - p
  {
    if PastEnd(p, data, RFC) {
      BlocksPastEnd(data, p, out, cap, slack);
    } else {
      var b, c, last := NextBlock(data, p, out, cap, slack);
      if c.Done? && c.pos <= 8 * |data| {
        BlocksAgree(data, c.pos, c.value, cap, slack);
      }
      AfterBlockAgrees(b, c, last, data, cap, slack);
    }
  }

  lemma {:induction false} DoneInside(data: seq<byte>, p: nat, out: seq<byte>, cap: Option<nat>, rules: Rules)
    ensures var r := Blocks(data, p, out, cap, rules); r.Done? ==> r.pos <= 8 * |data| + rules.slack
    decreases 8 * |data| + rules.slack + 1 - p
  {
    if !PastEnd(p, data, rules) {
      match Block(Low(data, p + 1, 2), data, p + 3, out, cap, rules)
      case Failed(why) =>
      case Done(p1, out1) => DoneInside(data, p1, out1, cap, rules);
    }
  }

  /**
   The decoder gives what the RFC gives exactly if the stream neither ends too soon nor has a reserved symbol: an output
   that it accepts is the RFC's exactly if all bits read were there and the RFC comes to no reserved symbol, and it
   accepts all that the RFC accepts.
   */
  lemma RightIffComplete(data: seq<byte>, header: bool, cap: Option<nat>, slack: nat)
    ensures var r, s := Inflate(data, header, cap, Lenient(slack)), Inflate(data, header, cap, RFC);
      && (s != Failed(Exhausted) ==> (r == s <==> s != Failed(ReservedSymbol)))
      && (r.Done? ==> (r == s <==> r.pos <= 8 * |data| && s != Failed(ReservedSymbol)))
  {
    if !header || ZlibHeaderOk(data) {
      BlocksAgree(data, if header then 16 else 0, [], cap, slack);
      DoneInside(data, if header then 16 else 0, [], cap, RFC);
    }
  }

  // ---------------------------------------------------------------- following the run further

  lemma {:induction false} BlockDataFollowed(literals: Lengths, distances: Lengths, data: seq<byte>, p: nat,
      out: seq<byte>, cap: Option<nat>, strict: bool, n: nat, m: nat)
    requires n <= m
    ensures var r := BlockData(literals, distances, data, p, out, cap, Rules(strict, n));
      r != Failed(Exhausted) ==> BlockData(literals, distances, data, p, out, cap, Rules(strict, m)) == r
    decreases 8 * |data| + n + 1 - p
  {
    if !PastEnd(p, data, Rules(strict, n)) {
      match BlockStep(literals, distances, data, p, out, cap, strict)
      case More(p1, out1) => BlockDataFollowed(literals, distances, data, p1, out1, cap, strict, n, m);
      case _ =>
    }
  }

  lemma BlockFollowed(kind: nat, data: seq<byte>, p: nat, out: seq<byte>, cap: Option<nat>, strict: bool, n: nat,
      m: nat)
    requires n <= m
    ensures var r := Block(kind, data, p, out, cap, Rules(strict, n));
      r != Failed(Exhausted) ==> Block(kind, data, p, out, cap, Rules(strict, m)) == r
  {
    if kind == 1 {
      BlockDataFollowed(FixedLiterals(), FixedDistances(), data, p, out, cap, strict, n, m);
    } else if kind == 2 {
      match DynamicHeader(data, p)
      case Failed(why) =>
      case Done(p1, both) => BlockDataFollowed(both.literals, both.distances, data, p1, out, cap, strict, n, m);
    }
  }

  lemma {:induction false} BlocksFollowed(data: seq<byte>, p: nat, out: seq<byte>, cap: Option<nat>, strict: bool,
      n: nat, m: nat)
    requires n <= m
    ensures var r := Blocks(data, p, out, cap, Rules(strict, n));
      r != Failed(Exhausted) ==> Blocks(data, p, out, cap, Rules(strict, m)) == r
    decreases 8 * |data| + n + 1 - p
  {
    if !PastEnd(p, data, Rules(strict, n)) {
      var kind := Low(data, p + 1, 2);
      BlockFollowed(kind, data, p + 3, out, cap, strict, n, m);
      match Block(kind, data, p + 3, out, cap, Rules(strict, n))
      case Failed(why) =>
      case Done(p1, out1) => BlocksFollowed(data, p1, out1, cap, strict, n, m);
    }
  }

  /** Once the decoder has come to an end, following it further changes nothing. */
  lemma FollowedFurther(data: seq<byte>, header: bool, cap: Option<nat>, n: nat, m: nat)
    requires n <= m
    ensures var r := Inflate(data, header, cap, Lenient(n));
      r != Failed(Exhausted) ==> Inflate(data, header, cap, Lenient(m)) == r
  {
    if !header || ZlibHeaderOk(data) {
      BlocksFollowed(data, if header then 16 else 0, [], cap, false, n, m);
    }
  }
}
