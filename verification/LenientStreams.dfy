/** Two streams that the decoder accepts and RFC 1951 does not: one ends too soon, one has a reserved symbol. */
module LenientStreams {
  import opened Wrappers
  import opened BitStream
  import opened CanonicalCode
  import opened InflateSpec
  import opened ZBlocks
  import opened LenientInflate

  /** Section 3.2.6 of RFC 1951: the codes of the fixed literal alphabet. */
  lemma FixedCode(i: nat)
    requires i < 288
    ensures Code(FixedLiterals(), i) ==
      if i < 144 then 48 + i else if i < 256 then 256 + i else if i < 280 then i - 256 else i - 88
  {
    FixedEnds(6);
    FixedEnds(7);
    FixedEnds(8);
    FixedRank(FixedLiterals(), i);
  }

  /** How many symbols before i have its length. */
  lemma FixedRank(lens: Lengths, i: nat)
    requires lens == FixedLiterals() && i < 288
    ensures CountTo(lens, lens[i], i) ==
      if i < 144 then i else if i < 256 then i - 144 else if i < 280 then i - 256 else i - 136
  {
    var l := lens[i];
    if i < 144 {
      CountRun(lens, l, 0, i, 8);
    } else {
      CountRun(lens, l, 0, 144, 8);
      if i < 256 {
        CountRun(lens, l, 144, i, 9);
      } else {
        CountRun(lens, l, 144, 256, 9);
        FixedRankAbove(lens, i);
      }
    }
  }

  lemma FixedRankAbove(lens: Lengths, i: nat)
    requires lens == FixedLiterals() && 256 <= i < 288
    ensures CountTo(lens, lens[i], i) == CountTo(lens, lens[i], 256) + if i < 280 then i - 256 else i - 280
  {
    if i < 280 {
      CountRun(lens, lens[i], 256, i, 7);
    } else {
      CountRun(lens, lens[i], 256, 280, 7);
      CountRun(lens, lens[i], 280, i, 8);
    }
  }

  /** Which symbol comes next. */
  lemma FixedSymbol(data: seq<byte>, p: nat, i: nat)
    requires i < 288 && High(data, p, FixedLiterals()[i]) == Code(FixedLiterals(), i)
    ensures Symbol(FixedLiterals(), data, p) == Some(i)
  {
    FixedFit();
    SymbolIsTheMatch(FixedLiterals(), data, p, Some(i));
  }

  lemma FixedDistance(data: seq<byte>, p: nat)
    requires High(data, p, 5) == 0
    ensures Symbol(FixedDistances(), data, p) == Some(0)
  {
    FixedFit();
    FixedEnds(4);
    SymbolIsTheMatch(FixedDistances(), data, p, Some(0));
  }

  /** A fixed block that comes to its end at once ends there. */
  lemma EndsAt(data: seq<byte>, p: nat, out: seq<byte>, cap: Option<nat>, rules: Rules)
    requires !PastEnd(p, data, rules) && High(data, p, 7) == 0
    ensures BlockData(FixedLiterals(), FixedDistances(), data, p, out, cap, rules) == Done(p + 7, out)
  {
    FixedCode(256);
    FixedSymbol(data, p, 256);
  }

  lemma {:induction false} HighOfZeros(data: seq<byte>, p: nat, n: nat)
    requires forall q: nat :: p <= q < p + n ==> Bit(data, q) == 0
    ensures High(data, p, n) == 0
  {
    if n > 0 {
      HighOfZeros(data, p, n - 1);
    }
  }

  /** Eight bits of it, one by one. */
  lemma HighOfByte(data: seq<byte>, p: nat, b: seq<nat>)
    requires |b| == 8 && forall q: nat :: p <= q < p + 8 ==> Bit(data, q) == b[q - p]
    ensures High(data, p, 8) ==
      128 * b[0] + 64 * b[1] + 32 * b[2] + 16 * b[3] + 8 * b[4] + 4 * b[5] + 2 * b[6] + b[7]
  {
    assert High(data, p, 1) == b[0] && High(data, p, 2) == 2 * High(data, p, 1) + b[1];
    assert High(data, p, 3) == 2 * High(data, p, 2) + b[2] && High(data, p, 4) == 2 * High(data, p, 3) + b[3];
    assert High(data, p, 5) == 2 * High(data, p, 4) + b[4] && High(data, p, 6) == 2 * High(data, p, 5) + b[5];
    assert High(data, p, 7) == 2 * High(data, p, 6) + b[6] && High(data, p, 8) == 2 * High(data, p, 7) + b[7];
  }

  /** One final fixed block. */
  lemma OnlyBlock(data: seq<byte>, cap: Option<nat>, rules: Rules, b: Outcome<seq<byte>>)
    requires Bit(data, 0) == 1 && Low(data, 1, 2) == 1
    requires b == BlockData(FixedLiterals(), FixedDistances(), data, 3, [], cap, rules)
    ensures Inflate(data, false, cap, rules) ==
      if b.Done? && PastEnd(b.pos, data, rules) then Failed(Exhausted) else b
  {
  }

  /** One byte: the header of a fixed block and five bits of its end symbol, whose other two bits are not there. */
  lemma TruncatedIsAccepted(data: seq<byte>, cap: Option<nat>)
    requires data == [0x03]
    ensures Inflate(data, false, cap, Lenient(2)) == Done(10, [])
    ensures Inflate(data, false, cap, RFC) == Failed(Exhausted)
  {
    TruncatedBits(data);
    EndsAt(data, 3, [], cap, Lenient(2));
    EndsAt(data, 3, [], cap, RFC);
    OnlyBlock(data, cap, Lenient(2), Done(10, []));
    OnlyBlock(data, cap, RFC, Done(10, []));
  }

  lemma TruncatedBits(data: seq<byte>)
    requires data == [0x03]
    ensures Bit(data, 0) == 1 && Low(data, 1, 2) == 1 && High(data, 3, 7) == 0
  {
    BitsOfByte(data, 0, [1, 1, 0, 0, 0, 0, 0, 0]);
    FirstBits(data);
    HighOfZeros(data, 3, 7);
  }

  /** The header of a final fixed block. */
  lemma FirstBits(data: seq<byte>)
    requires Bit(data, 1) == 1 && Bit(data, 2) == 0
    ensures Low(data, 1, 2) == 1
  {
    assert Low(data, 2, 1) == 0;
  }

  /** Literal 0, length symbol 286 with distance symbol 0, and the end. */
  lemma ReservedIsAccepted(data: seq<byte>, cap: Option<nat>)
    requires data == [0x63, 0x18, 0x03, 0x00] && !NoRoom(1, cap)
    ensures Inflate(data, false, cap, Lenient(0)) == Done(31, [0])
    ensures Inflate(data, false, cap, RFC) == Failed(ReservedSymbol)
  {
    ReservedBits(data);
    var literals, distances := FixedLiterals(), FixedDistances();
    FixedCode(0);
    FixedSymbol(data, 3, 0);
    FixedCode(286);
    FixedSymbol(data, 11, 286);
    FixedDistance(data, 19);
    EndsAt(data, 24, [0], cap, Lenient(0));
    EmptyMatch(data, cap);
    assert BlockStep(literals, distances, data, 3, [], cap, false) == More(11, [0]);
    assert BlockStep(literals, distances, data, 3, [], cap, true) == More(11, [0]);
    assert BlockData(literals, distances, data, 11, [0], cap, Lenient(0)) == Done(31, [0]);
    assert BlockData(literals, distances, data, 11, [0], cap, RFC) == Failed(ReservedSymbol);
    OnlyBlock(data, cap, Lenient(0), Done(31, [0]));
    OnlyBlock(data, cap, RFC, Failed(ReservedSymbol));
  }

  /** The reserved length symbol copies nothing. */
  lemma EmptyMatch(data: seq<byte>, cap: Option<nat>)
    requires Symbol(FixedLiterals(), data, 11) == Some(286) && Symbol(FixedDistances(), data, 19) == Some(0)
    requires !NoRoom(1, cap)
    ensures BlockStep(FixedLiterals(), FixedDistances(), data, 11, [0], cap, false) == More(24, [0])
    ensures BlockStep(FixedLiterals(), FixedDistances(), data, 11, [0], cap, true) == Stop(ReservedSymbol)
  {
  }

  lemma ReservedBits(data: seq<byte>)
    requires data == [0x63, 0x18, 0x03, 0x00]
    ensures Bit(data, 0) == 1 && Low(data, 1, 2) == 1 && High(data, 3, 8) == 48 && High(data, 11, 8) == 198
    ensures High(data, 19, 5) == 0 && High(data, 24, 7) == 0
  {
    MiddleBits(data);
    FirstBits(data);
    HighOfByte(data, 3, [0, 0, 1, 1, 0, 0, 0, 0]);
    HighOfByte(data, 11, [1, 1, 0, 0, 0, 1, 1, 0]);
    HighOfZeros(data, 19, 5);
    LastByte(data);
  }

  lemma MiddleBits(data: seq<byte>)
    requires data == [0x63, 0x18, 0x03, 0x00]
    ensures forall q: nat :: q < 24 ==>
      Bit(data, q) == [1, 1, 0, 0, 0, 1, 1, 0, 0, 0, 0, 1, 1, 0, 0, 0, 1, 1, 0, 0, 0, 0, 0, 0][q]
  {
    BitsOfByte(data, 0, [1, 1, 0, 0, 0, 1, 1, 0]);
    BitsOfByte(data, 1, [0, 0, 0, 1, 1, 0, 0, 0]);
    BitsOfByte(data, 2, [1, 1, 0, 0, 0, 0, 0, 0]);
  }

  /** The bits of a byte from its binary digits, least significant first. */
  lemma BitsOfByte(data: seq<byte>, k: nat, b: seq<nat>)
    requires k < |data| && |b| == 8 && forall i :: 0 <= i < 8 ==> b[i] < 2
    requires data[k] == b[0] + 2 * b[1] + 4 * b[2] + 8 * b[3] + 16 * b[4] + 32 * b[5] + 64 * b[6] + 128 * b[7]
    ensures forall q: nat :: 8 * k <= q < 8 * k + 8 ==> Bit(data, q) == b[q - 8 * k]
  {
    var v := data[k];
    var r6, r5 := b[6] + 2 * b[7], b[5] + 2 * b[6] + 4 * b[7];
    var r4, r3 := b[4] + 2 * r5, b[3] + 2 * b[4] + 4 * r5;
    var r2, r1 := b[2] + 2 * r3, b[1] + 2 * b[2] + 4 * r3;
    Digit(v, 0, b[0], r1);
    Digit(v, 1, b[1], r2);
    Digit(v, 2, b[2], r3);
    Digit(v, 3, b[3], r4);
    Digit(v, 4, b[4], r5);
    Digit(v, 5, b[5], r6);
    Digit(v, 6, b[6], b[7]);
    Digit(v, 7, b[7], 0);
    forall q: nat | 8 * k <= q < 8 * k + 8 ensures Bit(data, q) == b[q - 8 * k] {
      assert q / 8 == k && q % 8 == q - 8 * k;
    }
  }

  lemma Digit(v: nat, i: nat, d: nat, rest: nat)
    requires d < 2 && ShiftRight(v, i) == d + 2 * rest
    ensures ShiftRight(v, i) % 2 == d && ShiftRight(v, i + 1) == rest
  {
    ShiftRightTwice(v, i);
  }

  lemma LastByte(data: seq<byte>)
    requires |data| == 4 && data[3] == 0
    ensures High(data, 24, 7) == 0
  {
    BitsOfByte(data, 3, [0, 0, 0, 0, 0, 0, 0, 0]);
    HighOfZeros(data, 24, 7);
  }
}
