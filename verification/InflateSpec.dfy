/**
 What a DEFLATE stream decodes to, after sections 3.2.3 to 3.2.7 of RFC 1951, and where the decoder is more lenient:
 it reads a byte string as if zero bits followed it, and it goes on at symbols that the RFC reserves.
 */
module InflateSpec {
  import opened Wrappers
  import opened BitStream
  import opened CanonicalCode

  /** Unwritten: a match that copies bytes which nothing has written. */
  datatype Failure = Corrupt | ReservedSymbol | Exhausted | OutputFull | Unwritten

  /** Whether reserved symbols end decoding, and how many bits past the end of the input it is followed. */
  datatype Rules = Rules(strict: bool, slack: nat)

  const RFC: Rules := Rules(true, 0)

  predicate PastEnd(p: nat, data: seq<byte>, rules: Rules) {
    p > 8 * |data| + rules.slack
  }

  datatype Outcome<T> = Done(pos: nat, value: T) | Failed(why: Failure)

  /** The lowest symbol below n whose code comes next. */
  ghost function FindSymbol(lens: Lengths, data: seq<byte>, p: nat, n: nat): (s: Option<nat>)
    ensures s.Some? ==> Matches(lens, data, p, s.value)
  {
    if n == 0 then None
    else match FindSymbol(lens, data, p, n - 1)
      case Some(i) => Some(i)
      case None => if Matches(lens, data, p, n - 1) then Some(n - 1) else None
  }

  /** The symbol whose code comes next. */
  ghost function Symbol(lens: Lengths, data: seq<byte>, p: nat): (s: Option<nat>)
    ensures s.Some? ==> Matches(lens, data, p, s.value)
  {
    FindSymbol(lens, data, p, |lens|)
  }

  lemma {:induction false} FindSymbolMatches(lens: Lengths, data: seq<byte>, p: nat, n: nat)
    ensures var s := FindSymbol(lens, data, p, n);
      if s.Some? then Matches(lens, data, p, s.value) else forall i: nat :: i < n ==> !Matches(lens, data, p, i)
  {
    if n > 0 {
      FindSymbolMatches(lens, data, p, n - 1);
    }
  }

  /** Prefix freedom makes the search order irrelevant. */
  lemma SymbolIsTheMatch(lens: Lengths, data: seq<byte>, p: nat, s: Option<nat>)
    requires ValidLengths(lens)
    requires if s.Some? then Matches(lens, data, p, s.value) else forall i: nat :: !Matches(lens, data, p, i)
    ensures Symbol(lens, data, p) == s
  {
    FindSymbolMatches(lens, data, p, |lens|);
    var t := Symbol(lens, data, p);
    if s.Some? && t.Some? {
      PrefixFree(lens, data, p, s.value, t.value);
    }
  }

  // ---------------------------------------------------------------- lengths and distances

  /** Extra bits of length symbol 257 + z. */
  function LengthExtra(z: nat): nat {
    if z < 8 || z >= 28 then 0 else z / 4 - 1
  }

  /** Each length symbol starts where the values of the one before end; 285 is 258. */
  function LengthBase(z: nat): nat {
    if z == 0 then 3 else if z == 28 then 258 else LengthBase(z - 1) + Pow2(LengthExtra(z - 1))
  }

  function DistanceExtra(z: nat): nat {
    if z < 4 then 0 else z / 2 - 1
  }

  function DistanceBase(z: nat): (d: nat)
    ensures d >= 1
  {
    if z == 0 then 1 else DistanceBase(z - 1) + Pow2(DistanceExtra(z - 1))
  }

  /** Length symbols 286 and 287 stand for length 0 in the decoder, and distance symbols 30 and 31 for distance 0. */
  function LengthFrom(z: nat): nat {
    if z > 28 then 0 else LengthBase(z)
  }

  function LengthBits(z: nat): nat {
    if z > 28 then 0 else LengthExtra(z)
  }

  function DistanceFrom(d: nat): nat {
    if d > 29 then 0 else DistanceBase(d)
  }

  function DistanceBits(d: nat): nat {
    if d > 29 then 0 else DistanceExtra(d)
  }

  /** Copying len bytes from dist back, one at a time, so that source and target may overlap. */
  function CopyMatch(out: seq<byte>, dist: nat, len: nat): seq<byte>
    requires dist <= |out| && (dist == 0 ==> len == 0)
    decreases len
  {
    if len == 0 then out else CopyMatch(out + [out[|out| - dist]], dist, len - 1)
  }

  predicate NoRoom(size: nat, cap: Option<nat>) {
    cap.Some? && size > cap.value
  }

  datatype Copy = Copy(length: nat, distance: nat)

  /** A distance code with its extra bits. */
  ghost function Distance(distances: Lengths, data: seq<byte>, p: nat, strict: bool): (r: Outcome<nat>)
    ensures r.Done? ==> r.pos >= p
  {
    match Symbol(distances, data, p)
    case None => Failed(Corrupt)
    case Some(d) =>
      if strict && d > 29 then Failed(ReservedSymbol)
      else
        var p1 := p + distances[d];
        Done(p1 + DistanceBits(d), DistanceFrom(d) + Low(data, p1, DistanceBits(d)))
  }

  /** The rest of a length/distance pair after length symbol 257 + z. */
  ghost function Match(z: nat, distances: Lengths, data: seq<byte>, p: nat, strict: bool): (r: Outcome<Copy>)
    ensures r.Done? ==> r.pos >= p
  {
    if strict && z > 28 then Failed(ReservedSymbol)
    else match Distance(distances, data, p + LengthBits(z), strict)
      case Failed(why) => Failed(why)
      case Done(p1, distance) => Done(p1, Copy(LengthFrom(z) + Low(data, p, LengthBits(z)), distance))
  }

  datatype Step = More(pos: nat, out: seq<byte>) | EndOfBlock(end: nat) | Stop(why: Failure)

  /** One literal, one match or the end of the block. */
  ghost function BlockStep(literals: Lengths, distances: Lengths, data: seq<byte>, p: nat, out: seq<byte>,
      cap: Option<nat>, strict: bool): (r: Step)
    ensures r.More? ==> r.pos > p
    ensures r.EndOfBlock? ==> r.end > p
  {
    match Symbol(literals, data, p)
    case None => Stop(Corrupt)
    case Some(z) =>
      var p1 := p + literals[z];
      if z < 256 then
        if NoRoom(|out| + 1, cap) then Stop(OutputFull) else More(p1, out + [z])
      else if z == 256 then EndOfBlock(p1)
      else match Match(z - 257, distances, data, p1, strict)
        case Failed(why) => Stop(why)
        case Done(p2, copy) =>
          if copy.distance > |out| then Stop(Corrupt)
          else if NoRoom(|out| + copy.length, cap) then Stop(OutputFull)
          else if copy.distance == 0 && copy.length > 0 then Stop(Unwritten)
          else More(p2, CopyMatch(out, copy.distance, copy.length))
  }

  /** The compressed data of one block, section 3.2.3. */
  ghost function BlockData(literals: Lengths, distances: Lengths, data: seq<byte>, p: nat, out: seq<byte>,
      cap: Option<nat>, rules: Rules): (r: Outcome<seq<byte>>)
    ensures r.Done? ==> r.pos > p
    decreases 8 * |data| + rules.slack + 1 - p
  {
    if PastEnd(p, data, rules) then Failed(Exhausted)
    else match BlockStep(literals, distances, data, p, out, cap, rules.strict)
      case More(p1, out1) => BlockData(literals, distances, data, p1, out1, cap, rules)
      case EndOfBlock(p1) => Done(p1, out)
      case Stop(why) => Failed(why)
  }

  // ---------------------------------------------------------------- block headers

  /** A stored block: from the next byte boundary LEN, its complement, and LEN bytes. */
  function StoredBlock(data: seq<byte>, p: nat, out: seq<byte>, cap: Option<nat>): (r: Outcome<seq<byte>>)
    ensures r.Done? ==> r.pos >= p
  {
    var q := (p + 7) / 8;
    var len := ByteAt(data, q) + 256 * ByteAt(data, q + 1);
    var nlen := ByteAt(data, q + 2) + 256 * ByteAt(data, q + 3);
    if nlen != 0xffff - len || q + 4 + len > |data| then Failed(Corrupt)
    else if NoRoom(|out| + len, cap) then Failed(OutputFull)
    else Done(8 * (q + 4 + len), out + data[q + 4..q + 4 + len])
  }

  /** The fixed codes of section 3.2.6. */
  function FixedLiterals(): (s: Lengths)
    ensures |s| == 288
  {
    seq(288, i => if i < 144 then 8 else if i < 256 then 9 else if i < 280 then 7 else 8)
  }

  function FixedDistances(): (s: Lengths)
    ensures |s| == 32
  {
    seq(32, _ => 5)
  }

  const CodeLengthOrder: seq<nat> := [16, 17, 18, 0, 8, 7, 9, 6, 10, 5, 11, 4, 12, 3, 13, 2, 14, 1, 15]

  /** The first n code length code lengths, three bits each, put in place. */
  function CodeLengths(data: seq<byte>, p: nat, n: nat): (lens: Lengths)
    ensures |lens| == 19
  {
    if n == 0 then seq(19, _ => 0)
    else if n > 19 then CodeLengths(data, p, n - 1)
    else CodeLengths(data, p, n - 1)[CodeLengthOrder[n - 1] := Low(data, p + 3 * (n - 1), 3)]
  }

  function Repeat(v: nat, n: nat): (s: Lengths)
    ensures |s| == n
  {
    seq(n, _ => v)
  }

  /** Repeat codes 16, 17 and 18: the number of their extra bits and the smallest count. */
  function RepeatBits(c: nat): nat {
    if c == 16 then 2 else if c == 17 then 3 else 7
  }

  function RepeatBase(c: nat): nat {
    if c == 18 then 11 else 3
  }

  /** The code lengths of both alphabets, in one run-length coded list of n entries. */
  ghost function LengthList(codes: Lengths, data: seq<byte>, p: nat, n: nat, sofar: Lengths): (r: Outcome<Lengths>)
    requires |codes| == 19 && |sofar| <= n
    ensures if r.Done? then r.pos >= p && |r.value| == n else r.why == Corrupt
    decreases n - |sofar|
  {
    if |sofar| >= n then Done(p, sofar)
    else
      match Symbol(codes, data, p)
      case None => Failed(Corrupt)
      case Some(c) =>
        var p1 := p + codes[c];
        if c < 16 then LengthList(codes, data, p1, n, sofar + [c])
        else if c == 16 && sofar == [] then Failed(Corrupt)
        else
          var count := RepeatBase(c) + Low(data, p1, RepeatBits(c));
          var fill := if c == 16 then sofar[|sofar| - 1] else 0;
          if n - |sofar| < count then Failed(Corrupt)
          else LengthList(codes, data, p1 + RepeatBits(c), n, sofar + Repeat(fill, count))
  }

  datatype Alphabets = Alphabets(literals: Lengths, distances: Lengths)

  /** The two alphabets of a dynamic block, section 3.2.7. */
  ghost function DynamicHeader(data: seq<byte>, p: nat): (r: Outcome<Alphabets>)
    ensures r.Done? ==> r.pos >= p && |r.value.literals| <= 288 && |r.value.distances| <= 32
    ensures r.Failed? ==> r.why == Corrupt
  {
    LowBound(data, p, 5);
    LowBound(data, p + 5, 5);
    assert Pow2(5) == 32;
    var hlit := Low(data, p, 5) + 257;
    var hdist := Low(data, p + 5, 5) + 1;
    var hclen := Low(data, p + 10, 4) + 4;
    var codes := CodeLengths(data, p + 14, hclen);
    if !Fits(codes) then Failed(Corrupt)
    else match LengthList(codes, data, p + 14 + 3 * hclen, hlit + hdist, [])
      case Failed(why) => Failed(why)
      case Done(p1, lens) =>
        if !Fits(lens[..hlit]) || !Fits(lens[hlit..]) then Failed(Corrupt)
        else Done(p1, Alphabets(lens[..hlit], lens[hlit..]))
  }

  /** One block after its three header bits. */
  ghost function Block(kind: nat, data: seq<byte>, p: nat, out: seq<byte>, cap: Option<nat>, rules: Rules)
    : (r: Outcome<seq<byte>>)
    ensures r.Done? ==> r.pos >= p
  {
    if kind == 0 then StoredBlock(data, p, out, cap)
    else if kind == 1 then BlockData(FixedLiterals(), FixedDistances(), data, p, out, cap, rules)
    else if kind == 2 then
      match DynamicHeader(data, p)
      case Failed(why) => Failed(why)
      case Done(p1, both) => BlockData(both.literals, both.distances, data, p1, out, cap, rules)
    else Failed(Corrupt)
  }

  /** A sequence of blocks up to and including the final one. */
  ghost function Blocks(data: seq<byte>, p: nat, out: seq<byte>, cap: Option<nat>, rules: Rules)
    : (r: Outcome<seq<byte>>)
    ensures r.Done? ==> r.pos > p
    decreases 8 * |data| + rules.slack + 1 - p
  {
    if PastEnd(p, data, rules) then Failed(Exhausted)
    else match Block(Low(data, p + 1, 2), data, p + 3, out, cap, rules)
      case Failed(why) => Failed(why)
      case Done(p1, out1) =>
        if PastEnd(p1, data, rules) then Failed(Exhausted)
        else if Bit(data, p) == 1 then Done(p1, out1)
        else Blocks(data, p1, out1, cap, rules)
  }

  /** The two-byte zlib header of RFC 1950: checked, no preset dictionary, compression method 8. */
  predicate ZlibHeaderOk(data: seq<byte>) {
    var cmf, flg := ByteAt(data, 0), ByteAt(data, 1);
    (cmf * 256 + flg) % 31 == 0 && (flg / 32) % 2 == 0 && cmf % 16 == 8
  }

  ghost function Inflate(data: seq<byte>, header: bool, cap: Option<nat>, rules: Rules): Outcome<seq<byte>> {
    if header && !ZlibHeaderOk(data) then Failed(Corrupt)
    else Blocks(data, if header then 16 else 0, [], cap, rules)
  }
}
