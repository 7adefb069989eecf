/**
 The compressed blocks of the inflate decoder (3rd_party/imageHelper/stb_image.h:3979-4084) proved against InflateSpec,
 with the decoder's own rules: it goes on at reserved symbols and with zero bits past the end of its input.
 */
module ZInflate {
  import opened Wrappers
  import opened BitStream
  import opened CanonicalCode
  import opened ZHuffman
  import opened InflateSpec
  import opened ZBuf

  // ---------------------------------------------------------------- symbols

  /** Comparing the next 16 bits with a shifted range end compares the next l bits with the end. */
  lemma ShiftedCompare(lens: Lengths, data: seq<byte>, p: nat, l: nat)
    requires l <= 16
    ensures High(data, p, 16) >= ShiftedEnd(lens, l) <==> AtOrAbove(lens, data, p, l)
  {
    HighPrefix(data, p, l, 16);
    ShiftCompare(High(data, p, 16), End(lens, l), 16 - l);
  }

  /** The bits of the first length whose range they are below are a code of that length, at the slot the tables name. */
  lemma FirstRangeMatches(lens: Lengths, data: seq<byte>, p: nat, s: nat) returns (i: nat)
    requires 2 <= s <= 16 && !AtOrAbove(lens, data, p, s) && AtOrAbove(lens, data, p, s - 1)
    ensures Matches(lens, data, p, i) && lens[i] == s
    ensures Slot(lens, i) == ShiftRight(High(data, p, 16), 16 - s) - First(lens, s) + FirstSymbol(lens, s)
  {
    HighPrefix(data, p, s, 16);
    i := RangeMatches(lens, data, p, s);
  }

  lemma NothingMatches(lens: Lengths, data: seq<byte>, p: nat)
    requires ValidLengths(lens)
    requires forall i: nat :: i < |lens| && lens[i] <= FAST_BITS ==> !Matches(lens, data, p, i)
    requires forall t :: FAST_BITS < t <= MAX_LENGTH ==> AtOrAbove(lens, data, p, t)
    ensures forall i: nat :: !Matches(lens, data, p, i)
  {
    forall i: nat ensures !Matches(lens, data, p, i) {
      if i < |lens| && lens[i] > FAST_BITS {
        AboveRange(lens, data, p, i);
      }
    }
  }

  /** The next n bits, most significant first. */
  method PeekHigh(a: ZBuf, n: nat) returns (k: nat)
    requires a.BitsValid() && a.num_bits >= n
    ensures k == High(a.zbuffer, a.BitPos(), n) && k < Pow2(n)
  {
    LowMaskShift(a.zbuffer, a.BitPos(), n, a.num_bits);
    RevLow(a.zbuffer, a.BitPos(), n);
    HighBound(a.zbuffer, a.BitPos(), n);
    k := Rev(Mask(a.code_buffer, n), n);
  }

  /** The next n bits, least significant first. */
  method PeekLow(a: ZBuf, n: nat) returns (k: nat)
    requires a.BitsValid() && a.num_bits >= n
    ensures k == Low(a.zbuffer, a.BitPos(), n) && k < Pow2(n)
  {
    LowMaskShift(a.zbuffer, a.BitPos(), n, a.num_bits);
    LowBound(a.zbuffer, a.BitPos(), n);
    k := Mask(a.code_buffer, n);
  }

  /** The fast entry for the next nine bits. */
  method FastLookup(a: ZBuf, z: Huffman, ghost lens: Lengths) returns (b: nat)
    requires a.BitsValid() && a.num_bits >= FAST_BITS && z.Represents(lens)
    ensures b != 0 ==>
      b % FAST_SIZE < |lens| && b / FAST_SIZE == lens[b % FAST_SIZE]
      && Matches(lens, a.zbuffer, a.BitPos(), b % FAST_SIZE)
    ensures b == 0 ==> forall i: nat :: i < |lens| && lens[i] <= FAST_BITS ==> !Matches(lens, a.zbuffer, a.BitPos(), i)
  {
    var j := PeekLow(a, FAST_BITS);
    Pow2Values();
    FastAtMeans(lens, a.zbuffer, a.BitPos(), |lens|);
    b := z.fast[j];
  }

  /** The first length from ten on whose shifted range end exceeds k. */
  method FindLength(z: Huffman, k: nat, ghost lens: Lengths, ghost data: seq<byte>, ghost p: nat) returns (s: nat)
    requires z.Represents(lens) && k == High(data, p, 16) && k < 0x10000
    ensures FAST_BITS < s <= 16
    ensures forall t :: FAST_BITS < t < s ==> AtOrAbove(lens, data, p, t)
    ensures s < 16 ==> !AtOrAbove(lens, data, p, s)
  {
    s := FAST_BITS + 1;
    while true
      invariant FAST_BITS < s <= 16
      invariant forall t :: FAST_BITS < t < s ==> AtOrAbove(lens, data, p, t)
      decreases 16 - s
    {
      ShiftedCompare(lens, data, p, s);
      if k < z.maxcode[s] {
        return;
      }
      s := s + 1;
    }
  }

  /** Codes longer than nine bits: the first length whose shifted range end exceeds the next 16 bits. */
  method DecodeSlowpath(a: ZBuf, z: Huffman, ghost lens: Lengths) returns (symbol: int)
    requires a.BitsValid() && a.num_bits >= 16 && z.Represents(lens)
    requires forall i: nat :: i < |lens| && lens[i] <= FAST_BITS ==> !Matches(lens, a.zbuffer, a.BitPos(), i)
    modifies a`num_bits, a`code_buffer
    ensures a.BitsValid() && symbol >= -1
    ensures symbol >= 0 ==>
      Matches(lens, a.zbuffer, old(a.BitPos()), symbol) && a.BitPos() == old(a.BitPos()) + lens[symbol]
    ensures symbol < 0 ==> forall i: nat :: !Matches(lens, a.zbuffer, old(a.BitPos()), i)
  {
    ghost var data, p := a.zbuffer, a.BitPos();
    var k := PeekHigh(a, 16);
    Pow2Values();
    var s := FindLength(z, k, lens, data, p);
    if s == 16 {
      NothingMatches(lens, data, p);
      return -1;
    }
    if s == FAST_BITS + 1 {
      NoShortMatch(lens, data, p, s - 1);
    }
    ghost var i := FirstRangeMatches(lens, data, p, s);
    var b := ShiftRight(k, 16 - s) - z.firstcode[s] + z.firstsymbol[s];
    assert b == Slot(lens, i) && z.size[b] == s;
    symbol := z.value[b];
    a.Consume(s);
  }

  /** The symbol whose code comes next, or -1 if no code does. */
  method Decode(a: ZBuf, z: Huffman, ghost lens: Lengths) returns (symbol: int)
    requires a.BitsValid() && z.Represents(lens)
    modifies a`zpos, a`fetched, a`num_bits, a`code_buffer
    ensures a.BitsValid() && symbol >= -1
    ensures symbol >= 0 ==> Symbol(lens, a.zbuffer, old(a.BitPos())) == Some(symbol) && symbol < |lens|
    ensures symbol >= 0 ==> lens[symbol] >= 1 && a.BitPos() == old(a.BitPos()) + lens[symbol]
    ensures symbol < 0 ==> Symbol(lens, a.zbuffer, old(a.BitPos())) == None
  {
    ghost var data, p := a.zbuffer, a.BitPos();
    if a.num_bits < 16 {
      a.FillBits();
    }
    var b := FastLookup(a, z, lens);
    if b != 0 {
      var s := b / FAST_SIZE;
      symbol := b % FAST_SIZE;
      SymbolIsTheMatch(lens, data, p, Some(symbol));
      a.Consume(s);
    } else {
      symbol := DecodeSlowpath(a, z, lens);
      SymbolIsTheMatch(lens, data, p, if symbol >= 0 then Some(symbol) else None);
    }
  }

  // ---------------------------------------------------------------- output

  /** Room for n more bytes: the buffer is doubled until they fit. */
  method Zexpand(a: ZBuf, zout: nat, n: nat) returns (ok: bool)
    requires a.Valid() && zout <= a.zstart.Length
    modifies a`zstart, a`zout
    ensures a.zout == zout && ok == a.z_expandable
    ensures !ok ==> a.zstart == old(a.zstart)
    ensures ok ==> fresh(a.zstart) && zout + n <= a.zstart.Length && a.zstart[..zout] == old(a.zstart[..zout])
  {
    a.zout := zout;
    if !a.z_expandable {
      return false;
    }
    var old_limit := a.zstart.Length;
    var limit := old_limit;
    while zout + n > limit
      invariant limit >= old_limit > 0
      decreases zout + n - limit
    {
      limit := limit * 2;
    }
    var q := new byte[limit];
    var k := 0;
    while k < old_limit
      modifies q
      invariant 0 <= k <= old_limit
      invariant forall j :: 0 <= j < k ==> q[j] == a.zstart[j]
    {
      q[k] := a.zstart[k];
      k := k + 1;
    }
    a.zstart := q;
    return true;
  }

  lemma OneCopied(buffer: seq<byte>, after: seq<byte>, zout: nat, dist: nat, len: nat)
    requires 1 <= dist <= zout < |buffer| && len > 0 && |after| == |buffer| && after[..zout] == buffer[..zout]
    requires after[zout] == buffer[zout - dist]
    ensures CopyMatch(after[..zout + 1], dist, len - 1) == CopyMatch(buffer[..zout], dist, len)
  {
    assert after[..zout + 1] == buffer[..zout] + [buffer[..zout][zout - dist]];
  }

  /** The byte before start, repeated. */
  method CopyRun(buffer: array<byte>, start: nat, length: nat)
    requires 1 <= start && start + length <= buffer.Length
    modifies buffer
    ensures buffer[..start + length] == CopyMatch(old(buffer[..start]), 1, length)
  {
    var zout: nat, len: nat, v := start, length, buffer[start - 1];
    ghost var goal := CopyMatch(buffer[..start], 1, length);
    while len > 0
      invariant zout + len == start + length && 1 <= start <= zout && buffer[zout - 1] == v
      invariant goal == CopyMatch(buffer[..zout], 1, len)
    {
      ghost var before := buffer[..];
      buffer[zout] := v;
      OneCopied(before, buffer[..], zout, 1, len);
      zout, len := zout + 1, len - 1;
    }
  }

  /** Byte by byte from dist back. */
  method CopyBack(buffer: array<byte>, start: nat, dist: nat, length: nat)
    requires dist <= start && (dist == 0 ==> length == 0) && start + length <= buffer.Length
    modifies buffer
    ensures buffer[..start + length] == CopyMatch(old(buffer[..start]), dist, length)
  {
    var zout: nat, p: nat, len: nat := start, start - dist, length;
    ghost var goal := CopyMatch(buffer[..start], dist, length);
    while len > 0
      invariant zout + len == start + length && start <= zout && p + dist == zout
      invariant goal == CopyMatch(buffer[..zout], dist, len)
    {
      ghost var before := buffer[..];
      buffer[zout] := buffer[p];
      OneCopied(before, buffer[..], zout, dist, len);
      zout, p, len := zout + 1, p + 1, len - 1;
    }
  }

  /** The copy loops: byte by byte from dist back, or one repeated byte when dist is 1. */
  method CopyBytes(buffer: array<byte>, start: nat, dist: nat, length: nat)
    requires dist <= start && (dist == 0 ==> length == 0) && start + length <= buffer.Length
    modifies buffer
    ensures buffer[..start + length] == CopyMatch(old(buffer[..start]), dist, length)
  {
    if dist == 1 {
      CopyRun(buffer, start, length);
    } else {
      CopyBack(buffer, start, dist, length);
    }
  }

  // ---------------------------------------------------------------- compressed blocks

  const LengthBaseTable: seq<nat> := [
    3, 4, 5, 6, 7, 8, 9, 10, 11, 13, 15, 17, 19, 23, 27, 31, 35, 43, 51, 59,
    67, 83, 99, 115, 131, 163, 195, 227, 258, 0, 0]

  const LengthExtraTable: seq<nat> := [
    0, 0, 0, 0, 0, 0, 0, 0, 1, 1, 1, 1, 2, 2, 2, 2, 3, 3, 3, 3, 4, 4, 4, 4, 5, 5, 5, 5, 0, 0, 0]

  const DistanceBaseTable: seq<nat> := [
    1, 2, 3, 4, 5, 7, 9, 13, 17, 25, 33, 49, 65, 97, 129, 193, 257, 385, 513, 769,
    1025, 1537, 2049, 3073, 4097, 6145, 8193, 12289, 16385, 24577, 0, 0]

  const DistanceExtraTable: seq<nat> := [
    0, 0, 0, 0, 1, 1, 2, 2, 3, 3, 4, 4, 5, 5, 6, 6, 7, 7, 8, 8, 9, 9, 10, 10, 11, 11, 12, 12, 13, 13, 0, 0]

  /** The base tables step by the number of values that the extra bits give. */
  ghost predicate StepsByExtra(base: seq<nat>, extra: seq<nat>, n: nat) {
    |base| > n && |extra| > n && forall z :: 0 <= z < n ==> base[z + 1] == base[z] + Pow2(extra[z])
  }

  lemma LengthsStep()
    ensures StepsByExtra(LengthBaseTable, LengthExtraTable, 27)
  {
    assert Pow2(0) == 1 && Pow2(1) == 2 && Pow2(2) == 4 && Pow2(3) == 8 && Pow2(4) == 16 && Pow2(5) == 32;
  }

  lemma DistancesStep()
    ensures StepsByExtra(DistanceBaseTable, DistanceExtraTable, 29)
  {
    assert Pow2(0) == 1 && Pow2(1) == 2 && Pow2(2) == 4 && Pow2(3) == 8 && Pow2(4) == 16;
    assert Pow2(5) == 32 && Pow2(6) == 64;
    assert Pow2(7) == 128 && Pow2(8) == 256 && Pow2(9) == 512 && Pow2(10) == 1024 && Pow2(11) == 2048;
    assert Pow2(12) == 4096 && Pow2(13) == 8192;
  }

  lemma ExtraTables()
    ensures forall z :: 0 <= z <= 28 ==> LengthExtraTable[z] == LengthExtra(z)
    ensures forall z :: 0 <= z <= 29 ==> DistanceExtraTable[z] == DistanceExtra(z)
  {
  }

  /** The literal tables hold the values that section 3.2.5 of RFC 1951 describes. */
  lemma {:induction false} RfcLengths(z: nat)
    requires z <= 28
    ensures LengthBaseTable[z] == LengthBase(z) && LengthExtraTable[z] == LengthExtra(z)
  {
    ExtraTables();
    if 0 < z < 28 {
      RfcLengths(z - 1);
      LengthsStep();
    }
  }

  lemma {:induction false} RfcDistances(z: nat)
    requires z <= 29
    ensures DistanceBaseTable[z] == DistanceBase(z) && DistanceExtraTable[z] == DistanceExtra(z)
  {
    ExtraTables();
    if z > 0 {
      RfcDistances(z - 1);
      DistancesStep();
    }
  }

  /** And zeros for the symbols that it reserves. */
  lemma LengthTables(z: nat)
    requires z <= 30
    ensures LengthBaseTable[z] == LengthFrom(z) && LengthExtraTable[z] == LengthBits(z)
  {
    if z <= 28 {
      RfcLengths(z);
    }
  }

  lemma DistanceTables(d: nat)
    requires d <= 31
    ensures DistanceBaseTable[d] == DistanceFrom(d) && DistanceExtraTable[d] == DistanceBits(d)
  {
    if d <= 29 {
      RfcDistances(d);
    }
  }

  /** A base value plus extra bits, if there are any. */
  method ReadExtra(a: ZBuf, base: nat, extra: nat) returns (v: nat)
    requires a.BitsValid() && extra <= 24
    modifies a`zpos, a`fetched, a`num_bits, a`code_buffer
    ensures a.BitsValid() && a.BitPos() == old(a.BitPos()) + extra
    ensures v == base + Low(a.zbuffer, old(a.BitPos()), extra)
  {
    v := base;
    if extra != 0 {
      var more := a.Zreceive(extra);
      v := v + more;
    }
  }

  /** The length after length symbol 257 + z. */
  method ReadLength(a: ZBuf, z: nat) returns (len: nat)
    requires a.BitsValid() && z <= 30
    modifies a`zpos, a`fetched, a`num_bits, a`code_buffer
    ensures a.BitsValid() && a.BitPos() == old(a.BitPos()) + LengthBits(z)
    ensures len == LengthFrom(z) + Low(a.zbuffer, old(a.BitPos()), LengthBits(z))
  {
    LengthTables(z);
    len := ReadExtra(a, LengthBaseTable[z], LengthExtraTable[z]);
  }

  /** The extra bits after distance symbol d. */
  method ReadDistanceBits(a: ZBuf, d: nat) returns (dist: nat)
    requires a.BitsValid() && d <= 31
    modifies a`zpos, a`fetched, a`num_bits, a`code_buffer
    ensures a.BitsValid() && a.BitPos() == old(a.BitPos()) + DistanceBits(d)
    ensures dist == DistanceFrom(d) + Low(a.zbuffer, old(a.BitPos()), DistanceBits(d))
  {
    DistanceTables(d);
    dist := ReadExtra(a, DistanceBaseTable[d], DistanceExtraTable[d]);
  }

  /** The distance after distance symbol d. */
  ghost function DistanceStep(d: int, data: seq<byte>, p1: nat): Outcome<nat> {
    if d < 0 then Failed(Corrupt)
    else Done(p1 + DistanceBits(d), DistanceFrom(d) + Low(data, p1, DistanceBits(d)))
  }

  lemma DistanceBySymbol(distances: Lengths, data: seq<byte>, p: nat, d: int, p1: nat)
    requires d < 0 ==> Symbol(distances, data, p) == None
    requires d >= 0 ==> Symbol(distances, data, p) == Some(d) && p1 == p + distances[d]
    ensures Distance(distances, data, p, false) == DistanceStep(d, data, p1)
  {
  }

  /** What remains to be read after the distance symbol. */
  method DecodeDistance(a: ZBuf, z: Huffman, ghost distances: Lengths) returns (d: int)
    requires a.BitsValid() && z.Represents(distances)
    modifies a`zpos, a`fetched, a`num_bits, a`code_buffer
    ensures a.BitsValid() && d < |distances|
    ensures Distance(distances, a.zbuffer, old(a.BitPos()), false) == DistanceStep(d, a.zbuffer, a.BitPos())
  {
    ghost var p := a.BitPos();
    d := Decode(a, z, distances);
    DistanceBySymbol(distances, a.zbuffer, p, d, a.BitPos());
  }

  /** A distance code with its extra bits. */
  method ReadDistance(a: ZBuf, ghost distances: Lengths) returns (r: Option<Failure>, dist: nat)
    requires a.BitsValid() && a.z_distance.Represents(distances) && |distances| <= 32
    modifies a`zpos, a`fetched, a`num_bits, a`code_buffer
    ensures a.BitsValid()
    ensures Distance(distances, a.zbuffer, old(a.BitPos()), false) ==
      if r.None? then Done(a.BitPos(), dist) else Failed(r.value)
  {
    dist := 0;
    var d := DecodeDistance(a, a.z_distance, distances);
    if d < 0 {
      return Some(Corrupt), dist;
    }
    dist := ReadDistanceBits(a, d);
    return None, dist;
  }

  lemma MatchByDistance(z: nat, distances: Lengths, data: seq<byte>, p: nat, len: nat, d: Outcome<nat>)
    requires len == LengthFrom(z) + Low(data, p, LengthBits(z))
    requires d == Distance(distances, data, p + LengthBits(z), false)
    ensures Match(z, distances, data, p, false) ==
      match d case Failed(why) => Failed(why) case Done(p1, dist) => Done(p1, Copy(len, dist))
  {
  }

  /** Length and distance after length symbol 257 + z. */
  method ReadMatch(a: ZBuf, z: nat, ghost distances: Lengths) returns (r: Option<Failure>, len: nat, dist: nat)
    requires a.BitsValid() && a.z_distance.Represents(distances) && z <= 30 && |distances| <= 32
    modifies a`zpos, a`fetched, a`num_bits, a`code_buffer
    ensures a.BitsValid()
    ensures Match(z, distances, a.zbuffer, old(a.BitPos()), false) ==
      if r.None? then Done(a.BitPos(), Copy(len, dist)) else Failed(r.value)
  {
    len, dist := 0, 0;
    ghost var p := a.BitPos();
    len := ReadLength(a, z);
    MatchByDistance(z, distances, a.zbuffer, p, len, Distance(distances, a.zbuffer, a.BitPos(), false));
    r, dist := ReadDistance(a, distances);
  }

  /** The object graph that the block decoders work on. */
  ghost predicate Ready(a: ZBuf, literals: Lengths, distances: Lengths)
    reads a, a.z_length, a.z_distance
  {
    && a.Valid() && a.z_length.Represents(literals) && a.z_distance.Represents(distances)
    && |literals| <= 288 && |distances| <= 32
  }

  /** One literal byte at zout. */
  method PutByte(a: ZBuf, zout0: nat, v: byte) returns (ok: bool, zout: nat)
    requires a.Valid() && zout0 <= a.zstart.Length
    modifies a`zstart, a`zout, a.zstart
    ensures a.zstart == old(a.zstart) || fresh(a.zstart)
    ensures a.BitsValid() && a.Cap() == old(a.Cap())
    ensures ok <==> !NoRoom(zout0 + 1, old(a.Cap()))
    ensures ok ==> a.Valid() && zout == zout0 + 1 <= a.zstart.Length && a.zstart[..zout] == old(a.zstart[..zout0]) + [v]
  {
    zout := zout0;
    if zout >= a.zstart.Length {
      ok := Zexpand(a, zout, 1);
      if !ok {
        return;
      }
      zout := a.zout;
    }
    a.zstart[zout] := v;
    zout := zout + 1;
    ok := true;
  }

  /** One copied match at zout. */
  method PutMatch(a: ZBuf, zout0: nat, dist: nat, len: nat) returns (r: Option<Failure>, zout: nat)
    requires a.Valid() && dist <= zout0 <= a.zstart.Length
    modifies a`zstart, a`zout, a.zstart
    ensures a.zstart == old(a.zstart) || fresh(a.zstart)
    ensures a.BitsValid() && a.Cap() == old(a.Cap())
    ensures r == if NoRoom(zout0 + len, old(a.Cap())) then Some(OutputFull)
      else if dist == 0 && len > 0 then Some(Unwritten) else None
    ensures r.None? ==> a.Valid() && zout == zout0 + len <= a.zstart.Length
    ensures r.None? ==> a.zstart[..zout] == CopyMatch(old(a.zstart[..zout0]), dist, len)
  {
    zout := zout0;
    if zout + len > a.zstart.Length {
      var ok := Zexpand(a, zout, len);
      if !ok {
        return Some(OutputFull), zout;
      }
      zout := a.zout;
    }
    if dist == 0 && len > 0 {
      return Some(Unwritten), zout;
    }
    CopyBytes(a.zstart, zout, dist, len);
    zout := zout + len;
    r := None;
  }

  /** What a match does to the output. */
  ghost function MatchStep(r: Outcome<Copy>, out: seq<byte>, cap: Option<nat>): Step
  {
    match r
    case Failed(why) => Stop(why)
    case Done(p2, copy) =>
      if copy.distance > |out| then Stop(Corrupt)
      else if NoRoom(|out| + copy.length, cap) then Stop(OutputFull)
      else if copy.distance == 0 && copy.length > 0 then Stop(Unwritten)
      else More(p2, CopyMatch(out, copy.distance, copy.length))
  }

  /** The step of a block after literal or length symbol z. */
  ghost function SymbolStep(z: int, distances: Lengths, data: seq<byte>, p1: nat, out: seq<byte>,
      cap: Option<nat>): Step {
    if z < 0 then Stop(Corrupt)
    else if z < 256 then if NoRoom(|out| + 1, cap) then Stop(OutputFull) else More(p1, out + [z])
    else if z == 256 then EndOfBlock(p1)
    else MatchStep(Match(z - 257, distances, data, p1, false), out, cap)
  }

  lemma StepBySymbol(literals: Lengths, distances: Lengths, data: seq<byte>, p: nat, z: int, p1: nat, out: seq<byte>,
      cap: Option<nat>)
    requires z < 0 ==> Symbol(literals, data, p) == None
    requires z >= 0 ==> Symbol(literals, data, p) == Some(z) && p1 == p + literals[z]
    ensures BlockStep(literals, distances, data, p, out, cap, false) == SymbolStep(z, distances, data, p1, out, cap)
  {
  }

  /** What remains to be done after the next symbol. */
  method DecodeStep(a: ZBuf, z: Huffman, ghost literals: Lengths, ghost distances: Lengths, ghost out: seq<byte>,
      ghost cap: Option<nat>)
    returns (symbol: int)
    requires a.BitsValid() && z.Represents(literals)
    modifies a`zpos, a`fetched, a`num_bits, a`code_buffer
    ensures a.BitsValid()
    ensures symbol < |literals|
    ensures BlockStep(literals, distances, a.zbuffer, old(a.BitPos()), out, cap, false) ==
      SymbolStep(symbol, distances, a.zbuffer, a.BitPos(), out, cap)
  {
    ghost var p := a.BitPos();
    symbol := Decode(a, z, literals);
    StepBySymbol(literals, distances, a.zbuffer, p, symbol, a.BitPos(), out, cap);
  }

  /** A match into the output. */
  method ParseMatch(a: ZBuf, zout0: nat, z: nat, ghost distances: Lengths) returns (r: Option<Failure>, zout: nat)
    requires a.Valid() && a.z_distance.Represents(distances) && |distances| <= 32
    requires zout0 <= a.zstart.Length && z <= 30
    modifies a`zpos, a`fetched, a`num_bits, a`code_buffer, a`zstart, a`zout, a.zstart
    ensures a.zstart == old(a.zstart) || fresh(a.zstart)
    ensures a.BitsValid() && a.Cap() == old(a.Cap())
    ensures r.None? ==> a.Valid() && zout <= a.zstart.Length
    ensures MatchStep(Match(z, distances, a.zbuffer, old(a.BitPos()), false), old(a.zstart[..zout0]), old(a.Cap())) ==
      if r.Some? then Stop(r.value) else More(a.BitPos(), a.zstart[..zout])
  {
    zout := zout0;
    var len, dist;
    r, len, dist := ReadMatch(a, z, distances);
    if r.Some? {
      return;
    }
    if zout < dist {
      return Some(Corrupt), zout;
    }
    r, zout := PutMatch(a, zout, dist, len);
  }

  /** One literal, one match or the end of the block. */
  method ParseSymbol(a: ZBuf, zout0: nat, ghost literals: Lengths, ghost distances: Lengths)
    returns (r: Option<Failure>, end: bool, zout: nat)
    requires Ready(a, literals, distances) && zout0 <= a.zstart.Length
    modifies a`zpos, a`fetched, a`num_bits, a`code_buffer, a`zstart, a`zout, a.zstart
    ensures a.zstart == old(a.zstart) || fresh(a.zstart)
    ensures a.BitsValid() && a.Cap() == old(a.Cap())
    ensures r.None? ==> a.Valid() && zout <= a.zstart.Length
    ensures end ==>
      r.None? && zout <= a.zstart.Length && a.zstart == old(a.zstart) && a.zstart[..zout] == old(a.zstart[..zout0])
    ensures BlockStep(literals, distances, a.zbuffer, old(a.BitPos()), old(a.zstart[..zout0]), old(a.Cap()), false) ==
      if r.Some? then Stop(r.value) else if end then EndOfBlock(a.BitPos()) else More(a.BitPos(), a.zstart[..zout])
  {
    zout, end := zout0, false;
    ghost var out, cap := a.zstart[..zout0], a.Cap();
    var z := DecodeStep(a, a.z_length, literals, distances, out, cap);
    if z < 0 {
      return Some(Corrupt), end, zout;
    }
    if z < 256 {
      var ok;
      ok, zout := PutByte(a, zout, z);
      return if ok then None else Some(OutputFull), end, zout;
    }
    if z == 256 {
      return None, true, zout;
    }
    r, zout := ParseMatch(a, zout, z - 257, distances);
  }

  /** Decoding a block has come to the present position with the output up to zout. */
  ghost predicate InBlock(a: ZBuf, literals: Lengths, distances: Lengths, zout: nat, cap: Option<nat>, rules: Rules,
      goal: Outcome<seq<byte>>)
    reads a, a.zstart, a.z_length, a.z_distance
  {
    && Ready(a, literals, distances) && zout <= a.zstart.Length && a.Cap() == cap
    && goal == BlockData(literals, distances, a.zbuffer, a.BitPos(), a.zstart[..zout], cap, rules)
  }

  /** One step of it. */
  method ParseNext(a: ZBuf, zout0: nat, ghost literals: Lengths, ghost distances: Lengths, ghost cap: Option<nat>,
      ghost rules: Rules, ghost goal: Outcome<seq<byte>>)
    returns (r: Option<Failure>, end: bool, zout: nat)
    requires InBlock(a, literals, distances, zout0, cap, rules, goal) && !rules.strict
    requires !PastEnd(a.BitPos(), a.zbuffer, rules)
    modifies a`zpos, a`fetched, a`num_bits, a`code_buffer, a`zstart, a`zout, a.zstart
    ensures a.zstart == old(a.zstart) || fresh(a.zstart)
    ensures a.Cap() == cap && (r.None? ==> a.Valid() && zout <= a.zstart.Length)
    ensures r.Some? ==> goal == Failed(r.value)
    ensures r.None? && end ==> goal == Done(a.BitPos(), a.zstart[..zout])
    ensures r.None? && !end ==>
      InBlock(a, literals, distances, zout, cap, rules, goal) && a.BitPos() > old(a.BitPos())
  {
    ghost var p := a.BitPos();
    r, end, zout := ParseSymbol(a, zout0, literals, distances);
    assert BlockStep(literals, distances, a.zbuffer, p, old(a.zstart[..zout0]), cap, false) ==
      if r.Some? then Stop(r.value) else if end then EndOfBlock(a.BitPos()) else More(a.BitPos(), a.zstart[..zout]);
  }

  method SetOutput(a: ZBuf, zout: nat)
    requires a.Valid() && zout <= a.zstart.Length
    modifies a`zout
    ensures a.Valid() && a.zout == zout && a.Output() == a.zstart[..zout]
    ensures a.Cap() == old(a.Cap()) && a.BitPos() == old(a.BitPos())
  {
    a.zout := zout;
  }

  /** A block of compressed data, followed no further than slack bits past the end of the input. */
  method ParseHuffmanBlock(a: ZBuf, slack: nat, ghost literals: Lengths, ghost distances: Lengths)
    returns (r: Option<Failure>)
    requires Ready(a, literals, distances)
    modifies a`zpos, a`fetched, a`num_bits, a`code_buffer, a`zstart, a`zout, a.zstart
    ensures a.zstart == old(a.zstart) || fresh(a.zstart)
    ensures a.Cap() == old(a.Cap()) && (r.None? ==> a.Valid())
    ensures BlockData(literals, distances, a.zbuffer, old(a.BitPos()), old(a.Output()), old(a.Cap()),
        Rules(false, slack)) ==
      if r.None? then Done(a.BitPos(), a.Output()) else Failed(r.value)
  {
    var zout: nat := a.zout;
    ghost var cap, rules := a.Cap(), Rules(false, slack);
    ghost var goal := BlockData(literals, distances, a.zbuffer, a.BitPos(), a.Output(), cap, rules);
    while a.BitPos() <= 8 * |a.zbuffer| + slack
      invariant InBlock(a, literals, distances, zout, cap, rules, goal)
      invariant a.zstart == old(a.zstart) || fresh(a.zstart)
      decreases 8 * |a.zbuffer| + slack + 1 - a.BitPos()
    {
      var end;
      r, end, zout := ParseNext(a, zout, literals, distances, cap, rules, goal);
      if r.Some? {
        return;
      }
      if end {
        SetOutput(a, zout);
        return None;
      }
    }
    return Some(Exhausted);
  }
}
