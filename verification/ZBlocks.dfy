/**
 The blocks of a DEFLATE stream (3rd_party/imageHelper/stb_image.h:4086-4242): stored blocks,
 dynamic code lengths, the fixed codes and the loop over all blocks.
 */
module ZBlocks {
  import opened Wrappers
  import opened BitStream
  import opened CanonicalCode
  import opened ZHuffman
  import opened InflateSpec
  import opened ZBuf
  import opened ZInflate

  // ---------------------------------------------------------------- stored blocks

  lemma Boundary(fetched: nat, bits: nat)
    requires bits <= 8 * fetched
    ensures 8 * ((8 * fetched - bits + 7) / 8) == 8 * fetched - bits + bits % 8
    ensures fetched == (8 * fetched - bits + 7) / 8 + bits / 8
    ensures bits == 8 * (bits / 8) + bits % 8
  {
  }

  /** Drops the bits up to the next byte boundary, byte q; whole bytes stay in the bit buffer. */
  method AlignToByte(a: ZBuf) returns (ghost q: nat, ghost whole: nat)
    requires a.BitsValid() && a.num_bits <= 31
    modifies a`zpos, a`fetched, a`num_bits, a`code_buffer
    ensures a.BitsValid() && a.num_bits == 8 * whole && whole <= 3
    ensures q == (old(a.BitPos()) + 7) / 8 && a.fetched == q + whole
  {
    q, whole := (a.BitPos() + 7) / 8, a.num_bits / 8;
    Boundary(a.fetched, a.num_bits);
    var extra: nat := a.num_bits % 8;
    if extra != 0 {
      var discard := a.Zreceive(extra);
    }
  }

  lemma LowestByte(data: seq<byte>, k: nat, n: nat)
    requires 8 <= n
    ensures Mask(Low(data, 8 * k, n), 8) == ByteAt(data, k)
  {
    LowMaskShift(data, 8 * k, 8, n);
    LowByte(data, k);
  }

  /** The low byte of the bit buffer. */
  method TakeByte(a: ZBuf, ghost k: nat) returns (b: byte)
    requires a.BitsValid() && a.num_bits >= 8 && a.BitPos() == 8 * k
    modifies a`num_bits, a`code_buffer
    ensures a.BitsValid() && a.num_bits == old(a.num_bits) - 8 && b == ByteAt(a.zbuffer, k)
  {
    LowestByte(a.zbuffer, k, a.num_bits);
    b := Mask(a.code_buffer, 8);
    a.Consume(8);
  }

  /** The bytes still in the bit buffer, in stream order. */
  method DrainBytes(a: ZBuf, ghost q: nat, ghost whole: nat) returns (header: seq<byte>)
    requires a.BitsValid() && a.num_bits == 8 * whole && whole <= 3 && a.fetched == q + whole
    modifies a`num_bits, a`code_buffer
    ensures a.BitsValid() && a.num_bits == 0 && |header| == whole
    ensures forall k :: 0 <= k < |header| ==> header[k] == ByteAt(a.zbuffer, q + k)
  {
    header := [];
    while a.num_bits > 0
      invariant a.BitsValid() && |header| <= whole && a.num_bits == 8 * (whole - |header|)
      invariant forall k :: 0 <= k < |header| ==> header[k] == ByteAt(a.zbuffer, q + k)
      decreases a.num_bits
    {
      var b := TakeByte(a, q + |header|);
      header := header + [b];
    }
  }

  /** The four header bytes of a stored block, first those that were prefetched. */
  method ReadHeader(a: ZBuf) returns (header: seq<byte>)
    requires a.BitsValid() && a.num_bits <= 31
    modifies a`zpos, a`fetched, a`num_bits, a`code_buffer
    ensures a.BitsValid() && a.num_bits == 0 && |header| == 4
    ensures a.fetched == (old(a.BitPos()) + 7) / 8 + 4
    ensures forall k :: 0 <= k < 4 ==> header[k] == ByteAt(a.zbuffer, (old(a.BitPos()) + 7) / 8 + k)
  {
    ghost var q, whole := AlignToByte(a);
    header := DrainBytes(a, q, whole);
    while |header| < 4
      invariant a.BitsValid() && a.num_bits == 0 && |header| <= 4 && a.fetched == q + |header|
      invariant forall k :: 0 <= k < |header| ==> header[k] == ByteAt(a.zbuffer, q + k)
    {
      var b := a.Zget8();
      header := header + [b];
    }
  }

  /** Appends input bytes to the output. */
  method CopyInput(buffer: array<byte>, start: nat, data: seq<byte>, from: nat, len: nat)
    requires start + len <= buffer.Length && from + len <= |data|
    modifies buffer
    ensures buffer[..start + len] == old(buffer[..start]) + data[from..from + len]
  {
    var k := 0;
    while k < len
      invariant k <= len
      invariant buffer[..start + k] == old(buffer[..start]) + data[from..from + k]
    {
      buffer[start + k] := data[from + k];
      assert buffer[..start + k + 1] == buffer[..start + k] + [data[from + k]];
      assert data[from..from + k + 1] == data[from..from + k] + [data[from + k]];
      k := k + 1;
    }
  }

  /** Copies len bytes of input at the read pointer to the output. */
  method StoreBytes(a: ZBuf, len: nat) returns (ok: bool)
    requires a.Valid() && a.num_bits == 0 && a.zpos + len <= |a.zbuffer|
    requires a.fetched == a.zpos
    modifies a`zpos, a`fetched, a`zstart, a`zout, a.zstart
    ensures a.zstart == old(a.zstart) || fresh(a.zstart)
    ensures a.Cap() == old(a.Cap())
    ensures ok <==> !NoRoom(old(a.zout) + len, old(a.Cap()))
    ensures ok ==> a.Valid() && a.BitPos() == 8 * (old(a.fetched) + len)
    ensures ok ==> a.Output() == old(a.Output()) + a.zbuffer[old(a.fetched)..old(a.fetched) + len]
  {
    if a.zout + len > a.zstart.Length {
      ok := Zexpand(a, a.zout, len);
      if !ok {
        return;
      }
    }
    CopyInput(a.zstart, a.zout, a.zbuffer, a.zpos, len);
    a.zpos, a.fetched := a.zpos + len, a.fetched + len;
    a.zout := a.zout + len;
    ok := true;
  }

  function Word(low: nat, high: nat): nat {
    high * 256 + low
  }

  /** A stored block: no byte that was prefetched into the bit buffer is lost. */
  method ParseUncompressedBlock(a: ZBuf) returns (r: Option<Failure>)
    requires a.Valid() && a.num_bits <= 31
    modifies a`zpos, a`fetched, a`num_bits, a`code_buffer, a`zstart, a`zout, a.zstart
    ensures a.zstart == old(a.zstart) || fresh(a.zstart)
    ensures a.Cap() == old(a.Cap()) && (r.None? ==> a.Valid() && a.num_bits == 0)
    ensures StoredBlock(a.zbuffer, old(a.BitPos()), old(a.Output()), old(a.Cap())) ==
      if r.None? then Done(a.BitPos(), a.Output()) else Failed(r.value)
  {
    var header := ReadHeader(a);
    var len := Word(header[0], header[1]);
    var nlen := Word(header[2], header[3]);
    if nlen != 0xffff - len { // len ^ 0xffff on 16 bits
      return Some(Corrupt);
    }
    if a.zpos + len > |a.zbuffer| {
      return Some(Corrupt);
    }
    // past the end of the input the complement's high byte was zero, so that len is large
    assert a.fetched <= |a.zbuffer|;
    var ok := StoreBytes(a, len);
    r := if ok then None else Some(OutputFull);
  }

  // ---------------------------------------------------------------- dynamic codes

  lemma CodeLengthsStep(data: seq<byte>, p: nat, i: nat, s: nat)
    requires i < 19 && s == Low(data, p + 3 * i, 3)
    ensures CodeLengthOrder[i] < 19 && CodeLengths(data, p, i + 1) == CodeLengths(data, p, i)[CodeLengthOrder[i] := s]
  {
  }

  /** The first hclen code length code lengths, in their scattered places. */
  method ReadCodeLengths(a: ZBuf, hclen: nat) returns (sizes: Lengths)
    requires a.BitsValid() && hclen <= 19
    modifies a`zpos, a`fetched, a`num_bits, a`code_buffer
    ensures a.BitsValid() && a.BitPos() == old(a.BitPos()) + 3 * hclen
    ensures sizes == CodeLengths(a.zbuffer, old(a.BitPos()), hclen)
  {
    ghost var p := a.BitPos();
    sizes := seq(19, _ => 0);
    for i := 0 to hclen
      invariant a.BitsValid() && a.BitPos() == p + 3 * i
      invariant sizes == CodeLengths(a.zbuffer, p, i)
    {
      var s := a.Zreceive(3);
      CodeLengthsStep(a.zbuffer, p, i, s);
      sizes := sizes[CodeLengthOrder[i] := s];
    }
  }

  lemma {:induction false} CodeLengthsValid(data: seq<byte>, p: nat, n: nat)
    ensures ValidLengths(CodeLengths(data, p, n))
  {
    if n > 0 {
      CodeLengthsValid(data, p, n - 1);
      if n <= 19 {
        LowBound(data, p + 3 * (n - 1), 3);
      }
    }
  }

  /** The next code length or repeat code. */
  ghost function LengthStep(c: int, codes: Lengths, data: seq<byte>, p1: nat, n: nat, sofar: Lengths): Outcome<Lengths>
    requires |codes| == 19 && |sofar| <= n
  {
    if c < 0 || |sofar| >= n then Failed(Corrupt)
    else if c < 16 then LengthList(codes, data, p1, n, sofar + [c])
    else if c == 16 && sofar == [] then Failed(Corrupt)
    else
      var count := RepeatBase(c) + Low(data, p1, RepeatBits(c));
      var fill := if c == 16 then sofar[|sofar| - 1] else 0;
      if n - |sofar| < count then Failed(Corrupt)
      else LengthList(codes, data, p1 + RepeatBits(c), n, sofar + Repeat(fill, count))
  }

  lemma LengthListBySymbol(codes: Lengths, data: seq<byte>, p: nat, n: nat, sofar: Lengths, c: int, p1: nat)
    requires |codes| == 19 && |sofar| < n
    requires c < 0 ==> Symbol(codes, data, p) == None
    requires c >= 0 ==> Symbol(codes, data, p) == Some(c) && p1 == p + codes[c]
    ensures LengthList(codes, data, p, n, sofar) == LengthStep(c, codes, data, p1, n, sofar)
  {
  }

  /** What remains to be done after the next code length code. */
  method DecodeLength(a: ZBuf, z: Huffman, ghost codes: Lengths, ghost n: nat, ghost sofar: Lengths) returns (c: int)
    requires a.BitsValid() && z.Represents(codes) && |codes| == 19 && |sofar| < n
    modifies a`zpos, a`fetched, a`num_bits, a`code_buffer
    ensures a.BitsValid() && c < 19
    ensures LengthList(codes, a.zbuffer, old(a.BitPos()), n, sofar) ==
      LengthStep(c, codes, a.zbuffer, a.BitPos(), n, sofar)
  {
    ghost var p := a.BitPos();
    c := Decode(a, z, codes);
    LengthListBySymbol(codes, a.zbuffer, p, n, sofar, c, a.BitPos());
  }

  /** The count of repeat code c. */
  method ReadRepeat(a: ZBuf, c: nat) returns (count: nat)
    requires a.BitsValid() && 16 <= c < 19
    modifies a`zpos, a`fetched, a`num_bits, a`code_buffer
    ensures a.BitsValid() && a.BitPos() == old(a.BitPos()) + RepeatBits(c)
    ensures count == RepeatBase(c) + Low(a.zbuffer, old(a.BitPos()), RepeatBits(c))
  {
    var bits := RepeatBits(c);
    count := a.Zreceive(bits);
    count := RepeatBase(c) + count;
  }

  /** The run of code lengths that repeat code c stands for. */
  method ReadRun(a: ZBuf, c: nat, ghost codes: Lengths, ntot: nat, sofar: Lengths) returns (ok: bool, lencodes: Lengths)
    requires a.BitsValid() && 16 <= c < 19 && |codes| == 19 && |sofar| < ntot && ValidLengths(sofar)
    modifies a`zpos, a`fetched, a`num_bits, a`code_buffer
    ensures a.BitsValid() && ValidLengths(lencodes) && |sofar| <= |lencodes| <= ntot
    ensures ok ==> |sofar| < |lencodes|
    ensures LengthStep(c, codes, a.zbuffer, old(a.BitPos()), ntot, sofar) ==
      if ok then LengthList(codes, a.zbuffer, a.BitPos(), ntot, lencodes) else Failed(Corrupt)
  {
    lencodes := sofar;
    if c == 16 && |sofar| == 0 {
      return false, lencodes;
    }
    var fill := if c == 16 then sofar[|sofar| - 1] else 0;
    var count := ReadRepeat(a, c);
    if ntot - |sofar| < count {
      return false, lencodes;
    }
    lencodes := sofar + Repeat(fill, count);
    ok := true;
  }

  /** One code length or run of them. */
  method ReadLengths(a: ZBuf, z_codelength: Huffman, ghost codes: Lengths, ntot: nat, sofar: Lengths)
    returns (ok: bool, lencodes: Lengths)
    requires a.BitsValid() && z_codelength.Represents(codes) && |codes| == 19 && |sofar| < ntot && ValidLengths(sofar)
    modifies a`zpos, a`fetched, a`num_bits, a`code_buffer
    ensures a.BitsValid() && ValidLengths(lencodes) && |sofar| <= |lencodes| <= ntot
    ensures ok ==> |sofar| < |lencodes|
    ensures LengthList(codes, a.zbuffer, old(a.BitPos()), ntot, sofar) ==
      if ok then LengthList(codes, a.zbuffer, a.BitPos(), ntot, lencodes) else Failed(Corrupt)
  {
    var c := DecodeLength(a, z_codelength, codes, ntot, sofar);
    if c < 0 {
      return false, sofar;
    }
    if c < 16 {
      return true, sofar + [c];
    }
    ok, lencodes := ReadRun(a, c, codes, ntot, sofar);
  }

  /** The run-length coded list of ntot code lengths. */
  method ReadLengthList(a: ZBuf, z_codelength: Huffman, ghost codes: Lengths, ntot: nat)
    returns (ok: bool, lencodes: Lengths)
    requires a.BitsValid() && z_codelength.Represents(codes) && |codes| == 19
    modifies a`zpos, a`fetched, a`num_bits, a`code_buffer
    ensures a.BitsValid() && ValidLengths(lencodes) && (ok ==> |lencodes| == ntot)
    ensures LengthList(codes, a.zbuffer, old(a.BitPos()), ntot, []) ==
      if ok then Done(a.BitPos(), lencodes) else Failed(Corrupt)
  {
    lencodes := [];
    ghost var goal := LengthList(codes, a.zbuffer, a.BitPos(), ntot, []);
    while |lencodes| < ntot
      invariant a.BitsValid() && |lencodes| <= ntot && ValidLengths(lencodes)
      invariant goal == LengthList(codes, a.zbuffer, a.BitPos(), ntot, lencodes)
    {
      ok, lencodes := ReadLengths(a, z_codelength, codes, ntot, lencodes);
      if !ok {
        return;
      }
    }
    ok := true;
  }

  lemma FieldBound(data: seq<byte>, p: nat, n: nat)
    ensures n == 5 ==> Low(data, p, n) < 32
    ensures n == 4 ==> Low(data, p, n) < 16
  {
    LowBound(data, p, n);
    assert Pow2(5) == 32 && Pow2(4) == 16;
  }

  /** The three counts at the start of a dynamic block. */
  method ReadCounts(a: ZBuf) returns (hlit: nat, hdist: nat, hclen: nat)
    requires a.BitsValid()
    modifies a`zpos, a`fetched, a`num_bits, a`code_buffer
    ensures a.BitsValid() && a.BitPos() == old(a.BitPos()) + 14
    ensures hlit == Low(a.zbuffer, old(a.BitPos()), 5) + 257 <= 288
    ensures hdist == Low(a.zbuffer, old(a.BitPos()) + 5, 5) + 1 <= 32
    ensures hclen == Low(a.zbuffer, old(a.BitPos()) + 10, 4) + 4 <= 19
  {
    ghost var p := a.BitPos();
    FieldBound(a.zbuffer, p, 5);
    FieldBound(a.zbuffer, p + 5, 5);
    FieldBound(a.zbuffer, p + 10, 4);
    hlit := a.Zreceive(5);
    hdist := a.Zreceive(5);
    hclen := a.Zreceive(4);
    hlit, hdist, hclen := hlit + 257, hdist + 1, hclen + 4;
  }

  /** The header of a dynamic block, given its counts and code length code. */
  ghost function HeaderStep(data: seq<byte>, codes: Lengths, p: nat, hlit: nat, hdist: nat): Outcome<Alphabets>
    requires |codes| == 19
  {
    if !Fits(codes) then Failed(Corrupt)
    else match LengthList(codes, data, p, hlit + hdist, [])
      case Failed(why) => Failed(why)
      case Done(p1, lens) => AlphabetsStep(lens, p1, hlit, hdist)
  }

  ghost function AlphabetsStep(lens: Lengths, p: nat, hlit: nat, hdist: nat): Outcome<Alphabets>
    requires |lens| == hlit + hdist
  {
    if !Fits(lens[..hlit]) || !Fits(lens[hlit..]) then Failed(Corrupt)
    else Done(p, Alphabets(lens[..hlit], lens[hlit..]))
  }

  lemma DynamicHeaderByStep(data: seq<byte>, p: nat, hlit: nat, hdist: nat, hclen: nat, sizes: Lengths, p1: nat)
    requires hlit == Low(data, p, 5) + 257 && hdist == Low(data, p + 5, 5) + 1 && hclen == Low(data, p + 10, 4) + 4
    requires sizes == CodeLengths(data, p + 14, hclen) && p1 == p + 14 + 3 * hclen
    ensures DynamicHeader(data, p) == HeaderStep(data, sizes, p1, hlit, hdist)
  {
  }

  /** The counts and the code length code of a dynamic block. */
  method ReadCodeLengthCode(a: ZBuf) returns (sizes: Lengths, hlit: nat, hdist: nat)
    requires a.BitsValid()
    modifies a`zpos, a`fetched, a`num_bits, a`code_buffer
    ensures a.BitsValid() && ValidLengths(sizes) && |sizes| == 19 && hlit <= 288 && hdist <= 288
    ensures DynamicHeader(a.zbuffer, old(a.BitPos())) == HeaderStep(a.zbuffer, sizes, a.BitPos(), hlit, hdist)
  {
    ghost var p := a.BitPos();
    var hclen;
    hlit, hdist, hclen := ReadCounts(a);
    CodeLengthsValid(a.zbuffer, p + 14, hclen);
    sizes := ReadCodeLengths(a, hclen);
    DynamicHeaderByStep(a.zbuffer, p, hlit, hdist, hclen, sizes, a.BitPos());
  }

  /** Tables for both alphabets. */
  method BuildAlphabets(a: ZBuf, lencodes: Lengths, hlit: nat, hdist: nat) returns (r: Option<Failure>)
    requires ValidLengths(lencodes) && |lencodes| == hlit + hdist && hlit <= 288 && hdist <= 288
    requires a.z_length != a.z_distance
    modifies a.z_length, a.z_distance
    ensures r.None? <==> Fits(lencodes[..hlit]) && Fits(lencodes[hlit..])
    ensures r.Some? ==> r.value == Corrupt
    ensures r.None? ==> a.z_length.Represents(lencodes[..hlit]) && a.z_distance.Represents(lencodes[hlit..])
  {
    var ok := a.z_length.Build(lencodes[..hlit]);
    if !ok {
      return Some(Corrupt);
    }
    ok := a.z_distance.Build(lencodes[hlit..]);
    r := if ok then None else Some(Corrupt);
  }

  /** Reads the code lengths of a dynamic block and builds both tables. */
  method ComputeHuffmanCodes(a: ZBuf) returns (r: Option<Failure>, ghost both: Alphabets)
    requires a.BitsValid() && a.z_length != a.z_distance
    modifies a`zpos, a`fetched, a`num_bits, a`code_buffer, a.z_length, a.z_distance
    ensures a.BitsValid()
    ensures DynamicHeader(a.zbuffer, old(a.BitPos())) == if r.None? then Done(a.BitPos(), both) else Failed(r.value)
    ensures r.None? ==> a.z_length.Represents(both.literals) && a.z_distance.Represents(both.distances)
  {
    both := Alphabets([], []);
    var codes, hlit, hdist := ReadCodeLengthCode(a);
    var z_codelength := new Huffman();
    var ok := z_codelength.Build(codes);
    if !ok {
      return Some(Corrupt), both;
    }
    var lencodes;
    ok, lencodes := ReadLengthList(a, z_codelength, codes, hlit + hdist);
    if !ok {
      return Some(Corrupt), both;
    }
    r := BuildAlphabets(a, lencodes, hlit, hdist);
    both := Alphabets(lencodes[..hlit], lencodes[hlit..]);
  }

  // ---------------------------------------------------------------- fixed codes

  lemma {:induction false} CountRun(lens: Lengths, l: nat, a: nat, b: nat, v: nat)
    requires a <= b <= |lens| && forall j :: a <= j < b ==> lens[j] == v
    ensures CountTo(lens, l, b) == CountTo(lens, l, a) + if l == v then b - a else 0
    decreases b
  {
    if a < b {
      CountRun(lens, l, a, b - 1, v);
    }
  }

  lemma FixedCounts(l: nat)
    ensures Count(FixedLiterals(), l) == if l == 7 then 24 else if l == 8 then 152 else if l == 9 then 112 else 0
    ensures Count(FixedDistances(), l) == if l == 5 then 32 else 0
  {
    LiteralCounts(FixedLiterals(), l, 144, 256, 280, 288);
    CountRun(FixedDistances(), l, 0, 32, 5);
  }

  lemma LiteralCounts(lens: Lengths, l: nat, a: nat, b: nat, c: nat, n: nat)
    requires lens == FixedLiterals() && a == 144 && b == 256 && c == 280 && n == 288
    ensures CountTo(lens, l, n) == if l == 7 then 24 else if l == 8 then 152 else if l == 9 then 112 else 0
  {
    CountRun(lens, l, 0, a, 8);
    CountRun(lens, l, a, b, 9);
    CountRun(lens, l, b, c, 7);
    CountRun(lens, l, c, n, 8);
  }

  lemma FixedEnds(l: nat)
    requires 1 <= l
    ensures End(FixedLiterals(), l) == if l < 7 then 0 else if l == 7 then 24 else if l == 8 then 200 else Pow2(l)
    ensures End(FixedDistances(), l) == if l < 5 then 0 else Pow2(l)
  {
    LiteralEnds(FixedLiterals(), l);
    DistanceEnds(FixedDistances(), l);
  }

  lemma {:induction false} LiteralEnds(lens: Lengths, l: nat)
    requires 1 <= l && lens == FixedLiterals()
    ensures End(lens, l) == if l < 7 then 0 else if l == 7 then 24 else if l == 8 then 200 else Pow2(l)
  {
    FixedCounts(l);
    if l > 1 {
      LiteralEnds(lens, l - 1);
    }
    assert Pow2(9) == 512;
  }

  lemma {:induction false} DistanceEnds(lens: Lengths, l: nat)
    requires 1 <= l && lens == FixedDistances()
    ensures End(lens, l) == if l < 5 then 0 else Pow2(l)
  {
    FixedCounts(l);
    if l > 1 {
      DistanceEnds(lens, l - 1);
    }
    assert Pow2(5) == 32;
  }

  /** Both fixed codes are codes, so building their tables cannot fail. */
  lemma FixedFit()
    ensures ValidLengths(FixedLiterals()) && Fits(FixedLiterals())
    ensures ValidLengths(FixedDistances()) && Fits(FixedDistances())
  {
    forall l | 1 <= l <= MAX_LENGTH ensures FitsAt(FixedLiterals(), l) && FitsAt(FixedDistances(), l) {
      FixedEnds(l);
      assert Pow2(8) == 256 && Pow2(7) == 128;
    }
  }

  method BuildFixed(a: ZBuf) returns (ok: bool)
    requires a.z_length != a.z_distance
    modifies a.z_length, a.z_distance
    ensures ok && a.z_length.Represents(FixedLiterals()) && a.z_distance.Represents(FixedDistances())
  {
    FixedFit();
    ok := a.z_length.Build(FixedLiterals());
    if !ok {
      return;
    }
    ok := a.z_distance.Build(FixedDistances());
  }

  // ---------------------------------------------------------------- whole streams

  /** The tables of a compressed block, fixed or dynamic. */
  method BuildTables(a: ZBuf, kind: nat) returns (r: Option<Failure>, ghost both: Alphabets)
    requires a.Valid() && a.z_length != a.z_distance && 1 <= kind <= 2
    modifies a`zpos, a`fetched, a`num_bits, a`code_buffer, a.z_length, a.z_distance
    ensures a.Valid()
    ensures r.None? ==> Ready(a, both.literals, both.distances)
    ensures kind == 1 ==>
      r.None? && both == Alphabets(FixedLiterals(), FixedDistances()) && a.BitPos() == old(a.BitPos())
    ensures kind == 2 ==>
      DynamicHeader(a.zbuffer, old(a.BitPos())) == if r.None? then Done(a.BitPos(), both) else Failed(r.value)
  {
    if kind == 1 {
      both := Alphabets(FixedLiterals(), FixedDistances());
      var ok := BuildFixed(a);
      r := if ok then None else Some(Corrupt);
    } else {
      r, both := ComputeHuffmanCodes(a);
    }
  }

  /** One block after its header bits. */
  method ParseBlock(a: ZBuf, kind: nat, slack: nat) returns (r: Option<Failure>)
    requires a.Valid() && a.z_length != a.z_distance && a.num_bits <= 31
    modifies a`zpos, a`fetched, a`num_bits, a`code_buffer, a`zstart, a`zout, a.zstart, a.z_length, a.z_distance
    ensures a.zstart == old(a.zstart) || fresh(a.zstart)
    ensures a.Cap() == old(a.Cap()) && (r.None? ==> a.Valid())
    ensures Block(kind, a.zbuffer, old(a.BitPos()), old(a.Output()), old(a.Cap()), Rules(false, slack)) ==
      if r.None? then Done(a.BitPos(), a.Output()) else Failed(r.value)
  {
    if kind == 0 {
      r := ParseUncompressedBlock(a);
    } else if kind >= 3 {
      r := Some(Corrupt);
    } else {
      ghost var both;
      r, both := BuildTables(a, kind);
      if r.None? {
        r := ParseHuffmanBlock(a, slack, both.literals, both.distances);
      }
    }
  }

  /** The header bits of a block. */
  method ReadBlockBits(a: ZBuf) returns (final: nat, kind: nat)
    requires a.BitsValid()
    modifies a`zpos, a`fetched, a`num_bits, a`code_buffer
    ensures a.BitsValid() && a.num_bits <= 31 && a.BitPos() == old(a.BitPos()) + 3
    ensures final == Bit(a.zbuffer, old(a.BitPos())) && kind == Low(a.zbuffer, old(a.BitPos()) + 1, 2)
  {
    final := a.Zreceive(1);
    kind := a.Zreceive(2);
  }

  /** The next block, and whether it was the final one. */
  method ParseNextBlock(a: ZBuf, slack: nat) returns (r: Option<Failure>, last: bool)
    requires a.Valid() && a.z_length != a.z_distance && a.BitPos() <= 8 * |a.zbuffer| + slack
    modifies a`zpos, a`fetched, a`num_bits, a`code_buffer, a`zstart, a`zout, a.zstart, a.z_length, a.z_distance
    ensures a.zstart == old(a.zstart) || fresh(a.zstart)
    ensures a.Cap() == old(a.Cap()) && (r.None? ==> a.Valid() && a.BitPos() > old(a.BitPos()))
    ensures Blocks(a.zbuffer, old(a.BitPos()), old(a.Output()), old(a.Cap()), Rules(false, slack)) ==
      if r.Some? then Failed(r.value)
      else if last then Done(a.BitPos(), a.Output())
      else Blocks(a.zbuffer, a.BitPos(), a.Output(), a.Cap(), Rules(false, slack))
  {
    var final, kind := ReadBlockBits(a);
    last := final == 1;
    r := ParseBlock(a, kind, slack);
    if r.None? && a.BitPos() > 8 * |a.zbuffer| + slack {
      r := Some(Exhausted);
    }
  }

  /** All blocks from the current position on. */
  method ParseBlocks(a: ZBuf, slack: nat) returns (r: Option<Failure>)
    requires a.Valid() && a.z_length != a.z_distance
    modifies a`zpos, a`fetched, a`num_bits, a`code_buffer, a`zstart, a`zout, a.zstart, a.z_length, a.z_distance
    ensures a.zstart == old(a.zstart) || fresh(a.zstart)
    ensures r.None? ==> a.Valid()
    ensures Blocks(a.zbuffer, old(a.BitPos()), old(a.Output()), old(a.Cap()), Rules(false, slack)) ==
      if r.None? then Done(a.BitPos(), a.Output()) else Failed(r.value)
  {
    ghost var cap, rules := a.Cap(), Rules(false, slack);
    ghost var goal := Blocks(a.zbuffer, a.BitPos(), a.Output(), cap, rules);
    while a.BitPos() <= 8 * |a.zbuffer| + slack
      invariant a.Valid() && a.Cap() == cap
      invariant a.zstart == old(a.zstart) || fresh(a.zstart)
      invariant goal == Blocks(a.zbuffer, a.BitPos(), a.Output(), cap, rules)
      decreases 8 * |a.zbuffer| + slack + 1 - a.BitPos()
    {
      var last;
      r, last := ParseNextBlock(a, slack);
      if r.Some? || last {
        return;
      }
    }
    r := Some(Exhausted);
  }

  /** The zlib header, read before any bits are buffered. */
  method ParseZlibHeader(a: ZBuf) returns (ok: bool)
    requires a.zpos == 0 && a.fetched == 0
    modifies a`zpos, a`fetched
    ensures ok == ZlibHeaderOk(a.zbuffer)
    ensures a.fetched == 2 && a.zpos == if 2 <= |a.zbuffer| then 2 else |a.zbuffer|
  {
    var cmf := a.Zget8();
    var cm := cmf % 16;
    var flg := a.Zget8();
    if Word(flg, cmf) % 31 != 0 {
      return false;
    }
    if (flg / 32) % 2 == 1 {
      return false;
    }
    ok := cm == 8;
  }

  /**
   Decodes a whole stream into the buffer, which grows if it may: the result is the specification's, however far the
   run is followed past the end of the input.
   */
  method DoZlib(data: seq<byte>, obuf: array<byte>, expandable: bool, parse_header: bool, slack: nat)
    returns (r: Option<Failure>, a: ZBuf)
    requires obuf.Length > 0
    modifies obuf
    ensures fresh(a) && (r.None? ==> a.Valid())
    ensures a.zstart == obuf || fresh(a.zstart)
    ensures Inflate(data, parse_header, if expandable then None else Some(obuf.Length), Rules(false, slack)) ==
      if r.None? then Done(a.BitPos(), a.Output()) else Failed(r.value)
  {
    a := new ZBuf(data, obuf, expandable);
    if parse_header {
      var ok := ParseZlibHeader(a);
      if !ok {
        return Some(Corrupt), a;
      }
    }
    ClearBits(a);
    r := ParseBlocks(a, slack);
  }

  method ClearBits(a: ZBuf)
    requires a.zpos == if a.fetched <= |a.zbuffer| then a.fetched else |a.zbuffer|
    modifies a`num_bits, a`code_buffer
    ensures a.BitsValid() && a.BitPos() == 8 * a.fetched && a.num_bits == 0
  {
    a.num_bits, a.code_buffer := 0, 0;
  }
}
