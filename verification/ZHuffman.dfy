/**
 The decoder's Huffman tables (3rd_party/imageHelper/stb_image.h:3860-3932): a 9-bit fast table
 and, for longer codes, per-length ranges shifted to 16 bits.
 */
module ZHuffman {
  import opened BitStream
  import opened CanonicalCode

  const FAST_BITS: nat := 9
  const FAST_SIZE: nat := 512

  /** Symbols sorted by code length and then by value: where length l starts. */
  function FirstSymbol(lens: Lengths, l: nat): nat {
    if l <= 1 then 0 else FirstSymbol(lens, l - 1) + Count(lens, l - 1)
  }

  function Slot(lens: Lengths, i: nat): nat
    requires i < |lens|
  {
    FirstSymbol(lens, lens[i]) + CountTo(lens, lens[i], i)
  }

  function FastEntry(lens: Lengths, i: nat): nat
    requires i < |lens|
  {
    lens[i] * FAST_SIZE + i
  }

  /** Index j of the fast table starts with the reversed code of symbol i. */
  predicate InFast(lens: Lengths, i: nat, j: nat) {
    i < |lens| && 1 <= lens[i] <= FAST_BITS && EndsIn(j, lens[i], Rev(Code(lens, i), lens[i]))
  }

  /** The low s bits of j are r. */
  predicate EndsIn(j: nat, s: nat, r: nat) {
    Mask(j, s) == r
  }

  /** The end of length l's range, shifted to 16 bits. */
  function ShiftedEnd(lens: Lengths, l: nat): nat
    requires l <= 16
  {
    ShiftLeft(End(lens, l), 16 - l)
  }

  /** The fast table after the first n symbols. */
  function FastAt(lens: Lengths, n: nat, j: nat): nat
    requires n <= |lens|
  {
    if n == 0 then 0
    else if InFast(lens, n - 1, j) then FastEntry(lens, n - 1)
    else FastAt(lens, n - 1, j)
  }

  // ---------------------------------------------------------------- slots

  lemma {:induction false} FirstSymbolRises(lens: Lengths, l: nat, m: nat)
    requires 1 <= l < m
    ensures FirstSymbol(lens, l) + Count(lens, l) <= FirstSymbol(lens, m)
    decreases m
  {
    if l + 1 < m {
      FirstSymbolRises(lens, l, m - 1);
    }
  }

  ghost function InRange(lens: Lengths, l: nat, n: nat): nat
    requires n <= |lens|
  {
    if n == 0 then 0 else InRange(lens, l, n - 1) + if 1 <= lens[n - 1] < l then 1 else 0
  }

  lemma {:induction false} InRangeSplit(lens: Lengths, l: nat, n: nat)
    requires n <= |lens| && l >= 1
    ensures InRange(lens, l + 1, n) == InRange(lens, l, n) + CountTo(lens, l, n)
  {
    if n > 0 {
      InRangeSplit(lens, l, n - 1);
    }
  }

  lemma {:induction false} InRangeBound(lens: Lengths, l: nat, n: nat)
    requires n <= |lens|
    ensures InRange(lens, l, n) <= n
    ensures l <= 1 ==> InRange(lens, l, n) == 0
  {
    if n > 0 {
      InRangeBound(lens, l, n - 1);
    }
  }

  lemma {:induction false} FirstSymbolBound(lens: Lengths, l: nat)
    ensures FirstSymbol(lens, l) <= |lens|
    ensures FirstSymbol(lens, l) == InRange(lens, l, |lens|)
  {
    if l > 1 {
      FirstSymbolBound(lens, l - 1);
      InRangeSplit(lens, l - 1, |lens|);
    }
    InRangeBound(lens, l, |lens|);
  }

  lemma SlotBound(lens: Lengths, i: nat)
    requires i < |lens| && lens[i] > 0
    ensures FirstSymbol(lens, lens[i]) <= Slot(lens, i) < FirstSymbol(lens, lens[i]) + Count(lens, lens[i])
    ensures Slot(lens, i) < |lens|
  {
    CountToRises(lens, lens[i], i, |lens|);
    FirstSymbolBound(lens, lens[i] + 1);
  }

  lemma SlotUnique(lens: Lengths, i: nat, j: nat)
    requires i < |lens| && j < |lens| && lens[i] > 0 && lens[j] > 0 && i < j
    ensures Slot(lens, i) != Slot(lens, j)
  {
    SlotBound(lens, i);
    SlotBound(lens, j);
    if lens[i] == lens[j] {
      CountToRises(lens, lens[i], i, j);
    } else if lens[i] < lens[j] {
      FirstSymbolRises(lens, lens[i], lens[j]);
    } else {
      FirstSymbolRises(lens, lens[j], lens[i]);
    }
  }

  // ---------------------------------------------------------------- the fast table

  lemma FastIndexMatches(lens: Lengths, data: seq<byte>, p: nat, i: nat)
    requires ValidLengths(lens) && Fits(lens) && i < |lens| && lens[i] <= FAST_BITS
    ensures InFast(lens, i, Low(data, p, FAST_BITS)) <==> Matches(lens, data, p, i)
  {
    if lens[i] > 0 {
      CodeBounds(lens, i);
      LowMaskShift(data, p, lens[i], FAST_BITS);
      assert EndsIn(Low(data, p, FAST_BITS), lens[i], Low(data, p, lens[i]));
      HighIsRevLow(data, p, lens[i], Code(lens, i));
    }
  }

  /** The fast entry for the next nine bits names the symbol of at most nine bits that matches there, if any. */
  lemma {:induction false} FastAtMeans(lens: Lengths, data: seq<byte>, p: nat, n: nat)
    requires ValidLengths(lens) && Fits(lens) && n <= |lens| <= FAST_SIZE
    ensures var b := FastAt(lens, n, Low(data, p, FAST_BITS));
      if b == 0 then
        forall i: nat :: i < n && lens[i] <= FAST_BITS ==> !Matches(lens, data, p, i)
      else
        b % FAST_SIZE < n && b / FAST_SIZE == lens[b % FAST_SIZE] && Matches(lens, data, p, b % FAST_SIZE)
  {
    if n > 0 {
      FastAtMeans(lens, data, p, n - 1);
      var i := n - 1;
      if InFast(lens, i, Low(data, p, FAST_BITS)) {
        FastIndexMatches(lens, data, p, i);
        assert FastEntry(lens, i) / FAST_SIZE == lens[i] && FastEntry(lens, i) % FAST_SIZE == i;
      } else if lens[i] <= FAST_BITS {
        FastIndexMatches(lens, data, p, i);
      }
    }
  }

  lemma NothingBetween(j: nat, s: nat, r: nat, x: nat)
    requires EndsIn(j, s, r) && j < x < j + Pow2(s)
    ensures !EndsIn(x, s, r)
  {
    MaskGap(j, x, s);
  }

  lemma FirstIndex(s: nat, r: nat)
    requires r < Pow2(s)
    ensures EndsIn(r, s, r)
    ensures forall x: nat :: x < r ==> !EndsIn(x, s, r)
  {
    MaskSmall(r, s);
    forall x: nat | x < r ensures !EndsIn(x, s, r) {
      MaskSmall(x, s);
    }
  }

  // ---------------------------------------------------------------- building

  /** Range tables filled for the lengths below n. */
  ghost predicate RangeTables(lens: Lengths, n: nat, firstcode: seq<nat>, firstsymbol: seq<nat>, maxcode: seq<nat>) {
    && n <= 16 && |firstcode| == 16 && |firstsymbol| == 16 && |maxcode| == 17
    && (forall l :: 1 <= l < n ==> firstcode[l] == First(lens, l))
    && (forall l :: 1 <= l < n ==> firstsymbol[l] == FirstSymbol(lens, l))
    && (forall l :: 1 <= l < n ==> maxcode[l] == ShiftedEnd(lens, l))
  }

  /** The first codes of the lengths below n. */
  ghost predicate NextCodes(lens: Lengths, n: nat, next_code: seq<nat>) {
    n <= 16 && |next_code| == 16 && forall l :: 1 <= l < n ==> next_code[l] == First(lens, l)
  }

  lemma NextCodesStep(lens: Lengths, n: nat, next_code: seq<nat>)
    requires NextCodes(lens, n, next_code) && 1 <= n < 16
    ensures NextCodes(lens, n + 1, next_code[n := First(lens, n)])
  {
  }

  /** The slots of the first n symbols are filled. */
  ghost predicate SlotTables(lens: Lengths, n: nat, size: seq<nat>, value: seq<nat>) {
    && n <= |lens| && |size| == 288 && |value| == 288
    && (forall i :: 0 <= i < n && lens[i] > 0 ==>
          Slot(lens, i) < 288 && size[Slot(lens, i)] == lens[i] && value[Slot(lens, i)] == i)
  }

  ghost predicate FastTable(lens: Lengths, n: nat, fast: seq<nat>) {
    n <= |lens| && |fast| == FAST_SIZE && forall j :: 0 <= j < FAST_SIZE ==> fast[j] == FastAt(lens, n, j)
  }

  /** Counts code lengths, or fails if one length has too many codes. */
  method CountSizes(sizelist: Lengths) returns (ok: bool, sizes: seq<nat>)
    requires ValidLengths(sizelist)
    ensures |sizes| == 17 && forall l :: 1 <= l <= MAX_LENGTH ==> sizes[l] == Count(sizelist, l)
    ensures !ok ==> !Fits(sizelist)
  {
    sizes := seq(17, _ => 0);
    for i := 0 to |sizelist|
      invariant |sizes| == 17
      invariant forall l :: 0 <= l <= MAX_LENGTH ==> sizes[l] == CountTo(sizelist, l, i)
    {
      sizes := sizes[sizelist[i] := sizes[sizelist[i]] + 1];
    }
    sizes := sizes[0 := 0];
    for i := 1 to 16 {
      if sizes[i] > Pow2(i) {
        assert !FitsAt(sizelist, i);
        return false, sizes;
      }
    }
    return true, sizes;
  }

  /** The table object. */
  class Huffman {
    var fast: seq<nat>
    var firstcode: seq<nat>
    var maxcode: seq<nat>
    var firstsymbol: seq<nat>
    var size: seq<nat>
    var value: seq<nat>

    constructor ()
    {
      fast, firstcode, maxcode := seq(FAST_SIZE, _ => 0), seq(16, _ => 0), seq(17, _ => 0);
      firstsymbol, size, value := seq(16, _ => 0), seq(288, _ => 0), seq(288, _ => 0);
    }

    /** The tables are those of the canonical code of lens. */
    ghost predicate Represents(lens: Lengths)
      reads this
    {
      && ValidLengths(lens) && |lens| <= 288 && Fits(lens)
      && RangeTables(lens, 16, firstcode, firstsymbol, maxcode) && maxcode[16] == 0x10000
      && SlotTables(lens, |lens|, size, value) && FastTable(lens, |lens|, fast)
    }

    /** The range of length i, which starts at code and holds n codes from slot k on. */
    method AddRange(ghost sizelist: Lengths, i: nat, code: nat, k: nat, n: nat) returns (ok: bool)
      requires |sizelist| <= 288 && 1 <= i <= MAX_LENGTH && RangeTables(sizelist, i, firstcode, firstsymbol, maxcode)
      requires i > 1 ==> FitsAt(sizelist, i - 1)
      requires code == First(sizelist, i) && k == FirstSymbol(sizelist, i) && n == Count(sizelist, i)
      modifies this`firstcode, this`firstsymbol, this`maxcode
      ensures ok <==> FitsAt(sizelist, i)
      ensures ok ==> RangeTables(sizelist, i + 1, firstcode, firstsymbol, maxcode)
    {
      StartFits(sizelist, i);
      FirstSymbolBound(sizelist, i);
      // neither value loses bits in its 16-bit table
      assert code < 0x10000 && k < 0x10000;
      firstcode := firstcode[i := code];
      firstsymbol := firstsymbol[i := k];
      if n != 0 {
        if code + n - 1 >= Pow2(i) {
          return false;
        }
      }
      var end := code + n;
      assert end == End(sizelist, i);
      maxcode := maxcode[i := ShiftLeft(end, 16 - i)];
      RangeTablesStep(sizelist, i, old(firstcode), old(firstsymbol), old(maxcode));
      return true;
    }

    /** The code ranges, or failure as soon as a length overflows. */
    method BuildRanges(sizelist: Lengths, sizes: seq<nat>) returns (ok: bool, next_code: seq<nat>)
      requires ValidLengths(sizelist) && |sizelist| <= 288 && |sizes| == 17
      requires forall l :: 1 <= l <= MAX_LENGTH ==> sizes[l] == Count(sizelist, l)
      requires RangeTables(sizelist, 1, firstcode, firstsymbol, maxcode)
      modifies this`firstcode, this`firstsymbol, this`maxcode
      ensures ok <==> Fits(sizelist)
      ensures ok ==> RangeTables(sizelist, 16, firstcode, firstsymbol, maxcode)
      ensures ok ==> NextCodes(sizelist, 16, next_code)
    {
      next_code := seq(16, _ => 0);
      var code, k := 0, 0;
      for i := 1 to 16
        invariant code == First(sizelist, i) && k == FirstSymbol(sizelist, i)
        invariant forall l :: 1 <= l < i ==> FitsAt(sizelist, l)
        invariant RangeTables(sizelist, i, firstcode, firstsymbol, maxcode)
        invariant NextCodes(sizelist, i, next_code)
      {
        NextCodesStep(sizelist, i, next_code);
        next_code := next_code[i := code];
        var fits := AddRange(sizelist, i, code, k, sizes[i]);
        if !fits {
          return false, next_code;
        }
        code, k := (code + sizes[i]) * 2, k + sizes[i];
      }
      return true, next_code;
    }

    /** Writes the entry of one symbol at every index that starts with its reversed code. */
    method FillFast(ghost sizelist: Lengths, ghost i: nat, s: nat, c: nat, fastv: nat)
      requires ValidLengths(sizelist) && Fits(sizelist) && i < |sizelist| && FastTable(sizelist, i, fast)
      requires 1 <= s == sizelist[i] <= FAST_BITS && c == Code(sizelist, i) && fastv == FastEntry(sizelist, i)
      modifies this`fast
      ensures FastTable(sizelist, i + 1, fast)
    {
      CodeBounds(sizelist, i);
      RevBound(c, s);
      var j := Rev(c, s);
      ghost var r := j;
      ghost var fast0 := fast;
      FirstIndex(s, r);
      while j < FAST_SIZE
        invariant |fast| == FAST_SIZE && EndsIn(j, s, r)
        invariant forall x: nat :: x < FAST_SIZE ==> fast[x] == if x < j && EndsIn(x, s, r) then fastv else fast0[x]
        decreases FAST_SIZE - j
      {
        fast := fast[j := fastv];
        forall x: nat | j < x < j + Pow2(s) ensures !EndsIn(x, s, r) {
          NothingBetween(j, s, r, x);
        }
        MaskPeriod(j, s);
        j := j + Pow2(s);
      }
    }

    /** The slot of symbol i in the tables sorted by length. */
    method FillSlot(ghost sizelist: Lengths, i: nat, s: nat, next: nat)
      requires |sizelist| <= 288 && i < |sizelist| && 1 <= s == sizelist[i] <= MAX_LENGTH
      requires RangeTables(sizelist, 16, firstcode, firstsymbol, maxcode) && next == Code(sizelist, i)
      requires SlotTables(sizelist, i, size, value)
      modifies this`size, this`value
      ensures SlotTables(sizelist, i + 1, size, value)
    {
      var c := next - firstcode[s] + firstsymbol[s];
      SlotTablesStep(sizelist, i, size, value);
      assert c == Slot(sizelist, i);
      size := size[c := s];
      value := value[c := i];
    }

    /** Puts symbol i, of length s, into the tables. */
    method AddSymbol(ghost sizelist: Lengths, i: nat, s: nat, next: nat)
      requires ValidLengths(sizelist) && |sizelist| <= 288 && Fits(sizelist) && i < |sizelist| && 1 <= s == sizelist[i]
      requires RangeTables(sizelist, 16, firstcode, firstsymbol, maxcode) && next == Code(sizelist, i)
      requires SlotTables(sizelist, i, size, value) && FastTable(sizelist, i, fast)
      modifies this`size, this`value, this`fast
      ensures SlotTables(sizelist, i + 1, size, value) && FastTable(sizelist, i + 1, fast)
    {
      FillSlot(sizelist, i, s, next);
      if s <= FAST_BITS {
        var fastv := s * 512 + i;
        FillFast(sizelist, i, s, next, fastv);
      } else {
        assert forall j :: 0 <= j < FAST_SIZE ==> FastAt(sizelist, i + 1, j) == FastAt(sizelist, i, j);
      }
    }

    /** All symbols, each taking the next code of its length. */
    method FillTables(sizelist: Lengths, next: seq<nat>)
      requires ValidLengths(sizelist) && |sizelist| <= 288 && Fits(sizelist)
      requires RangeTables(sizelist, 16, firstcode, firstsymbol, maxcode) && NextCodes(sizelist, 16, next)
      requires |size| == 288 && |value| == 288 && |fast| == FAST_SIZE && forall j :: 0 <= j < FAST_SIZE ==> fast[j] == 0
      modifies this`size, this`value, this`fast
      ensures SlotTables(sizelist, |sizelist|, size, value) && FastTable(sizelist, |sizelist|, fast)
    {
      var next_code := next;
      for i := 0 to |sizelist|
        invariant |next_code| == 16
        invariant forall l :: 1 <= l <= MAX_LENGTH ==> next_code[l] == First(sizelist, l) + CountTo(sizelist, l, i)
        invariant SlotTables(sizelist, i, size, value)
        invariant FastTable(sizelist, i, fast)
      {
        var s := sizelist[i];
        if s != 0 {
          AddSymbol(sizelist, i, s, next_code[s]);
          next_code := next_code[s := next_code[s] + 1];
        }
      }
    }

    /** Builds the tables, or fails exactly when the lengths do not meet the Kraft inequality. */
    method Build(sizelist: Lengths) returns (ok: bool)
      requires ValidLengths(sizelist) && |sizelist| <= 288
      modifies this
      ensures ok <==> Fits(sizelist)
      ensures ok ==> Represents(sizelist)
    {
      fast := seq(FAST_SIZE, _ => 0);
      firstcode, firstsymbol, maxcode := seq(16, _ => 0), seq(16, _ => 0), seq(17, _ => 0);
      size, value := seq(288, _ => 0), seq(288, _ => 0);
      var sizes, next_code;
      ok, sizes := CountSizes(sizelist);
      if !ok {
        return false;
      }
      ok, next_code := BuildRanges(sizelist, sizes);
      if !ok {
        return false;
      }
      maxcode := maxcode[16 := 0x10000]; // no code is below the end
      FillTables(sizelist, next_code);
      return true;
    }
  }

  lemma SlotTablesStep(lens: Lengths, i: nat, size: seq<nat>, value: seq<nat>)
    requires |lens| <= 288 && i < |lens| && lens[i] > 0 && SlotTables(lens, i, size, value)
    ensures FirstSymbol(lens, lens[i]) <= Slot(lens, i) < 288
    ensures SlotTables(lens, i + 1, size[Slot(lens, i) := lens[i]], value[Slot(lens, i) := i])
  {
    SlotBound(lens, i);
    forall j: nat | j < i && lens[j] > 0 ensures Slot(lens, j) != Slot(lens, i) {
      SlotUnique(lens, j, i);
    }
  }

  lemma RangeTablesStep(lens: Lengths, i: nat, firstcode: seq<nat>, firstsymbol: seq<nat>, maxcode: seq<nat>)
    requires 1 <= i <= MAX_LENGTH && RangeTables(lens, i, firstcode, firstsymbol, maxcode)
    ensures RangeTables(lens, i + 1, firstcode[i := First(lens, i)], firstsymbol[i := FirstSymbol(lens, i)],
      maxcode[i := ShiftedEnd(lens, i)])
  {
  }

  lemma StartFits(lens: Lengths, l: nat)
    requires 1 <= l <= MAX_LENGTH
    requires l > 1 ==> FitsAt(lens, l - 1)
    ensures First(lens, l) <= Pow2(l) <= 32768
  {
    Pow2Monotone(l, MAX_LENGTH);
    Pow2Values();
  }
}
