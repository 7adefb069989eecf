/**
 Bits of a byte string, least significant first within each byte, and the two ways of reading
 n of them as a number. Beyond the last byte every bit is zero, as in the decoder.
 */
module BitStream {
  type byte = b: int | 0 <= b < 256

  function Pow2(n: nat): (r: nat)
    ensures r > 0
  {
    if n == 0 then 1 else 2 * Pow2(n - 1)
  }

  /** v << n. */
  function ShiftLeft(v: nat, n: nat): nat
    decreases n, v
  {
    if n == 0 then v else ShiftLeft(2 * v, n - 1)
  }

  /** v >> n. */
  function ShiftRight(v: nat, n: nat): nat
    decreases n, v
  {
    if n == 0 then v else ShiftRight(v / 2, n - 1)
  }

  /** v & ((1 << n) - 1). */
  function Mask(v: nat, n: nat): nat
    decreases n, v
  {
    if n == 0 then 0 else v % 2 + 2 * Mask(v / 2, n - 1)
  }

  /** The n low bits of v in reverse order. */
  function Rev(v: nat, n: nat): nat
    decreases n, v
  {
    if n == 0 then 0 else (if v % 2 == 1 then Pow2(n - 1) else 0) + Rev(v / 2, n - 1)
  }

  function Bit(data: seq<byte>, p: nat): (b: nat)
    ensures b < 2
  {
    if p / 8 < |data| then ShiftRight(data[p / 8], p % 8) % 2 else 0
  }

  /** n bits from position p, the first one least significant. */
  function Low(data: seq<byte>, p: nat, n: nat): nat
    decreases n, |data|
  {
    if n == 0 then 0 else Bit(data, p) + 2 * Low(data, p + 1, n - 1)
  }

  /** n bits from position p, the first one most significant. */
  function High(data: seq<byte>, p: nat, n: nat): nat {
    if n == 0 then 0 else 2 * High(data, p, n - 1) + Bit(data, p + n - 1)
  }

  // ---------------------------------------------------------------- powers and shifts

  lemma {:induction false} Pow2Monotone(a: nat, b: nat)
    requires a <= b
    ensures Pow2(a) <= Pow2(b)
  {
    if a < b {
      Pow2Monotone(a, b - 1);
    }
  }

  lemma Pow2Values()
    ensures Pow2(8) == 0x100 && Pow2(9) == 0x200 && Pow2(15) == 0x8000 && Pow2(16) == 0x10000
  {
    assert Pow2(8) == 0x100;
    assert Pow2(12) == 0x1000;
    assert Pow2(16) == 0x10000;
  }

  lemma {:induction false} ShiftLeftDouble(v: nat, n: nat)
    ensures ShiftLeft(v, n + 1) == 2 * ShiftLeft(v, n)
    decreases n
  {
    if n > 0 {
      ShiftLeftDouble(2 * v, n - 1);
    }
  }

  lemma {:induction false} ShiftLeftAdd(u: nat, v: nat, n: nat)
    ensures ShiftLeft(u + v, n) == ShiftLeft(u, n) + ShiftLeft(v, n)
    decreases n
  {
    if n > 0 {
      ShiftLeftAdd(2 * u, 2 * v, n - 1);
      assert 2 * (u + v) == 2 * u + 2 * v;
    }
  }

  lemma {:induction false} ShiftLeftOne(n: nat)
    ensures ShiftLeft(1, n) == Pow2(n)
  {
    if n > 0 {
      ShiftLeftDouble(1, n - 1);
      ShiftLeftOne(n - 1);
    }
  }

  lemma {:induction false} ShiftLeftMonotone(u: nat, v: nat, n: nat)
    requires u <= v
    ensures ShiftLeft(u, n) <= ShiftLeft(v, n)
    decreases n
  {
    if n > 0 {
      ShiftLeftMonotone(2 * u, 2 * v, n - 1);
    }
  }

  lemma {:induction false} ShiftLeftSplit(v: nat, a: nat, b: nat)
    ensures ShiftLeft(ShiftLeft(v, a), b) == ShiftLeft(v, a + b)
    decreases a
  {
    if a > 0 {
      ShiftLeftSplit(2 * v, a - 1, b);
      assert a - 1 + b == a + b - 1;
    }
  }

  /** Shifting one side of a comparison right is shifting the other side left. */
  lemma {:induction false} ShiftCompare(h: nat, e: nat, n: nat)
    ensures ShiftRight(h, n) < e <==> h < ShiftLeft(e, n)
    decreases n
  {
    if n > 0 {
      ShiftCompare(h / 2, e, n - 1);
      ShiftLeftDouble(e, n - 1);
    }
  }

  lemma {:induction false} ShiftRightTwice(v: nat, i: nat)
    ensures ShiftRight(v, i + 1) == ShiftRight(v, i) / 2
    decreases i
  {
    if i > 0 {
      ShiftRightTwice(v / 2, i - 1);
    }
  }

  lemma {:induction false} MaskSmall(v: nat, n: nat)
    requires v < Pow2(n)
    ensures Mask(v, n) == v
    decreases n
  {
    if n > 0 {
      MaskSmall(v / 2, n - 1);
    }
  }

  /** Adding 2^n keeps the low n bits, and nothing in between has them. */
  lemma {:induction false} MaskPeriod(v: nat, n: nat)
    ensures Mask(v + Pow2(n), n) == Mask(v, n)
    decreases n
  {
    if n > 0 {
      MaskPeriod(v / 2, n - 1);
      assert (v + Pow2(n)) / 2 == v / 2 + Pow2(n - 1);
    }
  }

  lemma {:induction false} MaskGap(v: nat, x: nat, n: nat)
    requires v < x < v + Pow2(n)
    ensures Mask(x, n) != Mask(v, n)
    decreases n
  {
    if n > 0 && x % 2 == v % 2 {
      MaskGap(v / 2, x / 2, n - 1);
    }
  }

  // ---------------------------------------------------------------- reading bits

  lemma {:induction false} LowBound(data: seq<byte>, p: nat, n: nat)
    ensures Low(data, p, n) < Pow2(n)
    decreases n
  {
    if n > 0 {
      LowBound(data, p + 1, n - 1);
    }
  }

  lemma {:induction false} HighBound(data: seq<byte>, p: nat, n: nat)
    ensures High(data, p, n) < Pow2(n)
  {
    if n > 0 {
      HighBound(data, p, n - 1);
    }
  }

  /** Masking and dropping bits of a buffer that holds n of them. */
  lemma {:induction false} LowMaskShift(data: seq<byte>, p: nat, a: nat, n: nat)
    requires a <= n
    ensures Mask(Low(data, p, n), a) == Low(data, p, a)
    ensures ShiftRight(Low(data, p, n), a) == Low(data, p + a, n - a)
    decreases a
  {
    if a > 0 {
      LowMaskShift(data, p + 1, a - 1, n - 1);
      assert Low(data, p, n) / 2 == Low(data, p + 1, n - 1) && Low(data, p, n) % 2 == Bit(data, p);
      assert p + 1 + (a - 1) == p + a && n - 1 - (a - 1) == n - a;
    }
  }

  lemma {:induction false} LowSplit(data: seq<byte>, p: nat, a: nat, b: nat)
    ensures Low(data, p, a + b) == Low(data, p, a) + ShiftLeft(Low(data, p + a, b), a)
    decreases a
  {
    if a > 0 {
      LowSplit(data, p + 1, a - 1, b);
      ShiftLeftDouble(Low(data, p + a, b), a - 1);
      assert p + 1 + (a - 1) == p + a && a + b - 1 == a - 1 + b;
    }
  }

  lemma {:induction false} LowInByte(data: seq<byte>, k: nat, i: nat, n: nat)
    requires i + n == 8 && k < |data|
    ensures Low(data, 8 * k + i, n) == ShiftRight(data[k], i)
    decreases n
  {
    if n == 0 {
      ByteShiftedOut(data[k]);
    } else {
      LowInByte(data, k, i + 1, n - 1);
      ShiftRightTwice(data[k], i);
      assert (8 * k + i) / 8 == k && (8 * k + i) % 8 == i;
    }
  }

  lemma ByteShiftedOut(v: nat)
    requires v < 256
    ensures ShiftRight(v, 8) == 0
  {
    ShiftCompare(v, 1, 8);
    ShiftLeftOne(8);
    assert Pow2(8) == 256;
  }

  lemma {:induction false} LowBeyond(data: seq<byte>, p: nat, n: nat)
    requires p >= 8 * |data|
    ensures Low(data, p, n) == 0
    decreases n
  {
    if n > 0 {
      LowBeyond(data, p + 1, n - 1);
    }
  }

  function ByteAt(data: seq<byte>, k: nat): byte {
    if k < |data| then data[k] else 0
  }

  /** Eight bits from a byte boundary are that byte, or zero past the end. */
  lemma LowByte(data: seq<byte>, k: nat)
    ensures Low(data, 8 * k, 8) == ByteAt(data, k)
  {
    if k < |data| {
      LowInByte(data, k, 0, 8);
    } else {
      LowBeyond(data, 8 * k, 8);
    }
  }

  lemma {:induction false} HighFirst(data: seq<byte>, p: nat, n: nat)
    requires n > 0
    ensures High(data, p, n) == (if Bit(data, p) == 1 then Pow2(n - 1) else 0) + High(data, p + 1, n - 1)
  {
    if n > 1 {
      HighFirst(data, p, n - 1);
    }
  }

  lemma {:induction false} RevLow(data: seq<byte>, p: nat, n: nat)
    ensures Rev(Low(data, p, n), n) == High(data, p, n)
    decreases n
  {
    if n > 0 {
      RevLow(data, p + 1, n - 1);
      HighFirst(data, p, n);
      assert Low(data, p, n) / 2 == Low(data, p + 1, n - 1) && Low(data, p, n) % 2 == Bit(data, p);
    }
  }

  lemma {:induction false} HighPrefix(data: seq<byte>, p: nat, a: nat, n: nat)
    requires a <= n
    ensures ShiftRight(High(data, p, n), n - a) == High(data, p, a)
    decreases n - a
  {
    if a < n {
      HighPrefix(data, p, a, n - 1);
      assert High(data, p, n) / 2 == High(data, p, n - 1);
    }
  }

  lemma {:induction false} RevBound(v: nat, n: nat)
    ensures Rev(v, n) < Pow2(n)
    decreases n
  {
    if n > 0 {
      RevBound(v / 2, n - 1);
    }
  }

  lemma {:induction false} RevTop(u: nat, high: bool, n: nat)
    requires n > 0 && u < Pow2(n - 1)
    ensures Rev(u + (if high then Pow2(n - 1) else 0), n) == 2 * Rev(u, n - 1) + if high then 1 else 0
    decreases n
  {
    if n > 1 {
      var v := u + (if high then Pow2(n - 1) else 0);
      assert v % 2 == u % 2 && v / 2 == u / 2 + (if high then Pow2(n - 2) else 0);
      RevTop(u / 2, high, n - 1);
    }
  }

  lemma {:induction false} RevRev(v: nat, n: nat)
    requires v < Pow2(n)
    ensures Rev(Rev(v, n), n) == v
    decreases n
  {
    if n > 0 {
      RevRev(v / 2, n - 1);
      RevBound(v / 2, n - 1);
      RevTop(Rev(v / 2, n - 1), v % 2 == 1, n);
    }
  }

  /** Reading code bits from the top is reading the reversed code from the bottom. */
  lemma HighIsRevLow(data: seq<byte>, p: nat, n: nat, c: nat)
    requires c < Pow2(n)
    ensures High(data, p, n) == c <==> Low(data, p, n) == Rev(c, n)
  {
    RevLow(data, p, n);
    LowBound(data, p, n);
    RevRev(Low(data, p, n), n);
    RevRev(c, n);
  }

  /** A byte shifted above n buffered bits extends the buffer by its eight bits. */
  lemma FillValue(data: seq<byte>, p: nat, n: nat, k: nat, b: byte)
    requires p + n == 8 * k && b == ByteAt(data, k)
    ensures Low(data, p, n) + ShiftLeft(b, n) == Low(data, p, n + 8)
  {
    LowByte(data, k);
    LowSplit(data, p, n, 8);
  }
}
