/**
 Samples of 1, 2 or 4 bits (3rd_party/imageHelper/stb_image.h:4393, 4520-4591): the packed bytes at
 the right end of a row are spread out over the row in place, and then alpha is inserted in place.
 */
module PngUnpack {
  import opened BitStream
  import opened PngFilter
  import opened PngRows
  import opened PngImage

  // ---------------------------------------------------------------- packed samples

  predicate SmallDepth(depth: nat) {
    depth == 1 || depth == 2 || depth == 4
  }

  /** Samples in a byte, and how many values a sample has. */
  function PerByte(depth: nat): nat {
    if depth == 1 then 8 else if depth == 2 then 4 else 2
  }

  function Values(depth: nat): (v: nat)
    ensures v > 0
  {
    if depth == 1 then 2 else if depth == 2 then 4 else 16
  }

  /** Digit number `place` of v, counted from the low end. */
  function Digit(v: nat, base: nat, place: nat): (d: nat)
    requires base > 0
    ensures d < base
    decreases place, v
  {
    if place == 0 then v % base else Digit(v / base, base, place - 1)
  }

  /** Sample i of a byte; the leftmost is in the high-order bits (section 7.2 of the PNG Specification). */
  function Sample(v: byte, depth: nat, i: nat): nat
    requires i < PerByte(depth)
  {
    Digit(v, Values(depth), PerByte(depth) - 1 - i)
  }

  /** Packing samples into a number, leftmost first. */
  function Pack(ds: seq<nat>, base: nat): nat {
    if ds == [] then 0 else Pack(ds[..|ds| - 1], base) * base + ds[|ds| - 1]
  }

  lemma DivMod(q: nat, base: nat, m: nat)
    requires m < base && base > 0
    ensures (q * base + m) / base == q && (q * base + m) % base == m
  {
    var n := q * base + m;
    var k, r := n / base, n % base;
    assert k * base + r == q * base + m;
    AtLeast(k, q, base);
    AtLeast(q, k, base);
  }

  lemma {:induction false} AtLeast(k: nat, q: nat, base: nat)
    ensures k < q ==> k * base + base <= q * base
    decreases q
  {
    if k < q {
      assert q * base == (q - 1) * base + base;
      AtLeast(k, q - 1, base);
    }
  }

  /** Unpacking finds every packed sample. */
  lemma {:induction false} UnpackInvertsPack(ds: seq<nat>, base: nat, i: nat)
    requires base > 0 && i < |ds| && forall k :: 0 <= k < |ds| ==> ds[k] < base
    ensures Digit(Pack(ds, base), base, |ds| - 1 - i) == ds[i]
    decreases |ds|
  {
    var last := |ds| - 1;
    DivMod(Pack(ds[..last], base), base, ds[last]);
    if i < last {
      UnpackInvertsPack(ds[..last], base, i);
    }
  }

  /** All samples of a row, those that fill up the last byte included. */
  function Samples(row: Row, depth: nat): (s: seq<nat>)
    requires SmallDepth(depth)
    ensures |s| == Offset(PerByte(depth), |row|)
  {
    if row == [] then []
    else
      var last := row[|row| - 1];
      Samples(row[..|row| - 1], depth) +
        seq(PerByte(depth), i requires 0 <= i < PerByte(depth) => Sample(last, depth, i))
  }

  lemma {:induction false} SampleAt(row: Row, depth: nat, b: nat, i: nat)
    requires SmallDepth(depth) && b < |row| && i < PerByte(depth)
    ensures Offset(PerByte(depth), b) + i < |Samples(row, depth)|
    ensures Samples(row, depth)[Offset(PerByte(depth), b) + i] == Sample(row[b], depth, i)
    decreases |row|
  {
    OffsetRises(PerByte(depth), b, |row|);
    if b < |row| - 1 {
      OffsetRises(PerByte(depth), b, |row| - 1);
      SampleAt(row[..|row| - 1], depth, b, i);
    }
  }

  /** Grey samples are stretched to 0 to 255; palette indices are kept. */
  function Scale(depth: nat, color: nat): nat {
    if color != 0 then 1 else if depth == 1 then 0xff else if depth == 2 then 0x55 else 0x11
  }

  function Scaled(v: nat, depth: nat, color: nat): byte
    requires SmallDepth(depth) && v < Values(depth)
  {
    Scale(depth, color) * v
  }

  // ---------------------------------------------------------------- in place

  lemma {:induction false} OffsetGap(n: nat, b: nat, c: nat)
    requires n >= 1 && b < c
    ensures Offset(n, c) - c >= Offset(n, b) - b + (n - 1)
    decreases c
  {
    if b < c - 1 {
      OffsetGap(n, b, c - 1);
    }
  }

  /** Sample t, the i-th of byte b, is never written over a byte that is still to be read. */
  lemma ReadsStayAhead(n: nat, x: nat, width: nat, lead: nat, b: nat, i: nat)
    requires n >= 1 && i < n && Offset(n, b) + i < x && b < width
    requires width > 0 && Offset(n, width - 1) < x && lead + width >= x
    ensures Offset(n, b) + i <= lead + b
  {
    if b < width - 1 {
      OffsetGap(n, b, width - 1);
    }
  }

  /** The bytes of row from index b on are still at the right end. */
  ghost predicate Unread(out: seq<byte>, p: nat, row: Row, b: nat) {
    p + |row| <= |out| && forall i :: p + b <= i < p + |row| ==> out[i] == row[i - p]
  }

  ghost predicate Spread(out: seq<byte>, base: nat, row: Row, depth: nat, color: nat, t: nat)
    requires SmallDepth(depth)
  {
    base + t <= |out| && t <= |Samples(row, depth)| &&
    forall k: nat :: k < t ==> SpreadAt(out, base, row, depth, color, k)
  }

  ghost predicate SpreadAt(out: seq<byte>, base: nat, row: Row, depth: nat, color: nat, k: nat)
    requires SmallDepth(depth) && base + k < |out| && k < |Samples(row, depth)|
  {
    Samples(row, depth)[k] < Values(depth) && out[base + k] == Scaled(Samples(row, depth)[k], depth, color)
  }

  /** One sample. */
  method WriteSample(out: array<byte>, base: nat, lead: nat, x: nat, depth: nat, color: nat, t: nat, b: nat, i: nat,
      ghost row: Row)
    requires SmallDepth(depth) && i < PerByte(depth) && t == Offset(PerByte(depth), b) + i < x && b < |row|
    requires Offset(PerByte(depth), |row| - 1) < x <= lead + |row|
    requires Unread(out[..], base + lead, row, b) && Spread(out[..], base, row, depth, color, t)
    modifies out
    ensures Spread(out[..], base, row, depth, color, t + 1) && OnlyChanged(old(out[..]), out[..], base + t, 1)
    ensures t < lead + b || i + 1 == PerByte(depth) || t + 1 == x
    ensures t <= lead + b
  {
    ReadsStayAhead(PerByte(depth), x, |row|, lead, b, i);
    if i + 1 < PerByte(depth) && t + 1 < x {
      ReadsStayAhead(PerByte(depth), x, |row|, lead, b, i + 1);
    }
    SampleAt(row, depth, b, i);
    var v := Sample(out[base + lead + b], depth, i);
    out[base + t] := Scaled(v, depth, color);
    forall k: nat | k < t ensures SpreadAt(out[..], base, row, depth, color, k) {
      assert SpreadAt(old(out[..]), base, row, depth, color, k);
    }
    assert SpreadAt(out[..], base, row, depth, color, t);
  }

  /** Spreads out the first x samples of the bytes that lie `lead` bytes to the right of base. */
  method Unpack(out: array<byte>, base: nat, lead: nat, x: nat, depth: nat, color: nat, ghost row: Row)
    requires SmallDepth(depth) && x > 0 && |row| > 0 && Offset(PerByte(depth), |row| - 1) < x <= lead + |row|
    requires x <= Offset(PerByte(depth), |row|) && Unread(out[..], base + lead, row, 0)
    modifies out
    ensures Spread(out[..], base, row, depth, color, x) && OnlyChanged(old(out[..]), out[..], base, x)
  {
    var b, i := 0, 0;
    for t := 0 to x
      invariant i < PerByte(depth) && t == Offset(PerByte(depth), b) + i
      invariant t < x ==> b < |row| && Unread(out[..], base + lead, row, b)
      invariant Spread(out[..], base, row, depth, color, t) && OnlyChanged(old(out[..]), out[..], base, t)
    {
      ghost var before := out[..];
      WriteSample(out, base, lead, x, depth, color, t, b, i, row);
      i := i + 1;
      if i == PerByte(depth) {
        b, i := b + 1, 0;
      }
      if t + 1 < x && b >= |row| {
        OffsetNotBelow(PerByte(depth), |row|, b);
      }
    }
  }

  lemma OffsetNotBelow(n: nat, i: nat, j: nat)
    requires i <= j
    ensures Offset(n, i) <= Offset(n, j)
  {
    if i < j {
      OffsetRises(n, i, j);
    }
  }

  // ---------------------------------------------------------------- inserting alpha

  /** Alpha is only inserted behind grey or three colours. */
  predicate TakesAlpha(n: nat) {
    n == 1 || n == 3
  }

  /** Pixels from q on of a row g of pixels of n values are in place with their alpha; those before are still dense. */
  ghost predicate AlphaFrom(out: seq<byte>, base: nat, g: seq<byte>, n: nat, x: nat, q: nat)
    requires TakesAlpha(n)
  {
    && |g| == n * x && q <= x && base + (n + 1) * x <= |out|
    && n * q <= |g| && base + n * q <= |out| && out[base..base + n * q] == g[..n * q]
    && (forall k: nat :: q <= k < x ==> AlphaAt(out, base, g, n, k))
  }

  ghost predicate AlphaAt(out: seq<byte>, base: nat, g: seq<byte>, n: nat, k: nat)
    requires TakesAlpha(n)
  {
    var p := base + (n + 1) * k;
    n * k + n <= |g| && p + n < |out| && out[p..p + n] == g[n * k..n * k + n] && out[p + n] == 255
  }

  ghost predicate PixelMoved(before: seq<byte>, after: seq<byte>, from: nat, to: nat, n: nat) {
    OnlyChanged(before, after, to, n + 1) && from <= to && to + n < |after| && after[to + n] == 255
    && after[to..to + n] == before[from..from + n]
  }

  /** Moves a pixel of n values to the right. */
  method MovePixel(out: array<byte>, from: nat, to: nat, n: nat)
    requires TakesAlpha(n) && from <= to && to + n < out.Length
    modifies out
    ensures PixelMoved(old(out[..]), out[..], from, to, n)
  {
    if n == 1 {
      out[to + 1] := 255;
      out[to] := out[from];
    } else {
      out[to + 3] := 255;
      out[to + 2] := out[from + 2];
      out[to + 1] := out[from + 1];
      out[to] := out[from];
    }
    MovedIsSlice(old(out[..]), out[..], from, to, n);
  }

  lemma MovedIsSlice(before: seq<byte>, after: seq<byte>, from: nat, to: nat, n: nat)
    requires from + n <= |before| && to + n <= |after|
    requires TakesAlpha(n) && after[to] == before[from]
    requires n == 3 ==> after[to + 1] == before[from + 1] && after[to + 2] == before[from + 2]
    ensures after[to..to + n] == before[from..from + n]
  {
    var a, b := after[to..to + n], before[from..from + n];
    forall k | 0 <= k < n ensures a[k] == b[k] {
      assert k == 0 || k == 1 || k == 2;
    }
  }

  lemma ChangedInside(first: seq<byte>, before: seq<byte>, after: seq<byte>, base: nat, length: nat, p: nat, n: nat)
    requires OnlyChanged(first, before, base, length) && OnlyChanged(before, after, p, n)
    requires base <= p && p + n <= base + length
    ensures OnlyChanged(first, after, base, length)
  {
  }

  /** The pixels of g are still dense. */
  lemma AllDense(out: seq<byte>, base: nat, g: seq<byte>, n: nat, x: nat)
    requires TakesAlpha(n) && base + (n + 1) * x <= |out| && |g| == n * x && n * x <= (n + 1) * x
    requires out[base..base + n * x] == g
    ensures AlphaFrom(out, base, g, n, x, x)
  {
  }

  /** Pixel q is moved after those to its right. */
  method InsertOne(out: array<byte>, base: nat, n: nat, x: nat, q: nat, ghost first: seq<byte>, ghost g: seq<byte>)
    requires TakesAlpha(n) && q < x && AlphaFrom(out[..], base, g, n, x, q + 1)
    requires OnlyChanged(first, out[..], base, (n + 1) * x)
    modifies out
    ensures AlphaFrom(out[..], base, g, n, x, q) && OnlyChanged(first, out[..], base, (n + 1) * x)
  {
    ghost var before := out[..];
    var from, to := base + n * q, base + (n + 1) * q;
    assert to == from + q;
    Multiply(n + 1, q, x);
    MovePixel(out, from, to, n);
    AlphaStep(before, out[..], base, g, n, x, q);
    ChangedInside(first, before, out[..], base, (n + 1) * x, to, n + 1);
  }

  /** Inserts alpha behind x dense pixels, from the right so that nothing is overwritten before it is moved. */
  method InsertAlpha(out: array<byte>, base: nat, n: nat, x: nat)
    requires TakesAlpha(n) && n * x <= (n + 1) * x && base + (n + 1) * x <= out.Length
    modifies out
    ensures AlphaFrom(out[..], base, old(out[base..base + n * x]), n, x, 0)
    ensures OnlyChanged(old(out[..]), out[..], base, (n + 1) * x)
  {
    ghost var first, g := out[..], out[base..base + n * x];
    AllDense(first, base, g, n, x);
    var q: nat := x;
    while q > 0
      invariant q <= x && AlphaFrom(out[..], base, g, n, x, q) && OnlyChanged(first, out[..], base, (n + 1) * x)
    {
      q := q - 1;
      InsertOne(out, base, n, x, q, first, g);
    }
  }

  lemma AlphaStep(before: seq<byte>, after: seq<byte>, base: nat, g: seq<byte>, n: nat, x: nat, q: nat)
    requires TakesAlpha(n) && q < x && AlphaFrom(before, base, g, n, x, q + 1)
    requires PixelMoved(before, after, base + n * q, base + (n + 1) * q, n)
    ensures AlphaFrom(after, base, g, n, x, q)
  {
    var from, to := n * q, (n + 1) * q;
    Multiply(n, q, x);
    Multiply(n + 1, q, x);
    assert n * (q + 1) == from + n && to == from + q;
    DenseBelow(before, after, base, g, from, to, n);
    assert AlphaAt(after, base, g, n, q);
    forall k: nat | q < k < x ensures AlphaAt(after, base, g, n, k) {
      AlphaStays(before, after, base, g, n, q, k, base + to);
    }
  }

  lemma AlphaStays(before: seq<byte>, after: seq<byte>, base: nat, g: seq<byte>, n: nat, q: nat, k: nat, to: nat)
    requires TakesAlpha(n) && q < k && to == base + (n + 1) * q && OnlyChanged(before, after, to, n + 1)
    requires AlphaAt(before, base, g, n, k)
    ensures AlphaAt(after, base, g, n, k)
  {
    Multiply(n + 1, q, k);
    AlphaKept(before, after, to, base + (n + 1) * k, n);
  }

  /** What is still dense, and the pixel that was moved. */
  lemma DenseBelow(before: seq<byte>, after: seq<byte>, base: nat, g: seq<byte>, from: nat, to: nat, n: nat)
    requires from <= to && from + n <= |g| && base + from + n <= |before|
    requires before[base..base + from + n] == g[..from + n] && PixelMoved(before, after, base + from, base + to, n)
    ensures base + from <= |after| && after[base..base + from] == g[..from]
    ensures after[base + to..base + to + n] == g[from..from + n]
  {
    var dense := before[base..base + from + n];
    assert after[base..base + from] == dense[..from];
    assert before[base + from..base + from + n] == dense[from..];
  }

  /** Pixels further right are untouched. */
  lemma AlphaKept(before: seq<byte>, after: seq<byte>, to: nat, p: nat, n: nat)
    requires OnlyChanged(before, after, to, n + 1) && to + n + 1 <= p && p + n < |before|
    ensures after[p..p + n] == before[p..p + n] && after[p + n] == before[p + n]
  {
  }

  // ---------------------------------------------------------------- rows of packed samples

  /** How samples are packed and where they go: bits, colour type, channels in the file and wanted. */
  datatype Packing = Packing(depth: nat, color: nat, img_n: nat, out_n: nat)

  predicate PackingOk(k: Packing) {
    SmallDepth(k.depth) && k.img_n >= 1 && (k.out_n == k.img_n || (k.out_n == k.img_n + 1 && TakesAlpha(k.img_n)))
  }

  /** A row of x pixels: their scaled samples, and alpha if it was asked for. */
  ghost predicate PackedRowDone(out: seq<byte>, base: nat, row: Row, k: Packing, x: nat)
    requires PackingOk(k)
  {
    base + k.out_n * x <= |out| && forall i: nat :: i < x ==> PackedPixel(out, base, row, k, i)
  }

  ghost predicate PackedPixel(out: seq<byte>, base: nat, row: Row, k: Packing, i: nat)
    requires PackingOk(k)
  {
    && k.img_n * i + k.img_n <= |Samples(row, k.depth)| && base + k.out_n * i + k.out_n <= |out|
    && (forall c: nat :: c < k.img_n ==> SampleOut(out, base, row, k, i, c))
    && (k.out_n > k.img_n ==> out[base + k.out_n * i + k.img_n] == 255)
  }

  /** Sample c of pixel i. */
  ghost predicate SampleOut(out: seq<byte>, base: nat, row: Row, k: Packing, i: nat, c: nat)
    requires PackingOk(k)
  {
    var at, t := base + k.out_n * i + c, k.img_n * i + c;
    at < |out| && t < |Samples(row, k.depth)| && Samples(row, k.depth)[t] < Values(k.depth)
    && out[at] == Scaled(Samples(row, k.depth)[t], k.depth, k.color)
  }

  lemma SliceOfSlice(s: seq<byte>, base: nat, length: nat, from: nat, n: nat)
    requires base + length <= |s| && from + n <= length
    ensures s[base..base + length][from..from + n] == s[base + from..base + from + n]
  {
    var a, b := s[base..base + length][from..from + n], s[base + from..base + from + n];
    forall k | 0 <= k < n ensures a[k] == b[k] {
      assert a[k] == s[base..base + length][from + k] == s[base + (from + k)];
    }
    assert a == b;
  }

  /** Pixel i lies where it should with alpha. */
  lemma PixelPlaced(spread: seq<byte>, out: seq<byte>, base: nat, n: nat, x: nat, i: nat, from: nat, to: nat,
      length: nat)
    requires TakesAlpha(n) && i < x && from == n * i && to == (n + 1) * i && length == n * x
    requires from + n <= length && base + length <= |spread|
    requires AlphaFrom(out, base, spread[base..base + length], n, x, 0)
    ensures base + to + n < |out| && out[base + to + n] == 255
    ensures out[base + to..base + to + n] == spread[base + from..base + from + n]
  {
    assert AlphaAt(out, base, spread[base..base + length], n, i);
    SliceOfSlice(spread, base, length, from, n);
  }

  /** And so do its samples. */
  lemma SamplePlaced(spread: seq<byte>, out: seq<byte>, base: nat, row: Row, k: Packing, length: nat, i: nat, c: nat,
      from: nat, to: nat)
    requires PackingOk(k) && c < k.img_n && from == k.img_n * i && to == k.out_n * i
    requires Spread(spread, base, row, k.depth, k.color, length) && from + k.img_n <= length
    requires base + to + k.img_n <= |out|
    requires out[base + to..base + to + k.img_n] == spread[base + from..base + from + k.img_n]
    ensures SampleOut(out, base, row, k, i, c)
  {
    assert SpreadAt(spread, base, row, k.depth, k.color, from + c);
    assert out[base + to..base + to + k.img_n][c] == spread[base + from..base + from + k.img_n][c];
  }

  lemma PixelDone(spread: seq<byte>, out: seq<byte>, base: nat, row: Row, k: Packing, x: nat, i: nat, from: nat,
      to: nat, length: nat)
    requires PackingOk(k) && i < x && from == k.img_n * i && to == k.out_n * i && length == k.img_n * x
    requires from + k.img_n <= length && base + to + k.out_n <= |out|
    requires Spread(spread, base, row, k.depth, k.color, length)
    requires if k.out_n == k.img_n then out == spread
      else AlphaFrom(out, base, spread[base..base + length], k.img_n, x, 0)
    ensures PackedPixel(out, base, row, k, i)
  {
    if k.out_n > k.img_n {
      PixelPlaced(spread, out, base, k.img_n, x, i, from, to, length);
    }
    forall c: nat | c < k.img_n ensures SampleOut(out, base, row, k, i, c) {
      SamplePlaced(spread, out, base, row, k, length, i, c, from, to);
    }
  }

  lemma SpreadIsDone(spread: seq<byte>, out: seq<byte>, base: nat, row: Row, k: Packing, x: nat)
    requires PackingOk(k) && Spread(spread, base, row, k.depth, k.color, k.img_n * x) && base + k.out_n * x <= |out|
    requires if k.out_n == k.img_n then out == spread
      else AlphaFrom(out, base, spread[base..base + k.img_n * x], k.img_n, x, 0)
    ensures PackedRowDone(out, base, row, k, x)
  {
    forall i: nat | i < x ensures PackedPixel(out, base, row, k, i) {
      Multiply(k.img_n, i, x);
      Multiply(k.out_n, i, x);
      PixelDone(spread, out, base, row, k, x, i, k.img_n * i, k.out_n * i, k.img_n * x);
    }
  }

  /** One row: spreads its samples out and inserts alpha if asked to. */
  method ExpandRow(out: array<byte>, base: nat, lead: nat, x: nat, k: Packing, ghost row: Row)
    requires PackingOk(k) && x > 0 && |row| > 0
    requires Offset(PerByte(k.depth), |row| - 1) < k.img_n * x <= Offset(PerByte(k.depth), |row|)
    requires k.img_n * x <= lead + |row| && base + k.out_n * x <= out.Length && Unread(out[..], base + lead, row, 0)
    modifies out
    ensures PackedRowDone(out[..], base, row, k, x) && OnlyChanged(old(out[..]), out[..], base, k.out_n * x)
  {
    Dense(k, x);
    Unpack(out, base, lead, k.img_n * x, k.depth, k.color, row);
    ghost var spread := out[..];
    if k.out_n != k.img_n {
      assert spread[base..base + k.img_n * x] == out[base..base + k.img_n * x];
      InsertAlpha(out, base, k.img_n, x);
    }
    SpreadIsDone(spread, out[..], base, row, k, x);
  }

  lemma Dense(k: Packing, x: nat)
    requires PackingOk(k) && x > 0
    ensures 0 < k.img_n * x <= k.out_n * x
  {
    Multiply(k.img_n, 0, x);
    Multiply(x, 0, k.img_n);
    assert k.out_n > k.img_n ==> k.out_n * x == k.img_n * x + x;
  }

  /** Rows before j are expanded, those from j on are still packed at their right ends. */
  ghost predicate ExpandedTo(out: seq<byte>, l: Layout, rows: seq<Row>, k: Packing, x: nat, j: nat)
    requires PackingOk(k)
  {
    && (forall i: nat :: i < j && i < |rows| ==> PackedAt(out, l, rows, k, x, i))
    && (forall i: nat :: j <= i < |rows| ==> RowDoneAt(out, l, rows, i))
  }

  ghost predicate PackedAt(out: seq<byte>, l: Layout, rows: seq<Row>, k: Packing, x: nat, i: nat)
    requires PackingOk(k) && i < |rows|
  {
    PackedRowDone(out, Offset(l.stride, i), rows[i], k, x)
  }

  lemma PackedKept(before: seq<byte>, after: seq<byte>, base: nat, row: Row, k: Packing, x: nat, from: nat)
    requires PackingOk(k) && PackedRowDone(before, base, row, k, x)
    requires SameBelow(before, after, from) && base + k.out_n * x <= from
    ensures PackedRowDone(after, base, row, k, x)
  {
    forall i: nat | i < x ensures PackedPixel(after, base, row, k, i) {
      assert PackedPixel(before, base, row, k, i);
      Multiply(k.out_n, i, x);
      forall c: nat | c < k.img_n ensures SampleOut(after, base, row, k, i, c) {
        assert SampleOut(before, base, row, k, i, c);
      }
    }
  }

  lemma Multiply(n: nat, k: nat, x: nat)
    requires k < x
    ensures n * k + n <= n * x
  {
    AtLeast(k, x, n);
  }

  /** Expanding row j keeps the others. */
  lemma ExpandStep(before: seq<byte>, after: seq<byte>, l: Layout, rows: seq<Row>, k: Packing, x: nat, j: nat)
    requires PackingOk(k) && j < |rows| && ExpandedTo(before, l, rows, k, x, j)
    requires l.ob == l.fb && k.out_n * x == l.stride && OnlyChanged(before, after, Offset(l.stride, j), l.stride)
    requires PackedRowDone(after, Offset(l.stride, j), rows[j], k, x)
    ensures ExpandedTo(after, l, rows, k, x, j + 1)
  {
    forall i: nat | i < j ensures PackedAt(after, l, rows, k, x, i) {
      assert PackedAt(before, l, rows, k, x, i);
      OffsetRises(l.stride, i, j);
      PackedKept(before, after, Offset(l.stride, i), rows[i], k, x, Offset(l.stride, j));
    }
    assert PackedAt(after, l, rows, k, x, j);
    forall i: nat | j + 1 <= i < |rows| ensures RowDoneAt(after, l, rows, i) {
      assert RowDoneAt(before, l, rows, i);
      OffsetRises(l.stride, j, i);
    }
  }

  /** All rows. */
  method ExpandRows(out: array<byte>, l: Layout, y: nat, x: nat, k: Packing, ghost rows: seq<Row>)
    requires PackingOk(k) && x > 0 && l.fb == l.ob == 1 && l.stride == k.out_n * x && |rows| == y && l.x > 0
    requires Offset(PerByte(k.depth), l.x - 1) < k.img_n * x <= Offset(PerByte(k.depth), l.x)
    requires Offset(1, l.x) + l.lead == l.stride && Offset(l.stride, y) <= out.Length && RowsDone(out[..], l, rows)
    modifies out
    ensures ExpandedTo(out[..], l, rows, k, x, y)
  {
    OnePerByte(l.x);
    Dense(k, x);
    var base := 0;
    for j := 0 to y
      invariant base == Offset(l.stride, j) && ExpandedTo(out[..], l, rows, k, x, j)
    {
      ghost var before := out[..];
      OffsetRises(l.stride, j, y);
      assert RowDoneAt(before, l, rows, j);
      ExpandRow(out, base, l.lead, x, k, rows[j]);
      ExpandStep(before, out[..], l, rows, k, x, j);
      base := base + l.stride;
    }
  }

  lemma {:induction false} OnePerByte(n: nat)
    ensures Offset(1, n) == n
  {
    if n > 0 {
      OnePerByte(n - 1);
    }
  }
}
