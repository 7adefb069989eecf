/**
 Undoing the filter of one row in place (3rd_party/imageHelper/stb_image.h:4361-4518), with the
 special filters of the first row and the path that inserts an alpha channel.
 */
module PngRows {
  import opened BitStream
  import opened PngFilter

  // ---------------------------------------------------------------- filter codes

  /** The seven codes; the last two replace average and Paeth in the first row. */
  const F_none: nat := 0
  const F_sub: nat := 1
  const F_up: nat := 2
  const F_avg: nat := 3
  const F_paeth: nat := 4
  const F_avg_first: nat := 5
  const F_paeth_first: nat := 6

  const first_row_filter: seq<nat> := [F_none, F_sub, F_none, F_avg_first, F_paeth_first]

  /** The code that row j uses for filter type f. */
  function Code(f: nat, first: bool): nat
    requires f <= 4
  {
    if first then first_row_filter[f] else f
  }

  predicate UsesPrior(code: nat) {
    code == F_up || code == F_avg || code == F_paeth
  }

  /** A byte of the first pixel. */
  function FirstByte(code: nat, raw: byte, b: byte): byte {
    if code == F_up then Sum(raw, b)
    else if code == F_avg then Sum(raw, b / 2)
    else if code == F_paeth then Sum(raw, Paeth(0, b, 0))
    else raw
  }

  /** A byte of any other pixel. */
  function RestByte(code: nat, raw: byte, a: byte, b: byte, c: byte): byte {
    if code == F_sub then Sum(raw, a)
    else if code == F_up then Sum(raw, b)
    else if code == F_avg then Sum(raw, (b + a) / 2)
    else if code == F_paeth then Sum(raw, Paeth(a, b, c))
    else if code == F_avg_first then Sum(raw, a / 2)
    else if code == F_paeth_first then Sum(raw, Paeth(a, 0, 0))
    else raw
  }

  /** The codes mean the filter types, the first row's with a prior row of zeros that is never read. */
  lemma CodesMean(f: nat, first: bool, raw: byte, a: byte, b: byte, c: byte, b': byte, c': byte)
    requires f <= 4 && (first ==> b == 0 && c == 0)
    requires UsesPrior(Code(f, first)) ==> b' == b && c' == c
    ensures RestByte(Code(f, first), raw, a, b', c') == Sum(raw, Predict(f, a, b, c))
    ensures FirstByte(Code(f, first), raw, b') == Sum(raw, Predict(f, 0, b, 0))
    ensures first ==> !UsesPrior(Code(f, first))
  {
  }

  /** Each reconstructed byte from its neighbours. */
  lemma {:induction false} ReconAt(filter: nat, bpp: nat, raw: Row, prior: Row, n: nat)
    requires bpp > 0 && |raw| <= |prior| && n < |raw|
    ensures var r := Recon(filter, bpp, raw, prior);
      r[n] == Sum(raw[n], Predict(filter, Left(r, n, bpp), prior[n], Left(prior, n, bpp)))
    decreases |raw|
  {
    var last := |raw| - 1;
    var r := Recon(filter, bpp, raw[..last], prior);
    assert raw == raw[..last] + [raw[last]];
    ReconStep(filter, bpp, raw[..last], prior, raw[last], r);
    if n < last {
      ReconAt(filter, bpp, raw[..last], prior, n);
    }
  }

  /** Sizes added up; where element `count` of a list of equal-sized elements starts. */
  function Offset(size: nat, count: nat): nat {
    if count == 0 then 0 else Offset(size, count - 1) + size
  }

  lemma {:induction false} OffsetRises(size: nat, i: nat, j: nat)
    requires i < j
    ensures Offset(size, i) + size <= Offset(size, j)
    decreases j
  {
    if i < j - 1 {
      OffsetRises(size, i, j - 1);
    }
  }

  // ---------------------------------------------------------------- what a row must become

  /** n bytes of the buffer from p on are those of row from m on. */
  ghost predicate Holds(out: seq<byte>, p: nat, row: Row, m: nat, n: nat)
  {
    p + n <= |out| && m + n <= |row| && forall i :: p <= i < p + n ==> out[i] == row[m + (i - p)]
  }

  /** The same in the row before, unless there is none. */
  ghost predicate PriorHolds(out: seq<byte>, p: nat, stride: nat, first: bool, prior: Row, m: nat, n: nat)
  {
    m + n <= |prior| &&
    if first then forall k :: m <= k < m + n ==> prior[k] == 0
    else stride <= p && Holds(out, p - stride, prior, m, n)
  }

  /** What a row's bytes are computed from: its filtered bytes, filter type, pixel size and the row before. */
  datatype Source = Source(raw: Row, f: nat, first: bool, bpp: nat, prior: Row)

  ghost predicate SourceOk(s: Source) {
    s.f <= 4 && s.bpp > 0 && |s.raw| == |s.prior|
  }

  /** Byte n of row r follows from its neighbours. */
  ghost predicate ByteFollows(s: Source, r: Row, n: nat)
    requires SourceOk(s) && |r| == |s.raw| && n < |r|
  {
    r[n] == Sum(s.raw[n], Predict(s.f, Left(r, n, s.bpp), s.prior[n], Left(s.prior, n, s.bpp)))
  }

  /** Row r is what s is to become. */
  ghost predicate Follows(s: Source, r: Row) {
    SourceOk(s) && |r| == |s.raw| && forall n: nat :: n < |r| ==> ByteFollows(s, r, n)
  }

  lemma ReconFollows(s: Source)
    requires SourceOk(s)
    ensures Follows(s, Recon(s.f, s.bpp, s.raw, s.prior))
  {
    forall n: nat | n < |s.raw| ensures ByteFollows(s, Recon(s.f, s.bpp, s.raw, s.prior), n) {
      ReconAt(s.f, s.bpp, s.raw, s.prior, n);
    }
  }

  /** Nothing but the n bytes from p on has changed. */
  ghost predicate OnlyChanged(before: seq<byte>, after: seq<byte>, p: nat, n: nat) {
    |after| == |before| && forall k :: 0 <= k < |before| && !(p <= k < p + n) ==> after[k] == before[k]
  }

  /** The first pixel's bytes. */
  method FirstPixel(out: array<byte>, cur: nat, stride: nat, raw: Row, f: nat, first: bool, fb: nat, ghost s: Source,
      ghost r: Row)
    requires Follows(s, r) && s == Source(raw, f, first, fb, s.prior) && fb <= |raw| && cur + fb <= out.Length
    requires fb <= stride
    requires PriorHolds(out[..], cur, stride, first, s.prior, 0, fb)
    modifies out
    ensures Holds(out[..], cur, r, 0, fb) && OnlyChanged(old(out[..]), out[..], cur, fb)
  {
    var code := Code(f, first);
    for k := 0 to fb
      invariant Holds(out[..], cur, r, 0, k) && OnlyChanged(old(out[..]), out[..], cur, k)
    {
      assert ByteFollows(s, r, k);
      var b := if UsesPrior(code) then out[cur - stride + k] else 0;
      CodesMean(f, first, raw[k], 0, s.prior[k], 0, b, 0);
      out[cur + k] := FirstByte(code, raw[k], b);
    }
  }

  /** The other bytes of a row without alpha. */
  method FlatRest(out: array<byte>, cur: nat, stride: nat, raw: Row, f: nat, first: bool, fb: nat, ghost s: Source,
      ghost r: Row)
    requires Follows(s, r) && s == Source(raw, f, first, fb, s.prior) && fb <= |raw| && cur + |raw| <= out.Length
    requires |raw| <= stride
    requires PriorHolds(out[..], cur, stride, first, s.prior, 0, |raw|) && Holds(out[..], cur, r, 0, fb)
    modifies out
    ensures Holds(out[..], cur, r, 0, |raw|) && OnlyChanged(old(out[..]), out[..], cur, |raw|)
  {
    var code := Code(f, first);
    for k := fb to |raw|
      invariant Holds(out[..], cur, r, 0, k) && OnlyChanged(old(out[..]), out[..], cur, k)
    {
      assert ByteFollows(s, r, k);
      var b := if UsesPrior(code) then out[cur - stride + k] else 0;
      var c := if UsesPrior(code) then out[cur - stride + k - fb] else 0;
      CodesMean(f, first, raw[k], out[cur + k - fb], s.prior[k], s.prior[k - fb], b, c);
      out[cur + k] := RestByte(code, raw[k], out[cur + k - fb], b, c);
    }
  }

  /** A row without alpha, in place. */
  method UnfilterFlat(out: array<byte>, cur: nat, stride: nat, raw: Row, f: nat, first: bool, fb: nat, ghost s: Source,
      ghost r: Row)
    requires Follows(s, r) && s == Source(raw, f, first, fb, s.prior) && fb <= |raw| && cur + |raw| <= out.Length
    requires |raw| <= stride
    requires PriorHolds(out[..], cur, stride, first, s.prior, 0, |raw|)
    modifies out
    ensures Holds(out[..], cur, r, 0, |raw|) && OnlyChanged(old(out[..]), out[..], cur, |raw|)
  {
    FirstPixel(out, cur, stride, raw, f, first, fb, s, r);
    FlatRest(out, cur, stride, raw, f, first, fb, s, r);
  }

  // ---------------------------------------------------------------- inserting alpha

  /** A pixel of row and `alpha` alpha bytes, all 255. */
  ghost predicate PixelHolds(out: seq<byte>, p: nat, row: Row, m: nat, fb: nat, alpha: nat)
  {
    Holds(out, p, row, m, fb) && p + fb + alpha <= |out| && forall i :: p + fb <= i < p + fb + alpha ==> out[i] == 255
  }

  /** The first n pixels of row, ob bytes apart. */
  ghost predicate PixelsHold(out: seq<byte>, p: nat, row: Row, fb: nat, ob: nat, alpha: nat, n: nat)
  {
    forall q: nat :: q < n ==> PixelAt(out, p, row, fb, ob, alpha, q)
  }

  ghost predicate PixelAt(out: seq<byte>, p: nat, row: Row, fb: nat, ob: nat, alpha: nat, q: nat) {
    PixelHolds(out, p + Offset(ob, q), row, Offset(fb, q), fb, alpha)
  }

  /** The pixels of the row before, unless there is none. */
  ghost predicate PriorPixels(out: seq<byte>, base: nat, stride: nat, first: bool, prior: Row, fb: nat, ob: nat, n: nat)
  {
    if first then forall k :: 0 <= k < |prior| ==> prior[k] == 0
    else stride <= base && fb <= ob && PixelsHold(out, base - stride, prior, fb, ob, ob - fb, n)
  }

  ghost predicate SameBelow(before: seq<byte>, after: seq<byte>, from: nat) {
    |after| == |before| && forall k :: 0 <= k < |before| && k < from ==> after[k] == before[k]
  }

  /** Pixels before the changed bytes are kept. */
  lemma PixelsKept(before: seq<byte>, after: seq<byte>, p: nat, row: Row, fb: nat, ob: nat, alpha: nat, n: nat,
      from: nat)
    requires PixelsHold(before, p, row, fb, ob, alpha, n) && fb + alpha <= ob && p + Offset(ob, n) <= from
    requires SameBelow(before, after, from)
    ensures PixelsHold(after, p, row, fb, ob, alpha, n)
  {
    forall q: nat | q < n ensures PixelAt(after, p, row, fb, ob, alpha, q) {
      assert PixelAt(before, p, row, fb, ob, alpha, q);
      OffsetRises(ob, q, n);
    }
  }

  lemma PriorKept(before: seq<byte>, after: seq<byte>, base: nat, stride: nat, first: bool, prior: Row, fb: nat,
      ob: nat, n: nat)
    requires PriorPixels(before, base, stride, first, prior, fb, ob, n) && fb < ob && stride == Offset(ob, n)
    requires SameBelow(before, after, base)
    ensures PriorPixels(after, base, stride, first, prior, fb, ob, n)
  {
    if !first {
      PixelsKept(before, after, base - stride, prior, fb, ob, ob - fb, n, base);
    }
  }

  /** The bytes of pixel q > 0 at cur, computed from those of pixel q - 1 and of the row before. */
  method NextPixel(out: array<byte>, cur: nat, stride: nat, raw: Row, m: nat, f: nat, first: bool, fb: nat, ob: nat,
      ghost s: Source, ghost r: Row)
    requires Follows(s, r) && s == Source(raw, f, first, fb, s.prior) && fb <= m && m + fb <= |raw| && fb <= ob <= cur
    requires cur + ob <= out.Length
    requires 2 * ob <= stride
    requires Holds(out[..], cur - ob, r, m - fb, fb)
    requires PriorHolds(out[..], cur, stride, first, s.prior, m, fb)
    requires PriorHolds(out[..], cur - ob, stride, first, s.prior, m - fb, fb)
    modifies out
    ensures Holds(out[..], cur, r, m, fb) && OnlyChanged(old(out[..]), out[..], cur, fb)
  {
    var code := Code(f, first);
    for k := 0 to fb
      invariant Holds(out[..], cur, r, m, k) && OnlyChanged(old(out[..]), out[..], cur, k)
    {
      assert ByteFollows(s, r, m + k);
      var b := if UsesPrior(code) then out[cur - stride + k] else 0;
      var c := if UsesPrior(code) then out[cur - stride + k - ob] else 0;
      CodesMean(f, first, raw[m + k], out[cur + k - ob], s.prior[m + k], s.prior[m + k - fb], b, c);
      out[cur + k] := RestByte(code, raw[m + k], out[cur + k - ob], b, c);
    }
  }

  /** What the row before holds at pixel q. */
  lemma PriorAt(out: seq<byte>, base: nat, stride: nat, first: bool, prior: Row, fb: nat, ob: nat, n: nat, q: nat)
    requires PriorPixels(out, base, stride, first, prior, fb, ob, n) && q < n && fb <= ob && |prior| == Offset(fb, n)
    ensures PriorHolds(out, base + Offset(ob, q), stride, first, prior, Offset(fb, q), fb)
  {
    OffsetRises(fb, q, n);
    if !first {
      assert PixelAt(out, base - stride, prior, fb, ob, ob - fb, q);
    }
  }

  /** The first pixel and all of its alpha. */
  method FirstAlphaPixel(out: array<byte>, base: nat, stride: nat, raw: Row, f: nat, first: bool, fb: nat, ob: nat,
      ghost s: Source, ghost r: Row, ghost x: nat)
    requires Follows(s, r) && s == Source(raw, f, first, fb, s.prior) && fb < ob <= fb + 2 && x > 0
    requires |raw| == Offset(fb, x) && stride == Offset(ob, x) && base + stride <= out.Length
    requires PriorPixels(out[..], base, stride, first, s.prior, fb, ob, x)
    modifies out
    ensures PixelHolds(out[..], base, r, 0, fb, ob - fb) && OnlyChanged(old(out[..]), out[..], base, ob)
  {
    OffsetRises(fb, 0, x);
    OffsetRises(ob, 0, x);
    PriorAt(out[..], base, stride, first, s.prior, fb, ob, x, 0);
    FirstPixel(out, base, stride, raw, f, first, fb, s, r);
    out[base + fb] := 255;
    if ob == fb + 2 {
      out[base + fb + 1] := 255;
    }
  }

  lemma OffsetSteps(size: nat, q: nat, x: nat)
    requires 0 < q < x
    ensures Offset(size, q) == Offset(size, q - 1) + size && Offset(size, q) + size <= Offset(size, x)
  {
    OffsetRises(size, q, x);
  }

  lemma LeftNeighbour(out: seq<byte>, base: nat, r: Row, fb: nat, ob: nat, q: nat, cur: nat, m: nat)
    requires PixelsHold(out, base, r, fb, ob, 1, q + 1) && cur == base + Offset(ob, q) && m == Offset(fb, q)
    ensures Holds(out, cur, r, m, fb)
  {
    assert PixelAt(out, base, r, fb, ob, 1, q);
  }

  lemma PriorNeighbour(out: seq<byte>, base: nat, stride: nat, first: bool, prior: Row, fb: nat, ob: nat, x: nat,
      q: nat, cur: nat, m: nat)
    requires PriorPixels(out, base, stride, first, prior, fb, ob, x)
    requires fb < ob && q < x && |prior| == Offset(fb, x) && cur == base + Offset(ob, q) && m == Offset(fb, q)
    ensures PriorHolds(out, cur, stride, first, prior, m, fb)
  {
    PriorAt(out, base, stride, first, prior, fb, ob, x, q);
  }

  /** The bytes of a pixel and the first byte of its alpha. */
  method PixelAndAlpha(out: array<byte>, cur: nat, stride: nat, raw: Row, m: nat, f: nat, first: bool, fb: nat, ob: nat,
      ghost s: Source, ghost r: Row)
    requires Follows(s, r) && s == Source(raw, f, first, fb, s.prior) && fb <= m && m + fb <= |raw| && fb < ob <= cur
    requires cur + ob <= out.Length
    requires 2 * ob <= stride
    requires Holds(out[..], cur - ob, r, m - fb, fb)
    requires PriorHolds(out[..], cur, stride, first, s.prior, m, fb)
    requires PriorHolds(out[..], cur - ob, stride, first, s.prior, m - fb, fb)
    modifies out
    ensures PixelHolds(out[..], cur, r, m, fb, 1) && OnlyChanged(old(out[..]), out[..], cur, fb + 1)
  {
    NextPixel(out, cur, stride, raw, m, f, first, fb, ob, s, r);
    out[cur + fb] := 255;
  }

  /** What pixel q is computed from. */
  lemma Neighbours(out: seq<byte>, base: nat, cur: nat, stride: nat, m: nat, first: bool, fb: nat, ob: nat, prior: Row,
      r: Row, q: nat, x: nat)
    requires fb < ob && 0 < q < x && cur == base + Offset(ob, q) && m == Offset(fb, q) && stride == Offset(ob, x)
    requires |prior| == Offset(fb, x)
    requires PriorPixels(out, base, stride, first, prior, fb, ob, x) && PixelsHold(out, base, r, fb, ob, 1, q)
    ensures fb <= m && m + fb <= Offset(fb, x) && ob <= cur && cur + ob <= base + stride && 2 * ob <= stride
    ensures Holds(out, cur - ob, r, m - fb, fb)
    ensures PriorHolds(out, cur, stride, first, prior, m, fb)
    ensures PriorHolds(out, cur - ob, stride, first, prior, m - fb, fb)
  {
    NeighbourPlaces(base, cur, stride, m, fb, ob, q, x);
    LeftNeighbour(out, base, r, fb, ob, q - 1, cur - ob, m - fb);
    PriorNeighbour(out, base, stride, first, prior, fb, ob, x, q, cur, m);
    PriorNeighbour(out, base, stride, first, prior, fb, ob, x, q - 1, cur - ob, m - fb);
  }

  lemma NeighbourPlaces(base: nat, cur: nat, stride: nat, m: nat, fb: nat, ob: nat, q: nat, x: nat)
    requires fb < ob && 0 < q < x && cur == base + Offset(ob, q) && m == Offset(fb, q) && stride == Offset(ob, x)
    ensures fb <= m && m + fb <= Offset(fb, x) && ob <= cur && cur + ob <= base + stride && 2 * ob <= stride
    ensures cur - ob == base + Offset(ob, q - 1) && m - fb == Offset(fb, q - 1)
  {
    OffsetSteps(fb, q, x);
    OffsetSteps(ob, q, x);
  }

  /** Pixel q > 0 and the first byte of its alpha, after the q pixels before it. */
  method NextAlphaPixel(out: array<byte>, base: nat, cur: nat, stride: nat, raw: Row, m: nat, f: nat, first: bool,
      fb: nat, ob: nat, ghost s: Source, ghost r: Row, ghost q: nat, ghost x: nat)
    requires Follows(s, r) && s == Source(raw, f, first, fb, s.prior) && fb < ob && 0 < q < x
    requires |raw| == Offset(fb, x) && stride == Offset(ob, x) && base + stride <= out.Length
    requires cur == base + Offset(ob, q) && m == Offset(fb, q)
    requires PriorPixels(out[..], base, stride, first, s.prior, fb, ob, x) && PixelsHold(out[..], base, r, fb, ob, 1, q)
    modifies out
    ensures PriorPixels(out[..], base, stride, first, s.prior, fb, ob, x)
    ensures PixelsHold(out[..], base, r, fb, ob, 1, q + 1)
    ensures OnlyChanged(old(out[..]), out[..], cur, fb + 1) && cur + ob <= base + stride
  {
    Neighbours(out[..], base, cur, stride, m, first, fb, ob, s.prior, r, q, x);
    PixelAndAlpha(out, cur, stride, raw, m, f, first, fb, ob, s, r);
    PriorKept(old(out[..]), out[..], base, stride, first, s.prior, fb, ob, x);
    PixelsKept(old(out[..]), out[..], base, r, fb, ob, 1, q, cur);
  }

  /** All pixels, with one alpha byte set. */
  method AlphaPixels(out: array<byte>, base: nat, stride: nat, raw: Row, f: nat, first: bool, fb: nat, ob: nat, x: nat,
      ghost s: Source, ghost r: Row)
    requires Follows(s, r) && s == Source(raw, f, first, fb, s.prior) && fb < ob <= fb + 2 && x > 0
    requires |raw| == Offset(fb, x) && stride == Offset(ob, x) && base + stride <= out.Length
    requires PriorPixels(out[..], base, stride, first, s.prior, fb, ob, x)
    modifies out
    ensures PixelsHold(out[..], base, r, fb, ob, 1, x) && OnlyChanged(old(out[..]), out[..], base, stride)
  {
    FirstAlphaPixel(out, base, stride, raw, f, first, fb, ob, s, r, x);
    PriorKept(old(out[..]), out[..], base, stride, first, s.prior, fb, ob, x);
    OffsetRises(ob, 0, x);
    var cur, m := base + ob, fb;
    for q := 1 to x
      invariant cur == base + Offset(ob, q) <= base + stride && m == Offset(fb, q)
      invariant PixelsHold(out[..], base, r, fb, ob, 1, q) && OnlyChanged(old(out[..]), out[..], base, cur - base)
      invariant PriorPixels(out[..], base, stride, first, s.prior, fb, ob, x)
    {
      NextAlphaPixel(out, base, cur, stride, raw, m, f, first, fb, ob, s, r, q, x);
      cur, m := cur + ob, m + fb;
    }
  }

  /** The low bytes of 16-bit alpha. */
  method LowAlpha(out: array<byte>, base: nat, fb: nat, ob: nat, x: nat, ghost r: Row)
    requires ob == fb + 2 && base + Offset(ob, x) <= out.Length && PixelsHold(out[..], base, r, fb, ob, 1, x)
    modifies out
    ensures PixelsHold(out[..], base, r, fb, ob, 2, x) && OnlyChanged(old(out[..]), out[..], base, Offset(ob, x))
  {
    var cur := base;
    for i := 0 to x
      invariant cur == base + Offset(ob, i)
      invariant PixelsHold(out[..], base, r, fb, ob, 1, x) && PixelsHold(out[..], base, r, fb, ob, 2, i)
      invariant OnlyChanged(old(out[..]), out[..], base, Offset(ob, x))
    {
      ghost var before := out[..];
      OffsetRises(ob, i, x);
      out[cur + fb + 1] := 255;
      LowByteSet(before, out[..], base, r, fb, ob, x, i);
      cur := cur + ob;
    }
  }

  /** Setting the second alpha byte of pixel i. */
  lemma LowByteSet(before: seq<byte>, after: seq<byte>, base: nat, r: Row, fb: nat, ob: nat, x: nat, i: nat)
    requires ob == fb + 2 && i < x && base + Offset(ob, i) + ob <= |before|
    requires after == before[base + Offset(ob, i) + fb + 1 := 255]
    requires PixelsHold(before, base, r, fb, ob, 1, x) && PixelsHold(before, base, r, fb, ob, 2, i)
    ensures PixelsHold(after, base, r, fb, ob, 1, x) && PixelsHold(after, base, r, fb, ob, 2, i + 1)
  {
    forall q: nat | q < x ensures PixelAt(after, base, r, fb, ob, 1, q) {
      assert PixelAt(before, base, r, fb, ob, 1, q);
      if q < i {
        OffsetRises(ob, q, i);
      } else if q > i {
        OffsetRises(ob, i, q);
      }
    }
    forall q: nat | q < i + 1 ensures PixelAt(after, base, r, fb, ob, 2, q) {
      assert PixelAt(after, base, r, fb, ob, 1, q);
      if q < i {
        assert PixelAt(before, base, r, fb, ob, 2, q);
        OffsetRises(ob, q, i);
      }
    }
  }

  /** A row that gets an alpha channel, in place. */
  method UnfilterAlpha(out: array<byte>, base: nat, stride: nat, raw: Row, f: nat, first: bool, fb: nat, ob: nat,
      x: nat, ghost s: Source, ghost r: Row)
    requires Follows(s, r) && s == Source(raw, f, first, fb, s.prior) && fb < ob <= fb + 2 && x > 0
    requires |raw| == Offset(fb, x) && stride == Offset(ob, x) && base + stride <= out.Length
    requires PriorPixels(out[..], base, stride, first, s.prior, fb, ob, x)
    modifies out
    ensures PixelsHold(out[..], base, r, fb, ob, ob - fb, x) && OnlyChanged(old(out[..]), out[..], base, stride)
  {
    AlphaPixels(out, base, stride, raw, f, first, fb, ob, x, s, r);
    if ob == fb + 2 {
      LowAlpha(out, base, fb, ob, x, r);
    }
  }
}
