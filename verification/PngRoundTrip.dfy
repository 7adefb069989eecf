/**
 Encoding and decoding whole pictures: rows packed as in section 7.2 of the PNG Specification (Second Edition), any
 filter for each row, plain or as the seven reduced images of Adam7. What stbi__create_png_image makes of the data
 (3rd_party/imageHelper/stb_image.h:4396-4647) is the picture.
 */
module PngRoundTrip {
  import opened BitStream
  import opened PngFilter
  import opened PngRows
  import opened PngImage
  import opened PngUnpack
  import opened PngCreate
  import opened PngAdam7

  // ---------------------------------------------------------------- pictures

  /** A pixel as it is in the file: its samples, or their bytes from eight bits on. */
  type Pixel = seq<nat>

  type Picture = seq<seq<Pixel>>

  function Units(f: Format): nat {
    if f.depth < 8 then f.img_n else f.img_n * SampleBytes(f)
  }

  function Limit(f: Format): nat {
    if f.depth < 8 then Values(f.depth) else 256
  }

  predicate IsPixel(f: Format, px: Pixel) {
    |px| == Units(f) && forall c :: 0 <= c < |px| ==> px[c] < Limit(f)
  }

  predicate IsLine(f: Format, line: seq<Pixel>, x: nat) {
    |line| == x && forall i :: 0 <= i < x ==> IsPixel(f, line[i])
  }

  predicate IsPicture(f: Format, pic: Picture, x: nat, y: nat) {
    |pic| == y && forall j :: 0 <= j < y ==> IsLine(f, pic[j], x)
  }

  function PixelBytes(f: Format): nat {
    f.out_n * SampleBytes(f)
  }

  /** What is wanted of it: grey samples of less than eight bits are scaled, and alpha is opaque if it was not there. */
  function Shown(f: Format, v: nat): byte
    requires FormatOk(f) && v < Limit(f)
  {
    if f.depth < 8 then Scaled(v, f.depth, f.color) else v
  }

  function ShownAt(f: Format, px: Pixel, c: nat): byte
    requires FormatOk(f) && IsPixel(f, px)
  {
    if c < |px| then Shown(f, px[c]) else 255
  }

  /** Pixel number `slot` of the output is px. */
  ghost predicate PixelShown(out: seq<byte>, f: Format, slot: nat, px: Pixel)
    requires FormatOk(f) && IsPixel(f, px)
  {
    ShownFrom(out, f, Offset(PixelBytes(f), slot), px)
  }

  ghost predicate Shows(out: seq<byte>, f: Format, pic: Picture, w: nat, h: nat)
    requires FormatOk(f) && IsPicture(f, pic, w, h)
  {
    forall x: nat, y: nat :: x < w && y < h ==> PixelShown(out, f, Slot(w, x, y), pic[y][x])
  }

  // ---------------------------------------------------------------- encoding a row

  function Flat(line: seq<Pixel>): seq<nat> {
    if line == [] then [] else Flat(line[..|line| - 1]) + line[|line| - 1]
  }

  predicate AllLong(line: seq<Pixel>, n: nat) {
    forall i :: 0 <= i < |line| ==> |line[i]| == n
  }

  lemma {:induction false} FlatLength(line: seq<Pixel>, n: nat)
    requires AllLong(line, n)
    ensures |Flat(line)| == Offset(n, |line|)
  {
    if line != [] {
      FlatLength(line[..|line| - 1], n);
    }
  }

  lemma {:induction false} FlatAt(line: seq<Pixel>, n: nat, i: nat, c: nat)
    requires AllLong(line, n) && i < |line| && c < n
    ensures Offset(n, i) + c < |Flat(line)| && Flat(line)[Offset(n, i) + c] == line[i][c]
  {
    var last := |line| - 1;
    FlatLength(line[..last], n);
    if i < last {
      OffsetRises(n, i, last);
      FlatAt(line[..last], n, i, c);
    }
  }

  lemma {:induction false} FlatBelow(line: seq<Pixel>, limit: nat)
    requires forall i, c :: 0 <= i < |line| && 0 <= c < |line[i]| ==> line[i][c] < limit
    ensures forall k :: 0 <= k < |Flat(line)| ==> Flat(line)[k] < limit
  {
    if line != [] {
      FlatBelow(line[..|line| - 1], limit);
    }
  }

  /** The samples of byte b, with zeros for those that fill it up. */
  function ByteSamples(units: seq<nat>, depth: nat, b: nat): (ds: seq<nat>)
    requires SmallDepth(depth)
    ensures |ds| == PerByte(depth)
    ensures forall i :: 0 <= i < |ds| ==>
      var t := Offset(PerByte(depth), b) + i; ds[i] == if t < |units| then units[t] else 0
  {
    seq<nat>(PerByte(depth), i requires 0 <= i =>
      var t := Offset(PerByte(depth), b) + i; if t < |units| then units[t] else 0)
  }

  function Power(base: nat, n: nat): nat {
    if n == 0 then 1 else Power(base, n - 1) * base
  }

  lemma {:induction false} PackBelow(ds: seq<nat>, base: nat)
    requires forall k :: 0 <= k < |ds| ==> ds[k] < base
    ensures Pack(ds, base) < Power(base, |ds|)
  {
    if ds != [] {
      var last := |ds| - 1;
      PackBelow(ds[..last], base);
      AtLeast(Pack(ds[..last], base), Power(base, last), base);
    }
  }

  lemma ByteBelow(ds: seq<nat>, depth: nat)
    requires SmallDepth(depth) && |ds| == PerByte(depth) && forall k :: 0 <= k < |ds| ==> ds[k] < Values(depth)
    ensures Pack(ds, Values(depth)) < 256
  {
    PackBelow(ds, Values(depth));
    FullByte(depth);
  }

  lemma FullByte(depth: nat)
    requires SmallDepth(depth)
    ensures Power(Values(depth), PerByte(depth)) == 256
  {
    if depth == 1 {
      assert Power(2, 2) == 4;
      assert Power(2, 4) == 16;
      assert Power(2, 6) == 64;
    } else if depth == 2 {
      assert Power(4, 2) == 16;
      assert Power(4, 4) == 256;
    } else {
      assert Power(16, 2) == 256;
    }
  }

  predicate AllBelow(units: seq<nat>, limit: nat) {
    forall k :: 0 <= k < |units| ==> units[k] < limit
  }

  lemma SamplesBelow(units: seq<nat>, depth: nat, b: nat)
    requires SmallDepth(depth) && AllBelow(units, Values(depth))
    ensures AllBelow(ByteSamples(units, depth, b), Values(depth))
    ensures Pack(ByteSamples(units, depth, b), Values(depth)) < 256
  {
    ByteBelow(ByteSamples(units, depth, b), depth);
  }

  function PackedByte(units: seq<nat>, depth: nat, b: nat): byte
    requires SmallDepth(depth) && AllBelow(units, Values(depth))
  {
    SamplesBelow(units, depth, b);
    Pack(ByteSamples(units, depth, b), Values(depth))
  }

  /** Samples packed into bytes, the leftmost in the high-order bits. */
  function PackRow(units: seq<nat>, depth: nat): (r: Row)
    requires SmallDepth(depth) && AllBelow(units, Values(depth))
    ensures |r| == (|units| * depth + 7) / 8
  {
    seq<byte>((|units| * depth + 7) / 8, b requires 0 <= b => PackedByte(units, depth, b))
  }

  /** Sample t is the i-th of byte b. */
  lemma WhichByte(units: nat, depth: nat, t: nat) returns (b: nat, i: nat)
    requires SmallDepth(depth) && t < units
    ensures i < PerByte(depth) && t == Offset(PerByte(depth), b) + i && b < (units * depth + 7) / 8
  {
    b, i := t / PerByte(depth), t % PerByte(depth);
    OffsetIsProduct(PerByte(depth), b);
  }

  lemma PackedByteSample(units: seq<nat>, depth: nat, b: nat, i: nat)
    requires SmallDepth(depth) && AllBelow(units, Values(depth)) && i < PerByte(depth)
    ensures Sample(PackedByte(units, depth, b), depth, i) == ByteSamples(units, depth, b)[i]
  {
    SamplesBelow(units, depth, b);
    UnpackInvertsPack(ByteSamples(units, depth, b), Values(depth), i);
  }

  /** They are found again. */
  lemma PackedRowSamples(units: seq<nat>, depth: nat, t: nat)
    requires SmallDepth(depth) && AllBelow(units, Values(depth)) && t < |units|
    ensures t < |Samples(PackRow(units, depth), depth)| && Samples(PackRow(units, depth), depth)[t] == units[t]
  {
    var b, i := WhichByte(|units|, depth, t);
    SampleAt(PackRow(units, depth), depth, b, i);
    PackedByteSample(units, depth, b, i);
  }

  function ByteRow(units: seq<nat>): (r: Row)
    requires AllBelow(units, 256)
  {
    seq<byte>(|units|, k requires 0 <= k < |units| => units[k])
  }

  function EncodedRow(f: Format, line: seq<Pixel>): Row
    requires FormatOk(f) && IsLine(f, line, |line|)
  {
    FlatBelow(line, Limit(f));
    if f.depth < 8 then PackRow(Flat(line), f.depth) else ByteRow(Flat(line))
  }

  lemma EncodedWidth(f: Format, line: seq<Pixel>)
    requires FormatOk(f) && IsLine(f, line, |line|) && |line| > 0
    ensures |EncodedRow(f, line)| == RowBytes(f, |line|)
  {
    FlatLength(line, Units(f));
    OffsetIsProduct(Units(f), |line|);
    if f.depth < 8 {
      PackedLayoutFits(f, |line|);
    }
  }

  function EncodedRows(f: Format, pic: Picture, x: nat): (rows: seq<Row>)
    requires FormatOk(f) && IsPicture(f, pic, x, |pic|) && x > 0
    ensures |rows| == |pic| && AllWide(rows, RowBytes(f, x))
    ensures forall j :: 0 <= j < |pic| ==> rows[j] == EncodedRow(f, pic[j])
  {
    if pic == [] then []
    else
      var last := |pic| - 1;
      EncodedWidth(f, pic[last]);
      EncodedRows(f, pic[..last], x) + [EncodedRow(f, pic[last])]
  }

  // ---------------------------------------------------------------- decoding one image

  lemma {:induction false} OffsetAdds(n: nat, a: nat, b: nat)
    ensures Offset(n, a + b) == Offset(n, a) + Offset(n, b)
  {
    if b > 0 {
      OffsetAdds(n, a, b - 1);
    }
  }

  /** Where pixel (i, j) starts. */
  lemma SlotOffset(f: Format, x: nat, i: nat, j: nat)
    requires FormatOk(f) && i < x
    ensures Offset(PixelBytes(f), Slot(x, i, j)) == Offset(TheLayout(f, x).stride, j) + Offset(PixelBytes(f), i)
  {
    PixelSize(f, x, j);
    OffsetAdds(PixelBytes(f), Offset(x, j), i);
  }

  /** Pixel px starts at q. */
  ghost predicate ShownFrom(out: seq<byte>, f: Format, q: nat, px: Pixel)
    requires FormatOk(f) && IsPixel(f, px)
  {
    q + PixelBytes(f) <= |out| && forall c :: q <= c < q + PixelBytes(f) ==> out[c] == ShownAt(f, px, c - q)
  }

  lemma WideRowAt(f: Format, line: seq<Pixel>, i: nat, c: nat)
    requires FormatOk(f) && f.depth >= 8 && IsLine(f, line, |line|) && i < |line| && c < Units(f)
    ensures var k := Offset(Units(f), i) + c; k < |EncodedRow(f, line)| && EncodedRow(f, line)[k] == line[i][c]
  {
    FlatAt(line, Units(f), i, c);
  }

  /** A pixel of eight bits and more. */
  lemma WidePixelShown(out: seq<byte>, f: Format, x: nat, line: seq<Pixel>, p: nat, i: nat)
    requires FormatOk(f) && f.depth >= 8 && IsLine(f, line, x) && i < x
    requires var l := TheLayout(f, x); RowDone(out, p, EncodedRow(f, line), l.fb, l.ob, x)
    ensures ShownFrom(out, f, p + Offset(PixelBytes(f), i), line[i])
  {
    var row, fb, ob := EncodedRow(f, line), Units(f), PixelBytes(f);
    OffsetRises(fb, i, x);
    OffsetRises(ob, i, x);
    var q := p + Offset(ob, i);
    assert PixelHolds(out, q, row, Offset(fb, i), fb, ob - fb) by {
      if ob > fb {
        assert PixelAt(out, p, row, fb, ob, ob - fb, i);
      }
    }
    HeldIsShown(out, f, line, q, i);
  }

  lemma HeldIsShown(out: seq<byte>, f: Format, line: seq<Pixel>, q: nat, i: nat)
    requires FormatOk(f) && f.depth >= 8 && IsLine(f, line, |line|) && i < |line| && Units(f) <= PixelBytes(f)
    requires PixelHolds(out, q, EncodedRow(f, line), Offset(Units(f), i), Units(f), PixelBytes(f) - Units(f))
    ensures ShownFrom(out, f, q, line[i])
  {
    forall c | q <= c < q + PixelBytes(f) ensures out[c] == ShownAt(f, line[i], c - q) {
      if c < q + Units(f) {
        WideRowAt(f, line, i, c - q);
      }
    }
  }

  /** A pixel of less than eight bits, which starts at q. */
  lemma PackedPixelShown(out: seq<byte>, f: Format, line: seq<Pixel>, p: nat, i: nat, q: nat)
    requires FormatOk(f) && f.depth < 8 && IsLine(f, line, |line|) && i < |line| && q == p + f.out_n * i
    requires PackedPixel(out, p, EncodedRow(f, line), ThePacking(f), i)
    ensures ShownFrom(out, f, q, line[i])
  {
    assert q + f.out_n <= |out|;
    assert f.out_n > f.img_n ==> out[q + f.img_n] == 255;
    forall c: nat | c < f.img_n ensures out[q + c] == ShownAt(f, line[i], c) {
      PackedSampleShown(out, f, line, p, i, q, c);
    }
    AllShown(out, f, line[i], q);
  }

  lemma AllShown(out: seq<byte>, f: Format, px: Pixel, q: nat)
    requires FormatOk(f) && f.depth < 8 && IsPixel(f, px) && q + f.out_n <= |out|
    requires forall c: nat :: c < f.img_n ==> out[q + c] == ShownAt(f, px, c)
    requires f.out_n > f.img_n ==> out[q + f.img_n] == 255
    ensures ShownFrom(out, f, q, px)
  {
    forall c | q <= c < q + f.out_n ensures out[c] == ShownAt(f, px, c - q) {
      assert out[c] == out[q + (c - q)];
    }
  }

  lemma PackedSampleShown(out: seq<byte>, f: Format, line: seq<Pixel>, p: nat, i: nat, q: nat, c: nat)
    requires FormatOk(f) && f.depth < 8 && IsLine(f, line, |line|) && i < |line| && c < f.img_n && q == p + f.out_n * i
    requires PackedPixel(out, p, EncodedRow(f, line), ThePacking(f), i)
    ensures q + c < |out| && out[q + c] == ShownAt(f, line[i], c)
  {
    assert SampleOut(out, p, EncodedRow(f, line), ThePacking(f), i, c);
    FlatAt(line, f.img_n, i, c);
    FlatBelow(line, Values(f.depth));
    OffsetIsProduct(f.img_n, i);
    PackedRowSamples(Flat(line), f.depth, f.img_n * i + c);
  }

  /** Row j is in place. */
  ghost predicate LineDone(out: seq<byte>, f: Format, x: nat, row: Row, j: nat)
    requires FormatOk(f) && x > 0
  {
    var l := TheLayout(f, x);
    var p := Offset(l.stride, j);
    if f.depth < 8 then PackedRowDone(out, p, row, ThePacking(f), x) else RowDone(out, p, row, l.fb, l.ob, x)
  }

  lemma PackedLineShown(out: seq<byte>, f: Format, x: nat, line: seq<Pixel>, i: nat, p: nat)
    requires FormatOk(f) && f.depth < 8 && IsLine(f, line, x) && i < x
    requires PackedRowDone(out, p, EncodedRow(f, line), ThePacking(f), x)
    ensures ShownFrom(out, f, p + Offset(PixelBytes(f), i), line[i])
  {
    OffsetIsProduct(f.out_n, i);
    assert PackedPixel(out, p, EncodedRow(f, line), ThePacking(f), i);
    PackedPixelShown(out, f, line, p, i, p + f.out_n * i);
  }

  /** Every pixel of a row in place is shown. */
  lemma LinePixelShown(out: seq<byte>, f: Format, x: nat, line: seq<Pixel>, i: nat, j: nat)
    requires FormatOk(f) && IsLine(f, line, x) && i < x && LineDone(out, f, x, EncodedRow(f, line), j)
    ensures PixelShown(out, f, Slot(x, i, j), line[i])
  {
    var p := Offset(TheLayout(f, x).stride, j);
    if f.depth < 8 {
      PackedLineShown(out, f, x, line, i, p);
    } else {
      WidePixelShown(out, f, x, line, p, i);
    }
    SlotOffset(f, x, i, j);
  }

  lemma DoneLine(out: seq<byte>, f: Format, x: nat, y: nat, raw: seq<byte>, j: nat)
    requires FormatOk(f) && x > 0 && ImageDone(out, f, x, y, raw) && j < y
    ensures LineDone(out, f, x, ReconRows(TheLayout(f, x).fb, RowBytes(f, x), raw, y)[j], j)
  {
    var l := TheLayout(f, x);
    var rows := ReconRows(l.fb, RowBytes(f, x), raw, y);
    if f.depth < 8 {
      assert PackedAt(out, l, rows, ThePacking(f), x, j);
    } else {
      assert RowDoneAt(out, l, rows, j);
    }
  }

  /** A decoded image whose rows are those of a picture shows it. */
  lemma ImageShows(out: seq<byte>, f: Format, pic: Picture, x: nat, y: nat, raw: seq<byte>)
    requires FormatOk(f) && x > 0 && IsPicture(f, pic, x, y) && ImageDone(out, f, x, y, raw)
    requires ReconRows(TheLayout(f, x).fb, RowBytes(f, x), raw, y) == EncodedRows(f, pic, x)
    ensures Shows(out, f, pic, x, y)
  {
    forall i: nat, j: nat | i < x && j < y ensures PixelShown(out, f, Slot(x, i, j), pic[j][i]) {
      DoneLine(out, f, x, y, raw, j);
      LinePixelShown(out, f, x, pic[j], i, j);
    }
  }

  // ---------------------------------------------------------------- plain images

  predicate FiltersFor(filters: seq<byte>, y: nat) {
    |filters| == y && forall j :: 0 <= j < y ==> filters[j] <= 4
  }

  /** A picture as an encoder writes it, with any filters. */
  function Encoded(f: Format, pic: Picture, x: nat, filters: seq<byte>): (data: seq<byte>)
    requires FormatOk(f) && x > 0 && IsPicture(f, pic, x, |pic|) && FiltersFor(filters, |pic|)
  {
    LayoutFits(f, x);
    FilteredImage(TheLayout(f, x).fb, RowBytes(f, x), EncodedRows(f, pic, x), filters)
  }

  /** It is accepted, with anything behind it, and its rows come back. */
  lemma EncodedDecodes(f: Format, pic: Picture, x: nat, filters: seq<byte>, more: seq<byte>)
    requires FormatOk(f) && x > 0 && IsPicture(f, pic, x, |pic|) && FiltersFor(filters, |pic|)
    ensures |Encoded(f, pic, x, filters)| == Start(RowBytes(f, x), |pic|) && TheLayout(f, x).fb > 0
    ensures var data := Encoded(f, pic, x, filters) + more;
      FiltersOk(data, RowBytes(f, x), |pic|) &&
      ReconRows(TheLayout(f, x).fb, RowBytes(f, x), data, |pic|) == EncodedRows(f, pic, x)
  {
    LayoutFits(f, x);
    var bpp, width, rows, data := TheLayout(f, x).fb, RowBytes(f, x), EncodedRows(f, pic, x),
      Encoded(f, pic, x, filters);
    FilteredImageLength(bpp, width, rows, filters);
    FilteredImageDecodes(f, x, rows, filters);
    ReconRowsPrefix(bpp, width, data, more, |pic|);
    FiltersOkPrefix(data, more, width, |pic|);
  }

  lemma FiltersOkPrefix(data: seq<byte>, more: seq<byte>, width: nat, y: nat)
    requires FiltersOk(data, width, y)
    ensures FiltersOk(data + more, width, y)
  {
    forall j: nat | j < y ensures FilterAt(data + more, width, j) <= 4 {
      StartRises(width, j, y);
      assert FilterAt(data, width, j) <= 4;
    }
  }

  /** Any picture, with any filters, is decoded to itself. */
  lemma PlainRoundTrip(f: Format, pic: Picture, x: nat, filters: seq<byte>, more: seq<byte>, out: seq<byte>)
    requires FormatOk(f) && x > 0 && IsPicture(f, pic, x, |pic|) && FiltersFor(filters, |pic|)
    ensures FiltersOk(Encoded(f, pic, x, filters) + more, RowBytes(f, x), |pic|)
    ensures ImageDone(out, f, x, |pic|, Encoded(f, pic, x, filters) + more) ==> Shows(out, f, pic, x, |pic|)
  {
    EncodedDecodes(f, pic, x, filters, more);
    if ImageDone(out, f, x, |pic|, Encoded(f, pic, x, filters) + more) {
      ImageShows(out, f, pic, x, |pic|, Encoded(f, pic, x, filters) + more);
    }
  }

  // ---------------------------------------------------------------- interlaced images

  /** The pixels of pass p. */
  function Reduced(f: Format, pic: Picture, w: nat, h: nat, p: nat): (r: Picture)
    requires IsPicture(f, pic, w, h) && p < 7
    ensures IsPicture(f, r, PassWidth(p, w), PassHeight(p, h))
    ensures forall j: nat :: j < |r| ==> r[j] == ReducedLine(f, pic, w, h, p, j)
  {
    seq(PassHeight(p, h), j requires 0 <= j < PassHeight(p, h) => ReducedLine(f, pic, w, h, p, j))
  }

  function ReducedLine(f: Format, pic: Picture, w: nat, h: nat, p: nat, j: nat): (line: seq<Pixel>)
    requires IsPicture(f, pic, w, h) && p < 7 && j < PassHeight(p, h)
    ensures IsLine(f, line, PassWidth(p, w)) && PlaceY(p, j) < h
    ensures forall i: nat :: i < PassWidth(p, w) ==> PlaceX(p, i) < w && line[i] == pic[PlaceY(p, j)][PlaceX(p, i)]
  {
    PassFits(p, w, h, 0, j);
    seq(PassWidth(p, w),
      i requires 0 <= i < PassWidth(p, w) => PassFits(p, w, h, i, j); pic[PlaceY(p, j)][PlaceX(p, i)])
  }

  predicate FiltersForPasses(filters: seq<seq<byte>>, h: nat) {
    |filters| == 7 && forall p: nat :: p < 7 ==> FiltersFor(filters[p], PassHeight(p, h))
  }

  function PassData(f: Format, pic: Picture, w: nat, h: nat, filters: seq<seq<byte>>, p: nat): seq<byte>
    requires FormatOk(f) && IsPicture(f, pic, w, h) && FiltersForPasses(filters, h) && p < 7
  {
    if Empty(p, w, h) then [] else Encoded(f, Reduced(f, pic, w, h, p), PassWidth(p, w), filters[p])
  }

  /** The first n parts one after the other. */
  function Joined(parts: seq<seq<byte>>, n: nat): seq<byte>
    requires n <= |parts|
  {
    if n == 0 then [] else Joined(parts, n - 1) + parts[n - 1]
  }

  /** What lies behind part p. */
  lemma {:induction false} JoinedFrom(parts: seq<seq<byte>>, p: nat, n: nat) returns (more: seq<byte>)
    requires p < n <= |parts|
    ensures |Joined(parts, p)| <= |Joined(parts, n)|
    ensures Joined(parts, n)[|Joined(parts, p)|..] == parts[p] + more
    decreases n
  {
    if p == n - 1 {
      more := [];
    } else {
      var rest := JoinedFrom(parts, p, n - 1);
      more := rest + parts[n - 1];
      assert (Joined(parts, n - 1) + parts[n - 1])[|Joined(parts, p)|..] == parts[p] + rest + parts[n - 1];
    }
  }

  function Passes(f: Format, pic: Picture, w: nat, h: nat, filters: seq<seq<byte>>): (parts: seq<seq<byte>>)
    requires FormatOk(f) && IsPicture(f, pic, w, h) && FiltersForPasses(filters, h)
    ensures |parts| == 7 && forall p: nat :: p < 7 ==> parts[p] == PassData(f, pic, w, h, filters, p)
  {
    seq(7, p requires 0 <= p < 7 => PassData(f, pic, w, h, filters, p))
  }

  /** The seven reduced images one after the other. */
  function Interlaced(f: Format, pic: Picture, w: nat, h: nat, filters: seq<seq<byte>>): seq<byte>
    requires FormatOk(f) && IsPicture(f, pic, w, h) && FiltersForPasses(filters, h)
  {
    Joined(Passes(f, pic, w, h, filters), 7)
  }

  lemma {:induction false} JoinedLength(f: Format, pic: Picture, w: nat, h: nat, filters: seq<seq<byte>>, p: nat)
    requires FormatOk(f) && IsPicture(f, pic, w, h) && FiltersForPasses(filters, h) && p <= 7
    ensures |Joined(Passes(f, pic, w, h, filters), p)| == PassStart(f, w, h, p)
  {
    if p > 0 {
      JoinedLength(f, pic, w, h, filters, p - 1);
      if !Empty(p - 1, w, h) {
        EncodedDecodes(f, Reduced(f, pic, w, h, p - 1), PassWidth(p - 1, w), filters[p - 1], []);
      }
    }
  }

  /** Pass p is accepted, and gives its reduced image. */
  lemma PassRoundTrip(f: Format, pic: Picture, w: nat, h: nat, filters: seq<seq<byte>>, p: nat, image: seq<byte>)
    requires FormatOk(f) && IsPicture(f, pic, w, h) && FiltersForPasses(filters, h) && p < 7
    ensures PassOk(Interlaced(f, pic, w, h, filters), f, w, h, p)
    ensures PassDone(image, Interlaced(f, pic, w, h, filters), f, w, h, p) ==>
      Shows(image, f, Reduced(f, pic, w, h, p), PassWidth(p, w), PassHeight(p, h))
  {
    if !Empty(p, w, h) {
      JoinedLength(f, pic, w, h, filters, p);
      var more := JoinedFrom(Passes(f, pic, w, h, filters), p, 7);
      PlainRoundTrip(f, Reduced(f, pic, w, h, p), PassWidth(p, w), filters[p], more, image);
    }
  }

  /** A pixel of the final image is that of the picture. */
  lemma ScatteredShows(final: seq<byte>, f: Format, pic: Picture, w: nat, h: nat, images: seq<seq<byte>>, x: nat,
      y: nat)
    requires FormatOk(f) && IsPicture(f, pic, w, h) && x < w && y < h
    requires Scattered(final, PixelBytes(f), w, images, x, y)
    requires var p := PassOf(x, y); Shows(images[p], f, Reduced(f, pic, w, h, p), PassWidth(p, w), PassHeight(p, h))
    ensures PixelShown(final, f, Slot(w, x, y), pic[y][x])
  {
    var p := PassOf(x, y);
    var i, j := Column(p, x), Line(p, y);
    EachPixelOnce(w, h, x, y, p, i, j);
    var image, n := images[p], PixelBytes(f);
    assert PixelShown(image, f, Slot(PassWidth(p, w), i, j), pic[y][x]);
    CopiedShows(final, image, f, Offset(n, Slot(w, x, y)), Offset(n, Slot(PassWidth(p, w), i, j)), pic[y][x]);
  }

  lemma CopiedShows(final: seq<byte>, image: seq<byte>, f: Format, to: nat, from: nat, px: Pixel)
    requires FormatOk(f) && IsPixel(f, px) && ShownFrom(image, f, from, px)
    requires to + PixelBytes(f) <= |final|
    requires final[to..to + PixelBytes(f)] == image[from..from + PixelBytes(f)]
    ensures ShownFrom(final, f, to, px)
  {
    var n := PixelBytes(f);
    forall c | to <= c < to + n ensures final[c] == ShownAt(f, px, c - to) {
      assert final[to..to + n][c - to] == image[from..from + n][c - to];
    }
  }

  /** The seven filtered reduced images of any picture, one after the other, are accepted and give its pixels back. */
  lemma InterlacedRoundTrip(f: Format, pic: Picture, w: nat, h: nat, filters: seq<seq<byte>>, final: seq<byte>,
      images: seq<seq<byte>>)
    requires FormatOk(f) && IsPicture(f, pic, w, h) && FiltersForPasses(filters, h)
    ensures forall p: nat :: p < 7 ==> PassOk(Interlaced(f, pic, w, h, filters), f, w, h, p)
    ensures PassesDone(images, Interlaced(f, pic, w, h, filters), f, w, h, 7) && AllScattered(final, f, w, h, images)
      ==> Shows(final, f, pic, w, h)
  {
    var data := Interlaced(f, pic, w, h, filters);
    forall p: nat | p < 7 ensures PassOk(data, f, w, h, p) {
      PassRoundTrip(f, pic, w, h, filters, p, []);
    }
    if PassesDone(images, data, f, w, h, 7) && AllScattered(final, f, w, h, images) {
      forall x: nat, y: nat | x < w && y < h ensures PixelShown(final, f, Slot(w, x, y), pic[y][x]) {
        var p := PassOf(x, y);
        PassRoundTrip(f, pic, w, h, filters, p, images[p]);
        assert Scattered(final, PixelBytes(f), w, images, x, y);
        assert !Empty(p, w, h) || PassWidth(p, w) == 0 || PassHeight(p, h) == 0;
        ScatteredShows(final, f, pic, w, h, images, x, y);
      }
    }
  }
}
