/**
 From inflated data to pixels (3rd_party/imageHelper/stb_image.h:4395-4650): one image, or the
 seven passes of an interlaced one scattered over the final image.
 */
module PngCreate {
  import opened BitStream
  import opened PngFilter
  import opened PngRows
  import opened PngImage
  import opened PngUnpack

  /** What the header says about samples: channels in the file and wanted, bits per sample, colour type 0 for grey. */
  datatype Format = Format(img_n: nat, out_n: nat, depth: nat, color: nat)

  predicate FormatOk(f: Format) {
    && f.img_n >= 1 && (f.out_n == f.img_n || f.out_n == f.img_n + 1)
    && (SmallDepth(f.depth) || f.depth == 8 || f.depth == 16)
    && (f.depth < 8 && f.out_n > f.img_n ==> TakesAlpha(f.img_n))
  }

  function ThePacking(f: Format): (k: Packing)
    requires FormatOk(f) && f.depth < 8
    ensures PackingOk(k)
  {
    Packing(f.depth, f.color, f.img_n, f.out_n)
  }

  function SampleBytes(f: Format): nat {
    if f.depth == 16 then 2 else 1
  }

  /** img_width_bytes. */
  function WidthBytes(f: Format, x: nat): nat {
    (f.img_n * x * f.depth + 7) / 8
  }

  function TheLayout(f: Format, x: nat): Layout
    requires FormatOk(f) && x > 0
  {
    var stride := x * f.out_n * SampleBytes(f);
    if f.depth < 8 then
      var width := WidthBytes(f, x);
      Layout(1, 1, width, stride, if stride >= width then stride - width else 0)
    else Layout(f.img_n * SampleBytes(f), f.out_n * SampleBytes(f), x, stride, 0)
  }

  /** The filtered bytes of a row. */
  function RowBytes(f: Format, x: nat): nat
    requires FormatOk(f) && x > 0
  {
    Offset(TheLayout(f, x).fb, TheLayout(f, x).x)
  }

  /** The pixels that the data stands for are all in place. */
  ghost predicate ImageDone(out: seq<byte>, f: Format, x: nat, y: nat, raw: seq<byte>)
    requires FormatOk(f) && x > 0
  {
    var l := TheLayout(f, x);
    |raw| >= Start(RowBytes(f, x), y) && l.fb > 0 &&
    var rows := ReconRows(l.fb, RowBytes(f, x), raw, y);
    if f.depth < 8 then ExpandedTo(out, l, rows, ThePacking(f), x, y) else RowsDone(out, l, rows)
  }

  lemma {:induction false} OffsetIsProduct(size: nat, count: nat)
    ensures Offset(size, count) == size * count
  {
    if count > 0 {
      OffsetIsProduct(size, count - 1);
    }
  }

  lemma PackedWidth(depth: nat, x: nat, w: nat)
    requires SmallDepth(depth) && x > 0 && w == (x * depth + 7) / 8
    ensures 0 < w <= x && PerByte(depth) * (w - 1) < x <= PerByte(depth) * w
  {
  }

  lemma PackedLayoutFits(f: Format, x: nat)
    requires FormatOk(f) && x > 0 && f.depth < 8
    ensures LayoutOk(TheLayout(f, x)) && WidthBytes(f, x) == RowBytes(f, x)
    ensures var l := TheLayout(f, x);
      && 0 < l.x <= f.img_n * x && l.stride == f.out_n * x && Offset(1, l.x) + l.lead == l.stride
      && Offset(PerByte(f.depth), l.x - 1) < f.img_n * x <= Offset(PerByte(f.depth), l.x)
  {
    var w := WidthBytes(f, x);
    Dense(ThePacking(f), x);
    PackedWidth(f.depth, f.img_n * x, w);
    OnePerByte(w);
    OffsetIsProduct(PerByte(f.depth), w - 1);
    OffsetIsProduct(PerByte(f.depth), w);
    Stride(x, f.out_n);
  }

  lemma Stride(x: nat, n: nat)
    requires n >= 1
    ensures x * n * 1 == n * x >= x
  {
    assert n * x == x + (n - 1) * x;
    assert (n - 1) * x >= 0;
  }

  /** The width formula is the row's size in bytes; packed rows fit in and are shorter than their pixels. */
  lemma LayoutFits(f: Format, x: nat)
    requires FormatOk(f) && x > 0
    ensures LayoutOk(TheLayout(f, x)) && WidthBytes(f, x) == RowBytes(f, x)
  {
    if f.depth < 8 {
      PackedLayoutFits(f, x);
    } else {
      var l := TheLayout(f, x);
      OffsetIsProduct(l.fb, x);
      OffsetIsProduct(l.ob, x);
      WideWidth(f.img_n, x);
      WideWidth(f.out_n, x);
    }
  }

  lemma WideWidth(n: nat, x: nat)
    ensures (n * x * 8 + 7) / 8 == n * x && (n * x * 16 + 7) / 8 == n * x * 2
    ensures n * 2 * x == n * x * 2
  {
  }

  lemma {:induction false} StartIsProduct(width: nat, n: nat)
    ensures Start(width, n) == (width + 1) * n
  {
    if n > 0 {
      StartIsProduct(width, n - 1);
    }
  }

  /** One image: fails exactly if data is missing or a row has an unknown filter type. */
  method CreatePngImageRaw(raw: seq<byte>, f: Format, x: nat, y: nat) returns (ok: bool, out: array<byte>)
    requires FormatOk(f) && x > 0
    ensures fresh(out) && out.Length == Offset(TheLayout(f, x).stride, y)
    ensures ok <==> FiltersOk(raw, RowBytes(f, x), y)
    ensures ok ==> ImageDone(out[..], f, x, y, raw)
  {
    var l := TheLayout(f, x);
    LayoutFits(f, x);
    StartIsProduct(RowBytes(f, x), y);
    out := new byte[Offset(l.stride, y)];
    var img_len := (WidthBytes(f, x) + 1) * y;
    if |raw| < img_len {
      return false, out;
    }
    ok := UnfilterRows(out, raw, y, l);
    if ok && f.depth < 8 {
      PackedLayoutFits(f, x);
      ghost var rows := ReconRows(l.fb, RowBytes(f, x), raw, y);
      ExpandRows(out, l, y, x, ThePacking(f), rows);
    }
  }

  /** A filtered image decodes, whatever filters its rows use, and to its own rows. */
  lemma FilteredImageDecodes(f: Format, x: nat, rows: seq<Row>, filters: seq<byte>)
    requires FormatOk(f) && x > 0 && |filters| == |rows| && AllWide(rows, RowBytes(f, x))
    requires forall j :: 0 <= j < |filters| ==> filters[j] <= 4
    ensures TheLayout(f, x).fb > 0
    ensures var raw := FilteredImage(TheLayout(f, x).fb, RowBytes(f, x), rows, filters);
      FiltersOk(raw, RowBytes(f, x), |rows|) && ReconRows(TheLayout(f, x).fb, RowBytes(f, x), raw, |rows|) == rows
  {
    LayoutFits(f, x);
    var bpp, width := TheLayout(f, x).fb, RowBytes(f, x);
    ImageRoundTrip(bpp, width, rows, filters);
    forall j: nat | j < |rows| ensures FilterAt(FilteredImage(bpp, width, rows, filters), width, j) <= 4 {
      FilterStored(bpp, width, rows, filters, j);
    }
  }

  lemma {:induction false} FilterStored(bpp: nat, width: nat, rows: seq<Row>, filters: seq<byte>, j: nat)
    requires bpp > 0 && |filters| == |rows| && AllWide(rows, width) && j < |rows|
    ensures FilterAt(FilteredImage(bpp, width, rows, filters), width, j) == filters[j]
    decreases |rows|
  {
    var n := |rows| - 1;
    FilteredImageLength(bpp, width, rows[..n], filters[..n]);
    if j < n {
      StartRises(width, j, n);
      FilterStored(bpp, width, rows[..n], filters[..n], j);
    }
  }
}
