/**
 Adam7 interlacing (3rd_party/imageHelper/stb_image.h:4617-4647), section 8.2 of the PNG Specification
 (Second Edition): seven reduced images whose pixels are scattered over the final one.
 */
module PngAdam7 {
  import opened BitStream
  import opened PngFilter
  import opened PngRows
  import opened PngImage
  import opened PngCreate

  const xorig: seq<nat> := [0, 4, 0, 2, 0, 1, 0]
  const yorig: seq<nat> := [0, 0, 4, 0, 2, 0, 1]
  const xspc: seq<nat> := [8, 8, 4, 4, 2, 2, 1]
  const yspc: seq<nat> := [8, 8, 8, 4, 4, 2, 2]

  /** The specification's 8 by 8 pattern: the pass of each pixel, counted from 0. */
  const Pattern: seq<seq<nat>> := [
    [0, 5, 3, 5, 1, 5, 3, 5],
    [6, 6, 6, 6, 6, 6, 6, 6],
    [4, 5, 4, 5, 4, 5, 4, 5],
    [6, 6, 6, 6, 6, 6, 6, 6],
    [2, 5, 3, 5, 2, 5, 3, 5],
    [6, 6, 6, 6, 6, 6, 6, 6],
    [4, 5, 4, 5, 4, 5, 4, 5],
    [6, 6, 6, 6, 6, 6, 6, 6]]

  /** The pass of a pixel: each pass halves the grid that is left, by rows and by columns in turn. */
  function PassOf(x: nat, y: nat): (p: nat)
    ensures p < 7
  {
    if y % 2 == 1 then 6
    else if x % 2 == 1 then 5
    else if y % 4 == 2 then 4
    else if x % 4 == 2 then 3
    else if y % 8 == 4 then 2
    else if x % 8 == 4 then 1
    else 0
  }

  lemma PatternAt(a: nat, b: nat)
    requires a < 8 && b < 8
    ensures Pattern[b][a] == PassOf(a, b)
  {
    if b == 0 {
    } else if b == 1 {
    } else if b == 2 {
    } else if b == 3 {
    } else if b == 4 {
    } else if b == 5 {
    } else if b == 6 {
    } else {
    }
  }

  /** That is the pattern of the specification. */
  lemma PassOfIsPattern(x: nat, y: nat)
    ensures PassOf(x, y) == Pattern[y % 8][x % 8]
  {
    Residues(x);
    Residues(y);
    PatternAt(x % 8, y % 8);
  }

  lemma Residues(x: nat)
    ensures x % 8 % 2 == x % 2 && x % 8 % 4 == x % 4
    ensures x % 4 == 2 || x % 4 == 0 <==> x % 2 == 0
    ensures x % 8 == 4 || x % 8 == 0 <==> x % 4 == 0
  {
  }

  /** Columns and rows of pass p in an image of the given size. */
  function PassWidth(p: nat, w: nat): nat
    requires p < 7
  {
    (w + xspc[p] - 1 - xorig[p]) / xspc[p]
  }

  function PassHeight(p: nat, h: nat): nat
    requires p < 7
  {
    (h + yspc[p] - 1 - yorig[p]) / yspc[p]
  }

  /** Where pixel (i, j) of pass p goes. */
  function PlaceX(p: nat, i: nat): nat
    requires p < 7
  {
    i * xspc[p] + xorig[p]
  }

  function PlaceY(p: nat, j: nat): nat
    requires p < 7
  {
    j * yspc[p] + yorig[p]
  }

  /** Where pixel (x, y) comes from in its pass. */
  function Column(p: nat, x: nat): nat
    requires p < 7
  {
    x / xspc[p]
  }

  function Line(p: nat, y: nat): nat
    requires p < 7
  {
    y / yspc[p]
  }

  lemma PlaceInverts(p: nat, i: nat, j: nat)
    requires p < 7
    ensures Column(p, PlaceX(p, i)) == i && Line(p, PlaceY(p, j)) == j
    ensures PassOf(PlaceX(p, i), PlaceY(p, j)) == p
  {
  }

  /** The pixels of a pass lie on its grid. */
  lemma OnGrid(p: nat, x: nat, y: nat)
    requires p < 7 && p == PassOf(x, y)
    ensures x % xspc[p] == xorig[p] && y % yspc[p] == yorig[p]
  {
    Residues(x);
    Residues(y);
  }

  lemma GridColumn(x: nat, origin: nat, space: nat)
    requires space == 8 || space == 4 || space == 2 || space == 1
    requires x % space == origin
    ensures x / space * space + origin == x
  {
    if space == 8 {
    } else if space == 4 {
    } else if space == 2 {
    } else {
    }
  }

  lemma ColumnInverts(p: nat, x: nat, y: nat)
    requires p < 7 && p == PassOf(x, y)
    ensures PlaceX(p, Column(p, x)) == x && PlaceY(p, Line(p, y)) == y
  {
    OnGrid(p, x, y);
    GridColumn(x, xorig[p], xspc[p]);
    GridColumn(y, yorig[p], yspc[p]);
  }

  lemma InsideImage(p: nat, w: nat, i: nat, space: nat, origin: nat)
    requires space == 8 || space == 4 || space == 2 || space == 1
    requires origin < space || origin == 0
    ensures i < (w + space - 1 - origin) / space <==> i * space + origin < w
  {
    if space == 8 {
    } else if space == 4 {
    } else if space == 2 {
    } else {
    }
  }

  /** A pass has exactly the pixels of its grid that lie in the image. */
  lemma PassFits(p: nat, w: nat, h: nat, i: nat, j: nat)
    requires p < 7
    ensures i < PassWidth(p, w) <==> PlaceX(p, i) < w
    ensures j < PassHeight(p, h) <==> PlaceY(p, j) < h
  {
    InsideImage(p, w, i, xspc[p], xorig[p]);
    InsideImage(p, h, j, yspc[p], yorig[p]);
  }

  /**
   Adam7 is a bijection: every pixel of the image is one pixel of one pass, and every pixel of every
   pass is a pixel of the image.
   */
  lemma EachPixelOnce(w: nat, h: nat, x: nat, y: nat, p: nat, i: nat, j: nat)
    requires p < 7
    ensures (x < w && y < h && p == PassOf(x, y) && i == Column(p, x) && j == Line(p, y)) <==>
      (i < PassWidth(p, w) && j < PassHeight(p, h) && x == PlaceX(p, i) && y == PlaceY(p, j))
  {
    PassFits(p, w, h, i, j);
    PlaceInverts(p, i, j);
    if p == PassOf(x, y) {
      ColumnInverts(p, x, y);
    }
  }

  // ---------------------------------------------------------------- scattering

  /** The number of pixel (x, y) in a buffer w pixels wide. */
  function Slot(w: nat, x: nat, y: nat): nat {
    Offset(w, y) + x
  }

  lemma SlotBound(w: nat, h: nat, x: nat, y: nat)
    requires x < w && y < h
    ensures Slot(w, x, y) < Offset(w, h)
  {
    OffsetRises(w, y, h);
  }

  lemma SlotUnique(w: nat, x: nat, y: nat, x': nat, y': nat)
    requires x < w && x' < w && Slot(w, x, y) == Slot(w, x', y')
    ensures x == x' && y == y'
  {
    if y < y' {
      OffsetRises(w, y, y');
    }
    if y' < y {
      OffsetRises(w, y', y);
    }
  }

  /** Pixel `slot` of the final image is pixel `from` of a reduced one; pixels have n bytes. */
  ghost predicate PixelIs(final: seq<byte>, n: nat, slot: nat, image: seq<byte>, from: nat) {
    Offset(n, slot) + n <= |final| && Offset(n, from) + n <= |image| &&
    final[Offset(n, slot)..Offset(n, slot) + n] == image[Offset(n, from)..Offset(n, from) + n]
  }

  /** One memcpy. */
  method CopyPixel(final: array<byte>, n: nat, slot: nat, image: array<byte>, from: nat)
    requires final != image && Offset(n, slot) + n <= final.Length && Offset(n, from) + n <= image.Length
    modifies final
    ensures PixelIs(final[..], n, slot, image[..], from)
    ensures OnlyChanged(old(final[..]), final[..], Offset(n, slot), n)
  {
    var p, q := Offset(n, slot), Offset(n, from);
    for k := 0 to n
      invariant final[p..p + k] == image[q..q + k] && OnlyChanged(old(final[..]), final[..], p, k)
    {
      final[p + k] := image[q + k];
      assert final[p..p + k + 1] == final[p..p + k] + [image[q + k]];
      assert image[q..q + k + 1] == image[q..q + k] + [image[q + k]];
    }
    assert final[..][p..p + n] == final[p..p + n] && image[..][q..q + n] == image[q..q + n];
  }

  lemma PixelKept(before: seq<byte>, after: seq<byte>, n: nat, slot: nat, image: seq<byte>, from: nat, written: nat)
    requires PixelIs(before, n, slot, image, from) && slot != written
    requires OnlyChanged(before, after, Offset(n, written), n)
    ensures PixelIs(after, n, slot, image, from)
  {
    if slot < written {
      OffsetRises(n, slot, written);
    } else {
      OffsetRises(n, written, slot);
    }
  }

  /** Pixel (x, y) comes before pixel (i, j) of pass p in the order of the loops. */
  predicate Before(p: nat, j: nat, i: nat, x: nat, y: nat)
    requires p <= 7
  {
    PassOf(x, y) < p || (PassOf(x, y) == p && (Line(p, y) < j || (Line(p, y) == j && Column(p, x) < i)))
  }

  /** Pixel (x, y) of the final image is the pixel of its pass that belongs there. */
  ghost predicate Scattered(final: seq<byte>, n: nat, w: nat, images: seq<seq<byte>>, x: nat, y: nat) {
    var p := PassOf(x, y);
    p < |images| && PixelIs(final, n, Slot(w, x, y), images[p], Slot(PassWidth(p, w), Column(p, x), Line(p, y)))
  }

  ghost predicate ScatteredTo(final: seq<byte>, n: nat, w: nat, h: nat, images: seq<seq<byte>>, p: nat, j: nat, i: nat)
    requires p <= 7
  {
    forall x: nat, y: nat :: x < w && y < h && Before(p, j, i, x, y) ==> Scattered(final, n, w, images, x, y)
  }

  /** Copying pixel (i, j) of pass p. */
  lemma ScatterStep(before: seq<byte>, after: seq<byte>, n: nat, w: nat, h: nat, images: seq<seq<byte>>, p: nat, j: nat,
      i: nat)
    requires p < 7 && p < |images| && i < PassWidth(p, w) && j < PassHeight(p, h)
    requires ScatteredTo(before, n, w, h, images, p, j, i)
    requires OnlyChanged(before, after, Offset(n, Slot(w, PlaceX(p, i), PlaceY(p, j))), n)
    requires PixelIs(after, n, Slot(w, PlaceX(p, i), PlaceY(p, j)), images[p], Slot(PassWidth(p, w), i, j))
    ensures ScatteredTo(after, n, w, h, images, p, j, i + 1)
  {
    PassFits(p, w, h, i, j);
    PlaceInverts(p, i, j);
    forall x: nat, y: nat | x < w && y < h && Before(p, j, i + 1, x, y) ensures Scattered(after, n, w, images, x, y) {
      if Before(p, j, i, x, y) {
        assert Scattered(before, n, w, images, x, y);
        if Slot(w, x, y) == Slot(w, PlaceX(p, i), PlaceY(p, j)) {
          SlotUnique(w, x, y, PlaceX(p, i), PlaceY(p, j));
        }
        var q := PassOf(x, y);
        PixelKept(before, after, n, Slot(w, x, y), images[q], Slot(PassWidth(q, w), Column(q, x), Line(q, y)),
          Slot(w, PlaceX(p, i), PlaceY(p, j)));
      } else {
        ColumnInverts(p, x, y);
      }
    }
  }

  /** At the end of a row the next one begins. */
  lemma RowEnd(final: seq<byte>, n: nat, w: nat, h: nat, images: seq<seq<byte>>, p: nat, j: nat)
    requires p < 7 && ScatteredTo(final, n, w, h, images, p, j, PassWidth(p, w))
    ensures ScatteredTo(final, n, w, h, images, p, j + 1, 0)
  {
    forall x: nat, y: nat | x < w && y < h && Before(p, j + 1, 0, x, y) ensures Scattered(final, n, w, images, x, y) {
      if PassOf(x, y) == p {
        EachPixelOnce(w, h, x, y, p, Column(p, x), Line(p, y));
      }
      assert Before(p, j, PassWidth(p, w), x, y);
    }
  }

  /** At the end of a pass the next one begins. */
  lemma PassEnd(final: seq<byte>, n: nat, w: nat, h: nat, images: seq<seq<byte>>, p: nat, j: nat)
    requires p < 7 && ScatteredTo(final, n, w, h, images, p, j, 0)
    requires PassWidth(p, w) == 0 || j == PassHeight(p, h)
    ensures ScatteredTo(final, n, w, h, images, p + 1, 0, 0)
  {
    forall x: nat, y: nat | x < w && y < h && Before(p + 1, 0, 0, x, y) ensures Scattered(final, n, w, images, x, y) {
      if PassOf(x, y) == p {
        EachPixelOnce(w, h, x, y, p, Column(p, x), Line(p, y));
      }
      assert Before(p, j, 0, x, y);
    }
  }

  lemma AddImage(final: seq<byte>, n: nat, w: nat, h: nat, images: seq<seq<byte>>, image: seq<byte>, p: nat)
    requires p < 7 && |images| == p && ScatteredTo(final, n, w, h, images, p, 0, 0)
    ensures ScatteredTo(final, n, w, h, images + [image], p, 0, 0)
  {
    forall x: nat, y: nat | x < w && y < h && Before(p, 0, 0, x, y)
      ensures Scattered(final, n, w, images + [image], x, y)
    {
      assert Scattered(final, n, w, images, x, y);
    }
  }

  /** One row of a pass. */
  method ScatterRow(final: array<byte>, image: array<byte>, n: nat, w: nat, h: nat, p: nat, j: nat,
      ghost images: seq<seq<byte>>)
    requires p < 7 && |images| == p + 1 && images[p] == image[..] && final != image && j < PassHeight(p, h)
    requires final.Length == Offset(n, Offset(w, h))
    requires image.Length == Offset(n, Offset(PassWidth(p, w), PassHeight(p, h)))
    requires ScatteredTo(final[..], n, w, h, images, p, j, 0)
    modifies final
    ensures ScatteredTo(final[..], n, w, h, images, p, j + 1, 0)
  {
    var columns := PassWidth(p, w);
    for i := 0 to columns
      invariant ScatteredTo(final[..], n, w, h, images, p, j, i) && image[..] == images[p]
    {
      PassFits(p, w, h, i, j);
      SlotBound(w, h, PlaceX(p, i), PlaceY(p, j));
      SlotBound(columns, PassHeight(p, h), i, j);
      OffsetRises(n, Slot(w, PlaceX(p, i), PlaceY(p, j)), Offset(w, h));
      OffsetRises(n, Slot(columns, i, j), Offset(columns, PassHeight(p, h)));
      ghost var before := final[..];
      CopyPixel(final, n, Slot(w, PlaceX(p, i), PlaceY(p, j)), image, Slot(columns, i, j));
      ScatterStep(before, final[..], n, w, h, images, p, j, i);
    }
    RowEnd(final[..], n, w, h, images, p, j);
  }

  /** One pass. */
  method ScatterPass(final: array<byte>, image: array<byte>, n: nat, w: nat, h: nat, p: nat,
      ghost images: seq<seq<byte>>)
    requires p < 7 && |images| == p + 1 && images[p] == image[..] && final != image
    requires final.Length == Offset(n, Offset(w, h))
    requires image.Length == Offset(n, Offset(PassWidth(p, w), PassHeight(p, h)))
    requires ScatteredTo(final[..], n, w, h, images, p, 0, 0)
    modifies final
    ensures ScatteredTo(final[..], n, w, h, images, p + 1, 0, 0)
  {
    var lines := PassHeight(p, h);
    for j := 0 to lines
      invariant ScatteredTo(final[..], n, w, h, images, p, j, 0) && image[..] == images[p]
    {
      ScatterRow(final, image, n, w, h, p, j, images);
    }
    PassEnd(final[..], n, w, h, images, p, lines);
  }

  // ---------------------------------------------------------------- the interlaced image

  predicate Empty(p: nat, w: nat, h: nat)
    requires p < 7
  {
    PassWidth(p, w) == 0 || PassHeight(p, h) == 0
  }

  function PassLength(f: Format, w: nat, h: nat, p: nat): nat
    requires FormatOk(f) && p < 7
  {
    if Empty(p, w, h) then 0 else Start(RowBytes(f, PassWidth(p, w)), PassHeight(p, h))
  }

  /** Where the data of pass p starts: after that of the passes before it that are not empty. */
  function PassStart(f: Format, w: nat, h: nat, p: nat): nat
    requires FormatOk(f) && p <= 7
  {
    if p == 0 then 0
    else PassStart(f, w, h, p - 1) + PassLength(f, w, h, p - 1)
  }

  ghost predicate PassOk(data: seq<byte>, f: Format, w: nat, h: nat, p: nat)
    requires FormatOk(f) && p < 7
  {
    !Empty(p, w, h) ==>
      PassStart(f, w, h, p) <= |data| &&
      FiltersOk(data[PassStart(f, w, h, p)..], RowBytes(f, PassWidth(p, w)), PassHeight(p, h))
  }

  ghost predicate PassDone(image: seq<byte>, data: seq<byte>, f: Format, w: nat, h: nat, p: nat)
    requires FormatOk(f) && p < 7
  {
    !Empty(p, w, h) ==>
      PassStart(f, w, h, p) <= |data| &&
      ImageDone(image, f, PassWidth(p, w), PassHeight(p, h), data[PassStart(f, w, h, p)..])
  }

  lemma PixelSize(f: Format, x: nat, y: nat)
    requires FormatOk(f) && x > 0
    ensures Offset(TheLayout(f, x).stride, y) == Offset(f.out_n * SampleBytes(f), Offset(x, y))
  {
    var n := f.out_n * SampleBytes(f);
    OffsetIsProduct(TheLayout(f, x).stride, y);
    OffsetIsProduct(n, Offset(x, y));
    OffsetIsProduct(x, y);
    Reassociate(x, f.out_n, SampleBytes(f), y);
  }

  lemma Reassociate(x: nat, n: nat, b: nat, y: nat)
    ensures x * n * b * y == n * b * (x * y)
  {
  }

  /** Decodes and scatters pass p, or skips it if it is empty. */
  method DecodePass(final: array<byte>, data: seq<byte>, start: nat, f: Format, n: nat, w: nat, h: nat, p: nat,
      ghost images: seq<seq<byte>>)
    returns (ok: bool, ghost image: seq<byte>)
    requires FormatOk(f) && p < 7 && n == f.out_n * SampleBytes(f) && final.Length == Offset(n, Offset(w, h))
    requires |images| == p
    requires start == PassStart(f, w, h, p) <= |data| && ScatteredTo(final[..], n, w, h, images, p, 0, 0)
    modifies final
    ensures ok <==> PassOk(data, f, w, h, p)
    ensures ok ==> PassDone(image, data, f, w, h, p) && start + PassLength(f, w, h, p) <= |data|
    ensures ok ==> ScatteredTo(final[..], n, w, h, images + [image], p + 1, 0, 0)
  {
    var x, y := PassWidth(p, w), PassHeight(p, h);
    image := [];
    if x == 0 || y == 0 {
      AddImage(final[..], n, w, h, images, image, p);
      PassEnd(final[..], n, w, h, images + [image], p, 0);
      return true, image;
    }
    var out;
    ok, out := CreatePngImageRaw(data[start..], f, x, y);
    if ok {
      image := out[..];
      PixelSize(f, x, y);
      AddImage(final[..], n, w, h, images, image, p);
      ScatterPass(final, out, n, w, h, p, images + [image]);
    }
  }

  /** The first p passes are decoded. */
  ghost predicate PassesDone(images: seq<seq<byte>>, data: seq<byte>, f: Format, w: nat, h: nat, p: nat)
    requires FormatOk(f) && p <= 7
  {
    |images| == p && forall q: nat :: q < p ==> PassOk(data, f, w, h, q) && PassDone(images[q], data, f, w, h, q)
  }

  lemma NextPassDone(images: seq<seq<byte>>, image: seq<byte>, data: seq<byte>, f: Format, w: nat, h: nat, p: nat)
    requires FormatOk(f) && p < 7 && PassesDone(images, data, f, w, h, p)
    requires PassOk(data, f, w, h, p) && PassDone(image, data, f, w, h, p)
    ensures PassesDone(images + [image], data, f, w, h, p + 1)
  {
  }

  /** Every pixel is in its place. */
  ghost predicate AllScattered(final: seq<byte>, f: Format, w: nat, h: nat, images: seq<seq<byte>>) {
    forall x: nat, y: nat :: x < w && y < h ==> Scattered(final, f.out_n * SampleBytes(f), w, images, x, y)
  }

  /** De-interlaces an image: decodes each pass from where the one before it ended and scatters its pixels. */
  method CreatePngImage(data: seq<byte>, f: Format, w: nat, h: nat)
    returns (ok: bool, final: array<byte>, ghost images: seq<seq<byte>>)
    requires FormatOk(f)
    ensures ok <==> forall p: nat :: p < 7 ==> PassOk(data, f, w, h, p)
    ensures ok ==> PassesDone(images, data, f, w, h, 7) && AllScattered(final[..], f, w, h, images)
  {
    var n := f.out_n * SampleBytes(f);
    final := new byte[Offset(n, Offset(w, h))];
    images := [];
    var start := 0;
    for p := 0 to 7
      invariant start == PassStart(f, w, h, p) <= |data| && PassesDone(images, data, f, w, h, p)
      invariant ScatteredTo(final[..], n, w, h, images, p, 0, 0)
    {
      ghost var image;
      ok, image := DecodePass(final, data, start, f, n, w, h, p, images);
      if !ok {
        return;
      }
      NextPassDone(images, image, data, f, w, h, p);
      images := images + [image];
      start := start + PassLength(f, w, h, p);
    }
    ok := true;
  }
}
