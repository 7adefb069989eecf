/**
 Whole images from filtered rows (3rd_party/imageHelper/stb_image.h:4396-4518): for 8 and 16 bits
 per sample rows fill the buffer; rows of packed samples are put at the right end of theirs.
 */
module PngImage {
  import opened BitStream
  import opened PngFilter
  import opened PngRows

  /** A finished row at p: its bytes, or its pixels with alpha between them. */
  ghost predicate RowDone(out: seq<byte>, p: nat, row: Row, fb: nat, ob: nat, x: nat) {
    fb <= ob && |row| == Offset(fb, x) && p + Offset(ob, x) <= |out| &&
    if ob == fb then Holds(out, p, row, 0, |row|) else PixelsHold(out, p, row, fb, ob, ob - fb, x)
  }

  /**
   How rows lie in the buffer: pixel sizes without and with alpha, pixels, stride, and the unused bytes before each
   row's data.
   */
  datatype Layout = Layout(fb: nat, ob: nat, x: nat, stride: nat, lead: nat)

  ghost predicate LayoutOk(l: Layout) {
    0 < l.fb <= l.ob <= l.fb + 2 && l.x > 0 && l.lead + Offset(l.ob, l.x) == l.stride && (l.lead > 0 ==> l.ob == l.fb)
  }

  function RowStart(l: Layout, j: nat): nat {
    Offset(l.stride, j) + l.lead
  }

  ghost predicate RowsDone(out: seq<byte>, l: Layout, rows: seq<Row>) {
    forall j: nat :: j < |rows| ==> RowDoneAt(out, l, rows, j)
  }

  ghost predicate RowDoneAt(out: seq<byte>, l: Layout, rows: seq<Row>, j: nat)
    requires j < |rows|
  {
    RowDone(out, RowStart(l, j), rows[j], l.fb, l.ob, l.x)
  }

  lemma RowDoneKept(before: seq<byte>, after: seq<byte>, p: nat, row: Row, fb: nat, ob: nat, x: nat, from: nat)
    requires RowDone(before, p, row, fb, ob, x) && p + Offset(ob, x) <= from && SameBelow(before, after, from)
    ensures RowDone(after, p, row, fb, ob, x)
  {
    if ob == fb {
    } else {
      PixelsKept(before, after, p, row, fb, ob, ob - fb, x, from);
    }
  }

  /** A new row after the others, which stay. */
  lemma AddRowDone(before: seq<byte>, after: seq<byte>, l: Layout, rows: seq<Row>, row: Row)
    requires LayoutOk(l) && RowsDone(before, l, rows) && SameBelow(before, after, RowStart(l, |rows|))
    requires RowDone(after, RowStart(l, |rows|), row, l.fb, l.ob, l.x)
    ensures RowsDone(after, l, rows + [row])
  {
    var rows' := rows + [row];
    forall j: nat | j < |rows'| ensures RowDoneAt(after, l, rows', j) {
      if j < |rows| {
        assert RowDoneAt(before, l, rows, j);
        OffsetRises(l.stride, j, |rows|);
        RowDoneKept(before, after, RowStart(l, j), rows[j], l.fb, l.ob, l.x, RowStart(l, |rows|));
      }
    }
  }

  /** One row, flat or with alpha. */
  method UnfilterRow(out: array<byte>, base: nat, stride: nat, raw: Row, f: nat, first: bool, fb: nat, ob: nat, x: nat,
      ghost prior: Row)
    requires 0 < fb <= ob <= fb + 2 && x > 0 && f <= 4 && |raw| == Offset(fb, x) == |prior| && Offset(ob, x) <= stride
    requires base + Offset(ob, x) <= out.Length && (ob != fb ==> stride == Offset(ob, x))
    requires if first then forall k :: 0 <= k < |prior| ==>
      prior[k] == 0 else stride <= base && RowDone(out[..], base - stride, prior, fb, ob, x)
    modifies out
    ensures RowDone(out[..], base, Recon(f, fb, raw, prior), fb, ob, x)
    ensures OnlyChanged(old(out[..]), out[..], base, Offset(ob, x))
  {
    ghost var s, r := Source(raw, f, first, fb, prior), Recon(f, fb, raw, prior);
    ReconFollows(s);
    if fb == ob {
      OffsetRises(fb, 0, x);
      UnfilterFlat(out, base, stride, raw, f, first, fb, s, r);
    } else {
      UnfilterAlpha(out, base, stride, raw, f, first, fb, ob, x, s, r);
    }
  }

  ghost predicate FiltersOk(raw: seq<byte>, width: nat, y: nat) {
    |raw| >= Start(width, y) && forall j: nat :: j < y ==> FilterAt(raw, width, j) <= 4
  }

  function FilterAt(raw: seq<byte>, width: nat, j: nat): byte {
    if Start(width, j) < |raw| then raw[Start(width, j)] else 0
  }

  lemma {:induction false} StartRises(width: nat, i: nat, j: nat)
    requires i < j
    ensures Start(width, i) + width + 1 <= Start(width, j)
    decreases j
  {
    if i < j - 1 {
      StartRises(width, i, j - 1);
    }
  }

  /** The row before row j, as UnfilterRow wants it. */
  lemma PriorReady(out: seq<byte>, l: Layout, rows: seq<Row>, j: nat)
    requires LayoutOk(l) && RowsDone(out, l, rows) && |rows| == j && AllWide(rows, Offset(l.fb, l.x))
    ensures var prior := Prior(rows, Offset(l.fb, l.x));
      |prior| == Offset(l.fb, l.x) &&
      if j == 0 then forall k :: 0 <= k < |prior| ==> prior[k] == 0
      else l.stride <= RowStart(l, j) && RowDone(out, RowStart(l, j) - l.stride, prior, l.fb, l.ob, l.x)
  {
    if j > 0 {
      assert RowDoneAt(out, l, rows, j - 1);
    }
  }

  /** Row j, whose filter type exists. */
  method UnfilterNext(out: array<byte>, raw: seq<byte>, j: nat, l: Layout, rp: nat, base: nat, ghost width: nat)
    requires LayoutOk(l) && width == Offset(l.fb, l.x) && rp == Start(width, j) && base == RowStart(l, j)
    requires Start(width, j + 1) <= |raw| && Offset(l.stride, j) + l.stride <= out.Length && raw[rp] <= 4
    requires RowsDone(out[..], l, ReconRows(l.fb, width, raw, j))
    modifies out
    ensures RowsDone(out[..], l, ReconRows(l.fb, width, raw, j + 1))
  {
    ghost var rows, before := ReconRows(l.fb, width, raw, j), out[..];
    var row, f := raw[rp + 1..rp + 1 + Offset(l.fb, l.x)], raw[rp];
    PriorReady(before, l, rows, j);
    UnfilterRow(out, base, l.stride, row, f, j == 0, l.fb, l.ob, l.x, Prior(rows, width));
    assert row == RawRow(width, raw, j);
    AddRowDone(before, out[..], l, rows, Recon(f, l.fb, row, Prior(rows, width)));
  }

  /** Undoes the filters of all rows, or fails at the first unknown filter type. */
  method UnfilterRows(out: array<byte>, raw: seq<byte>, y: nat, l: Layout)
    returns (ok: bool)
    requires LayoutOk(l) && |raw| >= Start(Offset(l.fb, l.x), y) && Offset(l.stride, y) <= out.Length
    modifies out
    ensures ok <==> FiltersOk(raw, Offset(l.fb, l.x), y)
    ensures ok ==> RowsDone(out[..], l, ReconRows(l.fb, Offset(l.fb, l.x), raw, y))
  {
    var width := Offset(l.fb, l.x);
    var rp, base := 0, l.lead;
    for j := 0 to y
      invariant rp == Start(width, j) && base == RowStart(l, j) && FiltersOk(raw, width, j)
      invariant RowsDone(out[..], l, ReconRows(l.fb, width, raw, j))
    {
      FilterOkStep(raw, width, j, y);
      OffsetRises(l.stride, j, y);
      if raw[rp] > 4 {
        return false;
      }
      UnfilterNext(out, raw, j, l, rp, base, width);
      rp, base := rp + 1 + width, base + l.stride;
    }
    ok := true;
  }

  /** One filter type more. */
  lemma FilterOkStep(raw: seq<byte>, width: nat, j: nat, y: nat)
    requires j < y && |raw| >= Start(width, y) && FiltersOk(raw, width, j)
    ensures Start(width, j) < Start(width, j + 1) == Start(width, j) + 1 + width <= |raw|
    ensures if raw[Start(width, j)] > 4 then !FiltersOk(raw, width, y) else FiltersOk(raw, width, j + 1)
  {
    StartNotBelow(width, j + 1, y);
    assert FilterAt(raw, width, j) == raw[Start(width, j)];
  }

  lemma StartNotBelow(width: nat, i: nat, j: nat)
    requires i <= j
    ensures Start(width, i) <= Start(width, j)
  {
    if i < j {
      StartRises(width, i, j);
    }
  }
}
