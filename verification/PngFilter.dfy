/**
 PNG filtering, section 9 of the PNG Specification (Second Edition): rows of bytes, each predicted
 from the byte of the pixel to the left, the one above and the one above left.
 */
module PngFilter {
  import opened BitStream

  type Row = seq<byte>

  function Abs(n: int): nat {
    if n < 0 then -n else n
  }

  /** The neighbour nearest to left + up - corner; ties go to left, then up (section 9.4). */
  function Paeth(a: byte, b: byte, c: byte): (r: byte)
    ensures r == a || r == b || r == c
    ensures var p := a + b - c; Abs(p - r) <= Abs(p - a) && Abs(p - r) <= Abs(p - b) && Abs(p - r) <= Abs(p - c)
  {
    var p: int := a + b - c;
    var pa, pb, pc := Abs(p - a), Abs(p - b), Abs(p - c);
    if pa <= pb && pa <= pc then a else if pb <= pc then b else c
  }

  /** The prediction of filter types 0 to 4. */
  function Predict(filter: nat, a: byte, b: byte, c: byte): byte {
    if filter == 1 then a
    else if filter == 2 then b
    else if filter == 3 then (a + b) / 2
    else if filter == 4 then Paeth(a, b, c)
    else 0
  }

  function Sum(a: nat, b: nat): byte {
    (a + b) % 256
  }

  function Difference(a: byte, b: byte): byte {
    (a + 256 - b) % 256
  }

  /** The byte of the pixel to the left, or zero. */
  function Left(row: Row, n: nat, bpp: nat): byte
    requires n <= |row| && bpp > 0
  {
    if n < bpp then 0 else row[n - bpp]
  }

  /** A reconstructed row. */
  function Recon(filter: nat, bpp: nat, raw: Row, prior: Row): (r: Row)
    requires bpp > 0 && |raw| <= |prior|
    ensures |r| == |raw|
  {
    if raw == [] then []
    else
      var n := |raw| - 1;
      var r := Recon(filter, bpp, raw[..n], prior);
      r + [Sum(raw[n], Predict(filter, Left(r, n, bpp), prior[n], Left(prior, n, bpp)))]
  }

  /** A filtered row. */
  function Filtered(filter: nat, bpp: nat, row: Row, prior: Row): (r: Row)
    requires bpp > 0 && |row| <= |prior|
    ensures |r| == |row|
  {
    if row == [] then []
    else
      var n := |row| - 1;
      Filtered(filter, bpp, row[..n], prior) +
        [Difference(row[n], Predict(filter, Left(row, n, bpp), prior[n], Left(prior, n, bpp)))]
  }

  lemma SumDifference(x: byte, p: byte)
    ensures Sum(Difference(x, p), p) == x && Difference(Sum(x, p), p) == x
  {
  }

  lemma ReconStep(filter: nat, bpp: nat, raw: Row, prior: Row, v: byte, r: Row)
    requires bpp > 0 && |raw| < |prior| && r == Recon(filter, bpp, raw, prior)
    ensures Recon(filter, bpp, raw + [v], prior) ==
      r + [Sum(v, Predict(filter, Left(r, |raw|, bpp), prior[|raw|], Left(prior, |raw|, bpp)))]
  {
    assert (raw + [v])[..|raw|] == raw;
  }

  lemma FilteredStep(filter: nat, bpp: nat, row: Row, prior: Row, v: byte)
    requires bpp > 0 && |row| < |prior|
    ensures Filtered(filter, bpp, row + [v], prior) ==
      Filtered(filter, bpp, row, prior) +
        [Difference(v, Predict(filter, Left(row, |row|, bpp), prior[|row|], Left(prior, |row|, bpp)))]
  {
    assert (row + [v])[..|row|] == row;
    assert Left(row + [v], |row|, bpp) == Left(row, |row|, bpp);
  }

  /** Reconstruction undoes filtering. */
  lemma {:induction false} ReconInverts(filter: nat, bpp: nat, row: Row, prior: Row)
    requires bpp > 0 && |row| <= |prior|
    ensures Recon(filter, bpp, Filtered(filter, bpp, row, prior), prior) == row
  {
    if row != [] {
      var n := |row| - 1;
      ReconInverts(filter, bpp, row[..n], prior);
      assert row == row[..n] + [row[n]];
      ReconInvertsNext(filter, bpp, row[..n], row[n], prior);
    }
  }

  lemma ReconInvertsNext(filter: nat, bpp: nat, start: Row, v: byte, prior: Row)
    requires bpp > 0 && |start| < |prior| && Recon(filter, bpp, Filtered(filter, bpp, start, prior), prior) == start
    ensures Recon(filter, bpp, Filtered(filter, bpp, start + [v], prior), prior) == start + [v]
  {
    var n := |start|;
    var p := Predict(filter, Left(start, n, bpp), prior[n], Left(prior, n, bpp));
    FilteredStep(filter, bpp, start, prior, v);
    ReconStep(filter, bpp, Filtered(filter, bpp, start, prior), prior, Difference(v, p), start);
    SumDifference(v, p);
  }

  /** And filtering undoes reconstruction, so that no two filtered rows look alike. */
  lemma {:induction false} FilteredInverts(filter: nat, bpp: nat, raw: Row, prior: Row)
    requires bpp > 0 && |raw| <= |prior|
    ensures Filtered(filter, bpp, Recon(filter, bpp, raw, prior), prior) == raw
  {
    if raw != [] {
      var n := |raw| - 1;
      var start, row := raw[..n], Recon(filter, bpp, raw[..n], prior);
      var p := Predict(filter, Left(row, n, bpp), prior[n], Left(prior, n, bpp));
      FilteredInverts(filter, bpp, start, prior);
      assert raw == start + [raw[n]];
      ReconStep(filter, bpp, start, prior, raw[n], row);
      FilteredStep(filter, bpp, row, prior, Sum(raw[n], p));
      SumDifference(raw[n], p);
    }
  }

  function Zeros(n: nat): (r: Row)
    ensures |r| == n && forall i :: 0 <= i < n ==> r[i] == 0
  {
    seq<byte>(n, _ => 0)
  }

  // ---------------------------------------------------------------- images

  predicate AllWide(rows: seq<Row>, width: nat) {
    forall j :: 0 <= j < |rows| ==> |rows[j]| == width
  }

  /** Rows of a filtered image: each starts with its filter type; the row before the first is all zero. */
  function FilteredImage(bpp: nat, width: nat, rows: seq<Row>, filters: seq<byte>): (data: seq<byte>)
    requires bpp > 0 && |filters| == |rows| && AllWide(rows, width)
  {
    if rows == [] then []
    else
      var n := |rows| - 1;
      FilteredImage(bpp, width, rows[..n], filters[..n]) + [filters[n]] +
        Filtered(filters[n], bpp, rows[n], Prior(rows[..n], width))
  }

  function Prior(rows: seq<Row>, width: nat): Row {
    if rows == [] then Zeros(width) else rows[|rows| - 1]
  }

  /** Where row n of the data starts. */
  function Start(width: nat, n: nat): nat {
    if n == 0 then 0 else Start(width, n - 1) + width + 1
  }

  /** The filtered bytes of row n, after its filter type. */
  function RawRow(width: nat, data: seq<byte>, n: nat): (r: Row)
    requires |data| >= Start(width, n + 1)
    ensures |r| == width
  {
    data[Start(width, n) + 1..Start(width, n) + 1 + width]
  }

  /** The first n rows of the image that data filters, if their filter types exist. */
  function ReconRows(bpp: nat, width: nat, data: seq<byte>, n: nat): (rows: seq<Row>)
    requires bpp > 0 && |data| >= Start(width, n)
    ensures |rows| == n && AllWide(rows, width)
    decreases n
  {
    if n == 0 then []
    else
      var rows := ReconRows(bpp, width, data, n - 1);
      rows + [Recon(data[Start(width, n - 1)], bpp, RawRow(width, data, n - 1), Prior(rows, width))]
  }

  lemma {:induction false} FilteredImageLength(bpp: nat, width: nat, rows: seq<Row>, filters: seq<byte>)
    requires bpp > 0 && |filters| == |rows| && AllWide(rows, width)
    ensures |FilteredImage(bpp, width, rows, filters)| == Start(width, |rows|)
  {
    if rows != [] {
      FilteredImageLength(bpp, width, rows[..|rows| - 1], filters[..|rows| - 1]);
    }
  }

  lemma RawRowPrefix(width: nat, data: seq<byte>, more: seq<byte>, n: nat)
    requires |data| >= Start(width, n + 1)
    ensures RawRow(width, data + more, n) == RawRow(width, data, n)
    ensures (data + more)[Start(width, n)] == data[Start(width, n)]
  {
  }

  lemma NextReconRow(bpp: nat, width: nat, data: seq<byte>, n: nat)
    requires bpp > 0 && n > 0 && |data| >= Start(width, n)
    ensures var rows := ReconRows(bpp, width, data, n - 1);
      ReconRows(bpp, width, data, n) ==
        rows + [Recon(data[Start(width, n - 1)], bpp, RawRow(width, data, n - 1), Prior(rows, width))]
  {
  }

  lemma {:induction false} ReconRowsPrefix(bpp: nat, width: nat, data: seq<byte>, more: seq<byte>, n: nat)
    requires bpp > 0 && |data| >= Start(width, n)
    ensures ReconRows(bpp, width, data + more, n) == ReconRows(bpp, width, data, n)
    decreases n
  {
    if n > 0 {
      ReconRowsPrefix(bpp, width, data, more, n - 1);
      RawRowPrefix(width, data, more, n - 1);
      NextReconRow(bpp, width, data, n);
      NextReconRow(bpp, width, data + more, n);
    }
  }

  /** Whatever filter each row chose, the rows come back. */
  lemma {:induction false} ImageRoundTrip(bpp: nat, width: nat, rows: seq<Row>, filters: seq<byte>)
    requires bpp > 0 && |filters| == |rows| && AllWide(rows, width)
    ensures |FilteredImage(bpp, width, rows, filters)| == Start(width, |rows|)
    ensures ReconRows(bpp, width, FilteredImage(bpp, width, rows, filters), |rows|) == rows
  {
    FilteredImageLength(bpp, width, rows, filters);
    if rows != [] {
      var n := |rows| - 1;
      assert rows == rows[..n] + [rows[n]] && filters == filters[..n] + [filters[n]];
      ImageRoundTrip(bpp, width, rows[..n], filters[..n]);
      AddRow(bpp, width, rows[..n], rows[n], filters[..n], filters[n]);
    }
  }

  lemma FilteredImageStep(bpp: nat, width: nat, rows: seq<Row>, row: Row, filters: seq<byte>, filter: byte)
    requires bpp > 0 && |filters| == |rows| && AllWide(rows, width) && |row| == width && AllWide(rows + [row], width)
    ensures FilteredImage(bpp, width, rows + [row], filters + [filter]) ==
      FilteredImage(bpp, width, rows, filters) + ([filter] + Filtered(filter, bpp, row, Prior(rows, width)))
  {
    assert (rows + [row])[..|rows|] == rows && (filters + [filter])[..|rows|] == filters;
  }

  lemma AddRow(bpp: nat, width: nat, rows: seq<Row>, row: Row, filters: seq<byte>, filter: byte)
    requires bpp > 0 && |filters| == |rows| && AllWide(rows, width) && |row| == width && AllWide(rows + [row], width)
    requires |FilteredImage(bpp, width, rows, filters)| == Start(width, |rows|)
    requires |FilteredImage(bpp, width, rows + [row], filters + [filter])| == Start(width, |rows| + 1)
    requires ReconRows(bpp, width, FilteredImage(bpp, width, rows, filters), |rows|) == rows
    ensures ReconRows(bpp, width, FilteredImage(bpp, width, rows + [row], filters + [filter]), |rows| + 1) ==
      rows + [row]
  {
    var prior := Prior(rows, width);
    FilteredImageStep(bpp, width, rows, row, filters, filter);
    LastRow(bpp, width, FilteredImage(bpp, width, rows, filters), filter, Filtered(filter, bpp, row, prior), |rows|);
    ReconInverts(filter, bpp, row, prior);
  }

  lemma LastRow(bpp: nat, width: nat, before: seq<byte>, filter: byte, raw: Row, n: nat)
    requires bpp > 0 && |before| == Start(width, n) && |raw| == width
    ensures var rows := ReconRows(bpp, width, before, n);
      ReconRows(bpp, width, before + ([filter] + raw), n + 1) == rows + [Recon(filter, bpp, raw, Prior(rows, width))]
  {
    var data := before + ([filter] + raw);
    ReconRowsPrefix(bpp, width, before, [filter] + raw, n);
    assert data[Start(width, n)] == filter && RawRow(width, data, n) == raw;
  }
}
