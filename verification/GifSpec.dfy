/**
 What the image data of a GIF frame means, Appendix F of the GIF89a specification: sub-blocks,
 variable-width codes and a dictionary of strings; then pixels in row order.
 */
module GifSpec {
  import opened Wrappers
  import opened BitStream

  // ---------------------------------------------------------------- sub-blocks

  /** n bytes from position k; past the end of the file they are zero. */
  function Slice(data: seq<byte>, k: nat, n: nat): (s: seq<byte>)
    ensures |s| == n && forall i :: 0 <= i < n ==> s[i] == ByteAt(data, k + i)
  {
    seq<byte>(n, i requires 0 <= i => ByteAt(data, k + i))
  }

  /** The bytes of a chain of sub-blocks, without their counts. */
  function Payload(data: seq<byte>, k: nat): seq<byte>
    decreases if k < |data| then |data| - k else 0
  {
    var n := ByteAt(data, k);
    if n == 0 then [] else Slice(data, k + 1, n) + Payload(data, k + 1 + n)
  }

  /** Where a chain of sub-blocks ends. */
  function ChainEnd(data: seq<byte>, k: nat): nat
    decreases if k < |data| then |data| - k else 0
  {
    var n := ByteAt(data, k);
    if n == 0 then k + 1 else ChainEnd(data, k + 1 + n)
  }

  // ---------------------------------------------------------------- the dictionary

  const MAX_CODES: nat := 8192

  /** The strings defined since the last clear code, and the string of the previous code. */
  datatype Table = Table(size: nat, width: nat, added: seq<seq<byte>>, last: Option<seq<byte>>, started: bool)

  /** The clear code; the one after it ends the stream. */
  function Clear(t: Table): nat {
    Pow2(t.size)
  }

  /** The next code to be defined. */
  function Avail(t: Table): nat {
    Clear(t) + 2 + |t.added|
  }

  function Lookup(t: Table, code: nat): Option<seq<byte>> {
    if code < Clear(t) then Some([code % 256])
    else if Clear(t) + 2 <= code < Avail(t) then Some(t.added[code - Clear(t) - 2])
    else None
  }

  function Initial(size: nat, started: bool): Table {
    Table(size, size + 1, [], None, started)
  }

  /** Codes get wider when the table has filled the current width, up to twelve bits. */
  function Wider(width: nat, avail: nat): nat {
    if avail % Pow2(width) == 0 && avail <= 4095 then width + 1 else width
  }

  datatype Turn = Emit(text: seq<byte>, table: Table) | Restart(table: Table) | EndOfStream | Corrupt

  function Emitting(t: Table, text: seq<byte>, added: seq<seq<byte>>): Turn {
    var t1 := t.(added := added, last := Some(text));
    Emit(text, t1.(width := Wider(t.width, Avail(t1))))
  }

  predicate TableOk(t: Table) {
    && (forall i :: 0 <= i < |t.added| ==> |t.added[i]| > 0)
    && (t.last.Some? ==> |t.last.value| > 0)
  }

  /** What a code stands for, and the dictionary after it. */
  function TakeCode(t: Table, code: nat): Turn
    requires TableOk(t)
  {
    if code == Clear(t) then Restart(Initial(t.size, true))
    else if code == Clear(t) + 1 then EndOfStream
    else if !t.started then Corrupt
    else match t.last
      case None =>
        (match Lookup(t, code)
         case None => Corrupt
         case Some(text) => Emitting(t, text, t.added))
      case Some(prev) =>
        if code > Avail(t) || Avail(t) >= MAX_CODES then Corrupt
        else
          var text := if code < Avail(t) then Lookup(t, code).value else prev + [prev[0]];
          Emitting(t, text, t.added + [prev + [text[0]]])
  }

  /** All colour indices that the codes from bit p on stand for. */
  ghost function Indices(data: seq<byte>, p: nat, t: Table): Option<seq<byte>>
    requires TableOk(t) && t.width > 0
    decreases 8 * |data| - p
  {
    if p + t.width > 8 * |data| then Some([])
    else match TakeCode(t, Low(data, p, t.width))
      case Corrupt => None
      case EndOfStream => Some([])
      case Restart(t1) => Indices(data, p + t.width, t1)
      case Emit(text, t1) =>
        match Indices(data, p + t.width, t1)
        case None => None
        case Some(rest) => Some(text + rest)
  }

  /** Codes are wide enough for every code defined so far, up to twelve bits. */
  predicate WideEnough(t: Table) {
    Avail(t) < Pow2(t.width) || t.width >= 12
  }

  lemma Multiples(a: nat, p: nat)
    requires 0 < a <= p
    ensures a % p == 0 <==> a == p
  {
  }

  lemma NotYetFull(avail: nat, width: nat)
    requires 0 < avail <= Pow2(width) && width < 12
    ensures avail < Pow2(Wider(width, avail)) || Wider(width, avail) >= 12
  {
    Multiples(avail, Pow2(width));
    if avail == Pow2(width) {
      Pow2Monotone(width, 11);
      assert Pow2(11) == 2048 && Pow2(width + 1) == 2 * Pow2(width);
    }
  }

  lemma StaysWide(t: Table, code: nat)
    requires TableOk(t) && 2 <= t.size && WideEnough(t)
    ensures TakeCode(t, code).Emit? ==> TakeCode(t, code).table.size == t.size && WideEnough(TakeCode(t, code).table)
    ensures TakeCode(t, code).Restart? ==> TakeCode(t, code).table == Initial(t.size, true)
  {
    var turn := TakeCode(t, code);
    if turn.Emit? && t.width < 12 {
      NotYetFull(Avail(turn.table), t.width);
    }
  }

  /** Decoding from bit p with table t comes to bit q with table u. */
  ghost predicate Reaches(data: seq<byte>, p: nat, t: Table, q: nat, u: Table)
    requires TableOk(t) && t.width > 0
    decreases 8 * |data| - p
  {
    (p == q && t == u) ||
    (p + t.width <= 8 * |data| &&
    match TakeCode(t, Low(data, p, t.width))
    case Restart(t1) => Reaches(data, p + t.width, t1, q, u)
    case Emit(_, t1) => Reaches(data, p + t.width, t1, q, u)
    case _ => false)
  }

  lemma InitialIsWide(size: nat, started: bool)
    ensures WideEnough(Initial(size, started)) <==> 2 <= size
  {
    assert Pow2(0) == 1 && Pow2(1) == 2 && Pow2(2) == 4 && Pow2(size + 1) == 2 * Pow2(size);
    if 2 <= size {
      Pow2Monotone(2, size);
    }
  }

  lemma {:induction false} ReachedIsWide(data: seq<byte>, p: nat, t: Table, q: nat, u: Table)
    requires TableOk(t) && t.width > 0 && 2 <= t.size && WideEnough(t) && Reaches(data, p, t, q, u)
    ensures WideEnough(u)
    decreases 8 * |data| - p
  {
    if !(p == q && t == u) {
      StaysWide(t, Low(data, p, t.width));
      InitialIsWide(t.size, true);
      match TakeCode(t, Low(data, p, t.width))
      case Restart(t1) => ReachedIsWide(data, p + t.width, t1, q, u);
      case Emit(_, t1) => ReachedIsWide(data, p + t.width, t1, q, u);
    }
  }

  /** Every table that decoding a stream comes to. */
  ghost predicate AlwaysWide(data: seq<byte>, size: nat) {
    forall q: nat, u: Table :: Reaches(data, 0, Initial(size, false), q, u) ==> WideEnough(u)
  }

  /**
   Widening always happens in time, so that no code that is defined is out of reach, exactly for sizes from two on.
   */
  lemma WidthSuffices(data: seq<byte>, size: nat)
    ensures AlwaysWide(data, size) <==> 2 <= size
  {
    InitialIsWide(size, false);
    if 2 <= size {
      forall q: nat, u: Table | Reaches(data, 0, Initial(size, false), q, u) ensures WideEnough(u) {
        ReachedIsWide(data, 0, Initial(size, false), q, u);
      }
    } else {
      assert Reaches(data, 0, Initial(size, false), 0, Initial(size, false));
    }
  }

  /** A whole raster: the code size, then the sub-blocks. */
  ghost function Raster(data: seq<byte>, k: nat): Option<seq<byte>> {
    if ByteAt(data, k) > 12 then None else Indices(Payload(data, k + 1), 0, Initial(ByteAt(data, k), false))
  }

  // ---------------------------------------------------------------- pixels

  /** A frame's rectangle in bytes of the canvas, four to a pixel, and the colours of its indices. */
  datatype Frame = Frame(start_x: nat, max_x: nat, start_y: nat, line_size: nat, colors: seq<byte>)

  /**
   The canvas, which pixels have been visited, and the place of the next pixel: rows to go and a byte offset in the
   first.
   */
  datatype Pen = Pen(out: seq<byte>, history: seq<byte>, rows: seq<nat>, x: nat)

  ghost predicate FrameOk(f: Frame) {
    f.start_x <= f.max_x <= f.line_size && f.start_x % 4 == 0 && f.max_x % 4 == 0 && |f.colors| == 1024
  }

  function Offset(f: Frame, row: nat, x: nat): nat {
    f.start_y + row * f.line_size + x
  }

  /**
   The colour of one pixel: blue, green, red and alpha are stored in that order; mostly transparent ones are not drawn.
   */
  function Paint(out: seq<byte>, idx: nat, colors: seq<byte>, index: byte): (r: seq<byte>)
    requires |colors| == 1024 && idx + 3 < |out|
    ensures |r| == |out|
  {
    var c := 4 * index;
    if colors[c + 3] > 128
    then out[idx := colors[c + 2]][idx + 1 := colors[c + 1]][idx + 2 := colors[c]][idx + 3 := colors[c + 3]]
    else out
  }

  /** The next pixel's place; after the last row there is none. */
  function Advance(f: Frame, rows: seq<nat>, x: nat): (seq<nat>, nat)
    requires rows != []
  {
    if x + 4 >= f.max_x then (rows[1..], f.start_x) else (rows, x + 4)
  }

  function Plot(f: Frame, pen: Pen, index: byte): Pen
    requires |f.colors| == 1024
  {
    if pen.rows == [] then pen
    else
      var idx := Offset(f, pen.rows[0], pen.x);
      var (rows, x) := Advance(f, pen.rows, pen.x);
      if idx + 3 < |pen.out| && idx / 4 < |pen.history| then
        Pen(Paint(pen.out, idx, f.colors, index), pen.history[idx / 4 := 1], rows, x)
      else pen
  }

  function Draw(f: Frame, pen: Pen, indices: seq<byte>): Pen
    requires |f.colors| == 1024
  {
    if indices == [] then pen else Plot(f, Draw(f, pen, indices[..|indices| - 1]), indices[|indices| - 1])
  }

  lemma {:induction false} DrawJoin(f: Frame, pen: Pen, a: seq<byte>, b: seq<byte>)
    requires |f.colors| == 1024
    ensures Draw(f, pen, a + b) == Draw(f, Draw(f, pen, a), b)
  {
    if b == [] {
      assert a + b == a;
    } else {
      assert (a + b)[..|a + b| - 1] == a + b[..|b| - 1];
      DrawJoin(f, pen, a, b[..|b| - 1]);
    }
  }
}
