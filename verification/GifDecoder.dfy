/**
 The GIF raster decoder (3rd_party/imageHelper/stb_image.h:6283-6403, 6486-6509): a dictionary of
 linked prefixes, written out by recursion straight onto an interlaced canvas.
 */
module GifDecoder {
  import opened Wrappers
  import opened BitStream
  import opened GifRows
  import opened GifSpec

  datatype Lzw = Lzw(prefix: int, first: byte, suffix: byte)

  // ---------------------------------------------------------------- linked strings

  /** Prefixes point strictly downwards, all the way from c. */
  predicate Chain(codes: seq<Lzw>, c: nat)
    decreases c
  {
    c < |codes| && codes[c].prefix < c && (codes[c].prefix >= 0 ==> Chain(codes, codes[c].prefix))
  }

  /** The string that entry c stands for. */
  ghost function Str(codes: seq<Lzw>, c: nat): (s: seq<byte>)
    requires Chain(codes, c)
    ensures |s| > 0
    decreases c
  {
    if codes[c].prefix >= 0 then Str(codes, codes[c].prefix) + [codes[c].suffix] else [codes[c].suffix]
  }

  lemma {:induction false} StrUnaffected(codes: seq<Lzw>, i: nat, v: Lzw, c: nat)
    requires c < i < |codes| && Chain(codes, c)
    ensures Chain(codes[i := v], c) && Str(codes[i := v], c) == Str(codes, c)
    decreases c
  {
    if codes[c].prefix >= 0 {
      StrUnaffected(codes, i, v, codes[c].prefix);
    }
  }

  /** Entry c represents the string that the dictionary has for it, and its first byte. */
  ghost predicate EntryOk(codes: seq<Lzw>, t: Table, c: nat) {
    Lookup(t, c).Some? ==> Chain(codes, c) && Str(codes, c) == Lookup(t, c).value && codes[c].first == Str(codes, c)[0]
  }

  ghost predicate LastOk(t: Table, oldcode: int) {
    if t.last.None? then oldcode == -1 else oldcode >= 0 && Lookup(t, oldcode) == t.last
  }

  ghost predicate Represents(codes: seq<Lzw>, t: Table) {
    TableOk(t) && t.size <= 12 && |codes| == MAX_CODES && Avail(t) <= MAX_CODES &&
    forall c: nat :: c < MAX_CODES ==> EntryOk(codes, t, c)
  }

  /** Adding the string of an old code and one more byte. */
  lemma AddEntry(codes: seq<Lzw>, t: Table, oldcode: nat, suffix: byte)
    requires Represents(codes, t) && Avail(t) < MAX_CODES && Lookup(t, oldcode).Some?
    ensures var v := Lzw(oldcode, codes[oldcode].first, suffix);
      Represents(codes[Avail(t) := v], t.(added := t.added + [Lookup(t, oldcode).value + [suffix]]))
  {
    var i := Avail(t);
    assert EntryOk(codes, t, oldcode);
    var v := Lzw(oldcode, codes[oldcode].first, suffix);
    var codes', t' := codes[i := v], t.(added := t.added + [Lookup(t, oldcode).value + [suffix]]);
    StrUnaffected(codes, i, v, oldcode);
    forall c: nat | c < MAX_CODES ensures EntryOk(codes', t', c) {
      assert EntryOk(codes, t, c);
      if c < i && Lookup(t, c).Some? {
        StrUnaffected(codes, i, v, c);
      }
    }
  }

  // ---------------------------------------------------------------- the canvas

  lemma RowsCompare(line: nat, r: nat, h: nat)
    requires line > 0
    ensures r >= h <==> r * line >= h * line
    ensures r < h ==> r * line + line <= h * line
  {
    if r < h {
      assert h * line == r * line + line + (h - r - 1) * line;
      assert (h - r - 1) * line >= 0;
    } else {
      assert r * line == h * line + (r - h) * line;
      assert (r - h) * line >= 0;
    }
  }

  class Gif {
    const data: seq<byte>
    var pos: nat

    const out: array<byte>
    const history: array<byte>
    const color_table: seq<byte>
    var codes: seq<Lzw>

    const line_size: nat
    const start_x: nat
    const start_y: nat
    const max_x: nat
    const max_y: nat
    var parse: nat
    var step: nat
    var cur_x: nat
    var cur_y: nat

    /** The frame's height, the current row and the spacing in rows, and the rows still to come. */
    ghost const height: nat
    ghost var row: nat
    ghost var gap: nat
    ghost var rows: seq<nat>

    /** A frame of w times h pixels at (x, y) on the canvas, as its image descriptor sets it up. */
    constructor (data: seq<byte>, pos: nat, out: array<byte>, history: array<byte>, colors: seq<byte>, width: nat,
        x: nat, y: nat, w: nat, h: nat, interlaced: bool)
      requires |colors| == 1024 && x + w <= width
      requires out.Length == 4 * history.Length && out != history && (y + h) * (4 * width) <= out.Length
      ensures this.data == data && this.pos == pos && this.out == out && this.history == history
      ensures |codes| == MAX_CODES && CursorOk() && FrameOk(TheFrame()) && CanvasOk()
      ensures rows == if w == 0 then [] else RowOrder(interlaced, h)
      ensures TheFrame() == Frame(4 * x, 4 * (x + w), y * (4 * width), 4 * width, colors)
    {
      this.data, this.pos, this.out, this.history, color_table := data, pos, out, history, colors;
      var line := 4 * width;
      var top, extent := y * line, h * line;
      line_size, start_x, start_y, max_x, max_y := line, 4 * x, top, 4 * (x + w), top + extent;
      height := h;
      codes := seq(MAX_CODES, _ => Lzw(-1, 0, 0));
      cur_x := 4 * x;
      cur_y := if w == 0 then top + extent else top;
      parse := if interlaced then 3 else 0;
      step := if interlaced then 8 * line else line;
      row, gap := 0, if interlaced then 8 else 1;
      rows := if w == 0 then [] else RowOrder(interlaced, h);
      new;
      FrameFits(line, y, h, w);
      assert Passes(0, h) == [] && Rows(0, 1, h) + [] == Rows(0, 1, h);
    }

    function TheFrame(): Frame
    {
      Frame(start_x, max_x, start_y, line_size, color_table)
    }

    ghost predicate CanvasOk() {
      out != history && out.Length == 4 * history.Length && start_y + height * line_size <= out.Length &&
      max_y == start_y + height * line_size
    }

    ghost predicate InRow()
      reads this
    {
      && gap > 0 && cur_y == start_y + row * line_size && step == gap * line_size && parse <= 3
      && rows == Rows(row, gap, height) + Passes(parse, height)
    }

    /** The byte offsets name the next pixel, or lie past the last row. */
    ghost predicate CursorOk()
      reads this
    {
      if cur_y >= max_y then rows == [] else start_x <= cur_x < max_x && cur_x % 4 == 0 && InRow()
    }

    ghost function ThePen(): Pen
      reads this, out, history
    {
      Pen(out[..], history[..], rows, cur_x)
    }

    ghost predicate Ready()
      reads this
    {
      FrameOk(TheFrame()) && CanvasOk() && CursorOk()
    }

    /** The current row exists and its pixels lie on the canvas. */
    lemma InsideCanvas()
      requires Ready() && cur_y < max_y
      ensures row < height && rows != [] && rows[0] == row
      ensures rows[1..] == Rows(row + gap, gap, height) + Passes(parse, height)
      ensures Offset(TheFrame(), row, cur_x) == cur_x + cur_y
      ensures cur_x + 4 <= max_x && cur_x + cur_y + 3 < out.Length && (cur_x + cur_y) / 4 < history.Length
    {
      RowsCompare(line_size, row, height);
    }

    /** The first row of pass `parse`. */
    method StartPass()
      requires 0 < parse <= 3
      modifies this`cur_y, this`step, this`parse, this`row, this`gap
      ensures parse == old(parse) - 1 && row == PassStart(old(parse)) && gap == PassStep(old(parse))
      ensures cur_y == start_y + row * line_size && step == gap * line_size
    {
      step := PassStep(parse) * line_size; // (1 << parse) * line_size
      HalfStep(PassStart(parse), line_size);
      cur_y := start_y + step / 2;
      row, gap := PassStart(parse), PassStep(parse);
      parse := parse - 1;
    }

    /** Goes to the next row; past the last one of a pass, to the first row of the passes that are left. */
    method NextRow()
      requires Ready() && cur_y < max_y && rows != []
      modifies this`cur_y, this`step, this`parse, this`row, this`gap, this`rows
      ensures rows == old(rows)[1..]
      ensures if cur_y >= max_y then rows == [] else InRow()
    {
      InsideCanvas();
      RowMove(row, gap, line_size);
      cur_y := cur_y + step;
      row, rows := row + gap, rows[1..];
      while cur_y >= max_y && parse > 0
        invariant InRow() && rows == old(rows)[1..]
        decreases parse
      {
        RowsCompare(line_size, row, height);
        NextPass(row, gap, parse, height);
        StartPass();
      }
      RowsCompare(line_size, row, height);
    }

    /** Moves to the next pixel. */
    method NextPixel()
      requires Ready() && cur_y < max_y && rows != []
      modifies this`cur_x, this`cur_y, this`step, this`parse, this`row, this`gap, this`rows
      ensures Ready() && (rows, cur_x) == Advance(TheFrame(), old(rows), old(cur_x))
    {
      InsideCanvas();
      if cur_x + 4 >= max_x {
        NextRow();
        cur_x := start_x;
      } else {
        MultipleOfFour(cur_x);
        cur_x := cur_x + 4;
      }
    }

    static lemma MultipleOfFour(x: nat)
      requires x % 4 == 0
      ensures (x + 4) % 4 == 0
    {
    }

    method PaintPixel(idx: nat, index: byte)
      requires CanvasOk() && |color_table| == 1024 && idx + 3 < out.Length && idx / 4 < history.Length
      modifies out, history
      ensures out[..] == Paint(old(out[..]), idx, color_table, index)
      ensures history[..] == old(history[..])[idx / 4 := 1]
    {
      history[idx / 4] := 1;
      var c := 4 * index;
      if color_table[c + 3] > 128 {
        out[idx] := color_table[c + 2];
        out[idx + 1] := color_table[c + 1];
        out[idx + 2] := color_table[c];
        out[idx + 3] := color_table[c + 3];
      }
    }

    /** Draws one pixel, if there is room for one more. */
    method OutPixel(index: byte)
      requires Ready()
      modifies this`cur_x, this`cur_y, this`step, this`parse, this`row, this`gap, this`rows, out, history
      ensures Ready() && ThePen() == Plot(TheFrame(), old(ThePen()), index)
    {
      if cur_y >= max_y {
        return;
      }
      InsideCanvas();
      PaintPixel(cur_x + cur_y, index);
      NextPixel();
    }

    /** Draws the string of a code: the prefix first, by recursion. */
    method OutGifCode(code: nat)
      requires Ready() && Chain(codes, code)
      modifies this`cur_x, this`cur_y, this`step, this`parse, this`row, this`gap, this`rows, out, history
      ensures Ready() && ThePen() == Draw(TheFrame(), old(ThePen()), Str(codes, code))
      decreases code
    {
      if codes[code].prefix >= 0 {
        OutGifCode(codes[code].prefix);
      }
      OutPixel(codes[code].suffix);
    }

    // -------------------------------------------------------------- codes

    method Get8() returns (b: byte)
      modifies this`pos
      ensures b == ByteAt(data, old(pos)) && pos == old(pos) + 1
    {
      b := ByteAt(data, pos);
      pos := pos + 1;
    }

    /** The roots: one-byte strings. */
    method InitCodes(size: nat)
      requires size <= 12 && |codes| == MAX_CODES
      modifies this`codes
      ensures Represents(codes, Initial(size, false))
    {
      PowerBound(size);
      ghost var t := Initial(size, false);
      for i := 0 to Pow2(size)
        invariant |codes| == MAX_CODES
        invariant forall c: nat :: c < i ==> codes[c] == Lzw(-1, c % 256, c % 256)
      {
        codes := codes[i := Lzw(-1, i % 256, i % 256)];
      }
      forall c: nat | c < MAX_CODES ensures EntryOk(codes, t, c) {
        assert Lookup(t, c).Some? ==> codes[c] == Lzw(-1, c % 256, c % 256);
      }
    }

    /**
     Defines the next code as the old string and the first byte of the new one. When the new code is
     the one being defined, its first byte is already in place by the time it is read; the C code's
     comparison of code with the incremented avail never holds.
     */
    method Define(code: nat, oldcode: nat, avail: nat, ghost t: Table, ghost t1: Table)
      requires Represents(codes, t) && t.last.Some? && LastOk(t, oldcode) && avail == Avail(t) < MAX_CODES
      requires code <= avail
      requires TakeCode(t, code).Emit? && t1 == TakeCode(t, code).table
      modifies this`codes
      ensures Represents(codes, t1) && Chain(codes, code) && Str(codes, code) == TakeCode(t, code).text
    {
      ghost var codes0 := codes;
      assert EntryOk(codes, t, oldcode) && EntryOk(codes, t, code);
      codes := codes[avail := codes[avail].(prefix := oldcode)];
      codes := codes[avail := codes[avail].(first := codes[oldcode].first)];
      var suffix := codes[code].first;
      codes := codes[avail := codes[avail].(suffix := suffix)];
      assert codes == codes0[avail := Lzw(oldcode, codes0[oldcode].first, suffix)];
      AddEntry(codes0, t, oldcode, suffix);
      SameTable(codes, t.(added := t.added + [t.last.value + [suffix]]), t1);
      assert EntryOk(codes, t1, code);
    }

    /** Defines the next code, if there was one before this one. */
    method EnterCode(code: nat, v: Vars, ghost t: Table, ghost t1: Table) returns (avail: nat)
      requires Tracks(codes, t, v) && TakeCode(t, code).Emit? && t1 == TakeCode(t, code).table
      modifies this`codes
      ensures Represents(codes, t1) && avail == Avail(t1)
      ensures Chain(codes, code) && Str(codes, code) == TakeCode(t, code).text
    {
      avail := v.avail;
      if v.oldcode >= 0 {
        Define(code, v.oldcode, avail, t, t1);
        avail := avail + 1;
      } else {
        assert EntryOk(codes, t, code);
        SameTable(codes, t, t1);
      }
    }

    /** A code that stands for a string: defines the next one, draws the string and widens the codes when due. */
    method EmitCode(code: nat, v0: Vars, ghost t: Table) returns (v: Vars, ghost t1: Table, ghost text: seq<byte>)
      requires Ready() && Tracks(codes, t, v0) && TakeCode(t, code).Emit?
      modifies this`cur_x, this`cur_y, this`step, this`parse, this`row, this`gap, this`rows, this`codes, out, history
      ensures Ready() && Tracks(codes, t1, v)
      ensures t1 == TakeCode(t, code).table && text == TakeCode(t, code).text
      ensures ThePen() == Draw(TheFrame(), old(ThePen()), text)
    {
      t1, text := TakeCode(t, code).table, TakeCode(t, code).text;
      var avail := EnterCode(code, v0, t, t1);
      OutGifCode(code);
      var codesize := v0.codesize;
      if avail % Pow2(codesize) == 0 && avail <= 0x0fff {
        codesize := codesize + 1;
      }
      v := Vars(false, codesize, avail, code);
      EmitTracks(t, code);
    }

    /** One code. */
    method TakeGifCode(code: nat, v0: Vars, size: nat, ghost t: Table)
      returns (flow: Flow, v: Vars, ghost t1: Table, ghost text: seq<byte>)
      requires Ready() && Tracks(codes, t, v0) && size == t.size
      modifies this`cur_x, this`cur_y, this`step, this`parse, this`row, this`gap, this`rows, this`codes, out, history
      ensures Ready()
      ensures flow == FlowOf(TakeCode(t, code))
      ensures flow.Continue? ==> Tracks(codes, t1, v) && t1 == TakeCode(t, code).table
      ensures flow.Continue? ==> text == TextOf(TakeCode(t, code)) && ThePen() == Draw(TheFrame(), old(ThePen()), text)
      ensures flow.Finish? ==> ThePen() == old(ThePen())
    {
      v, t1, text := v0, t, [];
      var clear := Pow2(size);
      if code == clear {
        v, t1 := Vars(false, size + 1, clear + 2, -1), Initial(size, true);
        ClearTable(codes, t);
        flow := Continue;
      } else if code == clear + 1 {
        flow := Finish;
      } else if code <= v.avail {
        if v.first || (v.oldcode >= 0 && v.avail + 1 > MAX_CODES) || (v.oldcode < 0 && code == v.avail) {
          return Fail, v, t1, text;
        }
        flow := Continue;
        v, t1, text := EmitCode(code, v, t);
      } else {
        flow := Fail;
      }
    }

    // -------------------------------------------------------------- the raster

    /** The next payload byte, from a new sub-block if the current one is used up; false at the end of the chain. */
    method NextByte(len0: nat, ghost end: nat) returns (more: bool, len: nat, b: byte)
      requires EndsAt(data, pos, len0, end)
      modifies this`pos
      ensures !more ==> Rest(data, old(pos), len0) == [] && pos == end
      ensures more ==> Rest(data, old(pos), len0) == [b] + Rest(data, pos, len) && EndsAt(data, pos, len, end)
    {
      len := len0;
      if len == 0 {
        len := Get8();
        if len == 0 {
          return false, 0, 0;
        }
      }
      len := len - 1;
      b := Get8();
      more := true;
    }

    /** Skips what is left of the chain. */
    method SkipChain(len0: nat, ghost end: nat)
      requires EndsAt(data, pos, len0, end)
      modifies this`pos
      ensures pos == end
    {
      pos := pos + len0;
      var len := Get8();
      while len > 0
        invariant if len == 0 then pos == end else EndsAt(data, pos, len, end)
        invariant len > 0 ==> pos <= |data|
        decreases if len > 0 then |data| + 1 - pos else 0
      {
        pos := pos + len;
        len := Get8();
      }
    }

    /** One more byte into the bit buffer. */
    method FillBits(len0: nat, bits0: nat, valid_bits0: nat, ghost payload: seq<byte>, ghost k: nat, ghost p: nat,
        ghost end: nat)
      returns (more: bool, len: nat, bits: nat, valid_bits: nat)
      requires Buffered(data, pos, payload, k, p, len0, bits0, valid_bits0) && EndsAt(data, pos, len0, end)
      modifies this`pos
      ensures !more ==> k == |payload| && pos == end
      ensures more ==>
        k < |payload| && Buffered(data, pos, payload, k + 1, p, len, bits, valid_bits) && valid_bits == valid_bits0 + 8
      ensures more ==> EndsAt(data, pos, len, end)
    {
      bits, valid_bits := bits0, valid_bits0;
      var b;
      more, len, b := NextByte(len0, end);
      if more {
        assert payload[k..][0] == b && payload[k + 1..] == payload[k..][1..];
        FillValue(payload, p, valid_bits, k, b);
        bits := bits + ShiftLeft(b, valid_bits);
        valid_bits := valid_bits + 8;
      }
    }

    /** The next code, taken out of the bit buffer. */
    method TakeNext(v0: Vars, bits0: nat, valid_bits0: nat, size: nat, ghost payload: seq<byte>, ghost s0: State,
        ghost goal: Option<seq<byte>>)
      returns (flow: Flow, v: Vars, bits: nat, valid_bits: nat, ghost s: State)
      requires Ready() && Tracks(codes, s0.t, v0) && size == s0.t.size && 0 < v0.codesize <= valid_bits0
      requires s0.p + valid_bits0 <= 8 * |payload| && bits0 == Low(payload, s0.p, valid_bits0)
      requires Decodes(payload, s0, goal)
      modifies this`cur_x, this`cur_y, this`step, this`parse, this`row, this`gap, this`rows, this`codes, out, history
      ensures Ready()
      ensures flow.Fail? ==> goal == None
      ensures flow.Finish? ==> goal == Some(s0.done) && ThePen() == old(ThePen())
      ensures flow.Continue? ==>
        Tracks(codes, s.t, v) && s.t.size == size && v.codesize > 0 && Decodes(payload, s, goal)
      ensures flow.Continue? ==> s.p == s0.p + v0.codesize && s.k == s0.k
      ensures flow.Continue? ==> forall pen :: old(ThePen()) == Draw(TheFrame(), pen, s0.done) ==>
        ThePen() == Draw(TheFrame(), pen, s.done)
      ensures flow.Continue? ==> valid_bits == valid_bits0 - v0.codesize && bits == Low(payload, s.p, valid_bits)
    {
      s := s0;
      LowMaskShift(payload, s.p, v0.codesize, valid_bits0);
      var code := Mask(bits0, v0.codesize);
      bits := ShiftRight(bits0, v0.codesize);
      valid_bits := valid_bits0 - v0.codesize;
      TakeCodeKeeps(s.t, code, TakeCode(s.t, code));
      TurnOf(payload, s, goal, TakeCode(s.t, code));
      ghost var t1, text;
      flow, v, t1, text := TakeGifCode(code, v0, size, s.t);
      forall pen | old(ThePen()) == Draw(TheFrame(), pen, s0.done)
        ensures flow.Continue? ==> ThePen() == Draw(TheFrame(), pen, s0.done + text)
      {
        DrawJoin(TheFrame(), pen, s0.done, text);
      }
      s := After(s, t1, text);
    }

    /** The loop between two steps. */
    ghost predicate Decoding(v: Vars, len: nat, bits: nat, valid_bits: nat, size: nat, payload: seq<byte>, s: State,
        goal: Option<seq<byte>>, end: nat, pen0: Pen)
      reads this, out, history
    {
      && Ready() && Tracks(codes, s.t, v) && s.t.size == size && v.codesize > 0
      && Buffered(data, pos, payload, s.k, s.p, len, bits, valid_bits) && EndsAt(data, pos, len, end)
      && Decodes(payload, s, goal) && ThePen() == Draw(TheFrame(), pen0, s.done)
    }

    /** One byte more into the bit buffer, or one code out of it. */
    method DecodeOnce(v0: Vars, len0: nat, bits0: nat, valid_bits0: nat, size: nat, ghost payload: seq<byte>,
        ghost s0: State, ghost goal: Option<seq<byte>>, ghost end: nat, ghost pen0: Pen)
      returns (flow: Flow, v: Vars, len: nat, bits: nat, valid_bits: nat, ghost s: State)
      requires Decoding(v0, len0, bits0, valid_bits0, size, payload, s0, goal, end, pen0)
      modifies this`pos, this`cur_x, this`cur_y, this`step, this`parse, this`row, this`gap, this`rows, this`codes, out,
        history
      ensures flow.Fail? ==> goal == None
      ensures flow.Finish? ==> goal.Some? && ThePen() == Draw(TheFrame(), pen0, goal.value) && pos == end
      ensures flow.Continue? ==> Decoding(v, len, bits, valid_bits, size, payload, s, goal, end, pen0)
      ensures flow.Continue? ==> s.p > s0.p || (s.p == s0.p && s.k > s0.k)
    {
      v, len, bits, valid_bits, s := v0, len0, bits0, valid_bits0, s0;
      if valid_bits < v.codesize {
        var more;
        more, len, bits, valid_bits := FillBits(len, bits, valid_bits, payload, s.k, s.p, end);
        if !more {
          PayloadUsedUp(payload, s, goal);
          flow := Finish;
          return;
        }
        s := s.(k := s.k + 1);
        flow := Continue;
      } else {
        flow, v, bits, valid_bits, s := TakeNext(v, bits, valid_bits, size, payload, s, goal);
        if flow == Finish {
          SkipChain(len, end);
        }
      }
    }

    /** Everything after the code size, from a given state of the bit buffer and the dictionary. */
    method DecodeCodes(v0: Vars, size: nat, ghost payload: seq<byte>, ghost t0: Table) returns (ok: bool)
      requires Ready() && Tracks(codes, t0, v0) && t0.size == size && v0.codesize > 0
      requires payload == Rest(data, pos, 0)
      modifies this`pos, this`cur_x, this`cur_y, this`step, this`parse, this`row, this`gap, this`rows, this`codes, out,
        history
      ensures ok <==> Indices(payload, 0, t0).Some?
      ensures ok ==>
        ThePen() == Draw(TheFrame(), old(ThePen()), Indices(payload, 0, t0).value) && pos == ChainEnd(data, old(pos))
    {
      ghost var s := State(0, 0, t0, []);
      ghost var goal, end, pen0 := Indices(payload, 0, t0), ChainEnd(data, pos), ThePen();
      var v, len: nat, bits: nat, valid_bits: nat := v0, 0, 0, 0;
      PrefixedNothing(goal);
      var flow := Continue;
      while flow == Continue
        invariant flow.Continue? ==> Decoding(v, len, bits, valid_bits, size, payload, s, goal, end, pen0)
        invariant flow.Fail? ==> goal == None
        invariant flow.Finish? ==> goal.Some? && ThePen() == Draw(TheFrame(), pen0, goal.value) && pos == end
        decreases flow == Continue, 8 * |payload| - s.p, |payload| - s.k
      {
        flow, v, len, bits, valid_bits, s := DecodeOnce(v, len, bits, valid_bits, size, payload, s, goal, end, pen0);
      }
      ok := flow == Finish;
    }

    /** Decodes the raster: draws exactly the indices it stands for, or fails if it is malformed. */
    method ProcessGifRaster() returns (ok: bool)
      requires Ready() && |codes| == MAX_CODES
      modifies this`pos, this`cur_x, this`cur_y, this`step, this`parse, this`row, this`gap, this`rows, this`codes, out,
        history
      ensures ok <==> Raster(data, old(pos)).Some?
      ensures ok ==> ThePen() == Draw(TheFrame(), old(ThePen()), Raster(data, old(pos)).value)
      ensures ok ==> pos == ChainEnd(data, old(pos) + 1)
    {
      var lzw_cs := Get8();
      if lzw_cs > 12 {
        return false;
      }
      InitCodes(lzw_cs);
      ok := DecodeCodes(Vars(true, lzw_cs + 1, Pow2(lzw_cs) + 2, -1), lzw_cs, Payload(data, pos),
        Initial(lzw_cs, false));
    }
  }

  lemma PrefixedNothing(rest: Option<seq<byte>>)
    ensures Prefixed([], rest) == rest
  {
    if rest.Some? {
      assert [] + rest.value == rest.value;
    }
  }

  /** The payload bytes still to come at pos, given how many are left in the current sub-block. */
  ghost function Rest(data: seq<byte>, pos: nat, len: nat): seq<byte> {
    Slice(data, pos, len) + Payload(data, pos + len)
  }

  ghost predicate EndsAt(data: seq<byte>, pos: nat, len: nat, end: nat) {
    ChainEnd(data, pos + len) == end
  }

  /** The bit buffer holds the next bits of the payload, of which k bytes have been taken in. */
  ghost predicate Buffered(data: seq<byte>, pos: nat, payload: seq<byte>, k: nat, p: nat, len: nat, bits: nat,
      valid_bits: nat) {
    k <= |payload| && payload[k..] == Rest(data, pos, len) && p + valid_bits == 8 * k &&
    bits == Low(payload, p, valid_bits)
  }

  /** Indices drawn so far and then the rest. */
  ghost function Prefixed(done: seq<byte>, rest: Option<seq<byte>>): Option<seq<byte>> {
    if rest.None? then None else Some(done + rest.value)
  }

  /** Bytes taken in, bits used, the dictionary and the indices drawn so far. */
  datatype State = State(k: nat, p: nat, t: Table, done: seq<byte>)

  /** What is done and what is left make up the goal. */
  ghost predicate Decodes(payload: seq<byte>, s: State, goal: Option<seq<byte>>) {
    TableOk(s.t) && s.t.width > 0 && goal == Prefixed(s.done, Indices(payload, s.p, s.t))
  }

  lemma PayloadUsedUp(payload: seq<byte>, s: State, goal: Option<seq<byte>>)
    requires Decodes(payload, s, goal) && s.p + s.t.width > 8 * |payload|
    ensures goal == Some(s.done)
  {
    assert s.done + [] == s.done;
  }

  /** The state after a code that stands for `text` and leaves dictionary t1. */
  function After(s: State, t1: Table, text: seq<byte>): State {
    State(s.k, s.p + s.t.width, t1, s.done + text)
  }

  function TextOf(turn: Turn): seq<byte> {
    if turn.Emit? then turn.text else []
  }

  /** The meaning of a stream by its next code. */
  lemma TurnOf(payload: seq<byte>, s: State, goal: Option<seq<byte>>, turn: Turn)
    requires Decodes(payload, s, goal) && s.p + s.t.width <= 8 * |payload|
    requires turn == TakeCode(s.t, Low(payload, s.p, s.t.width))
    requires FlowOf(turn).Continue? ==> TableOk(turn.table) && turn.table.width > 0
    ensures turn.Corrupt? ==> goal == None
    ensures turn.EndOfStream? ==> goal == Some(s.done)
    ensures FlowOf(turn).Continue? ==> Decodes(payload, After(s, turn.table, TextOf(turn)), goal)
  {
    IndicesByTurn(payload, s.p, s.t, turn);
    if FlowOf(turn).Continue? {
      PrefixedJoin(s.done, TextOf(turn), Indices(payload, s.p + s.t.width, turn.table));
      DecodesAfter(payload, s, goal, turn.table, TextOf(turn));
    } else {
      assert s.done + [] == s.done;
    }
  }

  lemma DecodesAfter(payload: seq<byte>, s: State, goal: Option<seq<byte>>, t1: Table, text: seq<byte>)
    requires TableOk(t1) && t1.width > 0 && goal == Prefixed(s.done + text, Indices(payload, s.p + s.t.width, t1))
    ensures Decodes(payload, After(s, t1, text), goal)
  {
  }

  lemma TakeCodeKeeps(t: Table, code: nat, turn: Turn)
    requires TableOk(t) && t.width > 0 && turn == TakeCode(t, code)
    ensures FlowOf(turn).Continue? ==> TableOk(turn.table) && turn.table.width > 0
  {
  }

  lemma IndicesByTurn(payload: seq<byte>, p: nat, t: Table, turn: Turn)
    requires TableOk(t) && t.width > 0 && p + t.width <= 8 * |payload| && turn == TakeCode(t, Low(payload, p, t.width))
    requires FlowOf(turn).Continue? ==> TableOk(turn.table) && turn.table.width > 0
    ensures turn.Corrupt? ==> Indices(payload, p, t) == None
    ensures turn.EndOfStream? ==> Indices(payload, p, t) == Some([])
    ensures FlowOf(turn).Continue? ==>
      Indices(payload, p, t) == Prefixed(TextOf(turn), Indices(payload, p + t.width, turn.table))
  {
    if turn.Restart? {
      PrefixedNothing(Indices(payload, p + t.width, turn.table));
    }
  }

  lemma PrefixedJoin(a: seq<byte>, b: seq<byte>, rest: Option<seq<byte>>)
    ensures Prefixed(a, Prefixed(b, rest)) == Prefixed(a + b, rest)
  {
    if rest.Some? {
      assert a + (b + rest.value) == a + b + rest.value;
    }
  }

  datatype Flow = Continue | Finish | Fail

  function FlowOf(turn: Turn): Flow {
    match turn
    case Emit(_, _) => Continue
    case Restart(_) => Continue
    case EndOfStream => Finish
    case Corrupt => Fail
  }

  /** The raster loop's variables: no clear code yet, the code width, the next code, the previous one or -1. */
  datatype Vars = Vars(first: bool, codesize: nat, avail: nat, oldcode: int)

  /** The variables and entries say what the dictionary t says. */
  ghost predicate Tracks(codes: seq<Lzw>, t: Table, v: Vars) {
    Represents(codes, t) && LastOk(t, v.oldcode) && v.first == !t.started && v.codesize == t.width &&
    v.avail == Avail(t)
  }

  lemma EmitTracks(t: Table, code: nat)
    requires TableOk(t) && TakeCode(t, code).Emit?
    ensures var t1 := TakeCode(t, code).table;
      t1.width == Wider(t.width, Avail(t1)) && t1.started && t1.size == t.size && LastOk(t1, code)
  {
  }

  lemma PowerBound(size: nat)
    requires size <= 12
    ensures Pow2(size) <= 4096
  {
    Pow2Monotone(size, 12);
    assert Pow2(12) == 4096;
  }

  /** Only size and added strings matter to the entries. */
  lemma SameTable(codes: seq<Lzw>, t: Table, t1: Table)
    requires Represents(codes, t) && TableOk(t1) && t1.size == t.size && t1.added == t.added
    ensures Represents(codes, t1)
  {
    forall c: nat | c < MAX_CODES ensures EntryOk(codes, t1, c) {
      assert EntryOk(codes, t, c);
    }
  }

  lemma ClearTable(codes: seq<Lzw>, t: Table)
    requires Represents(codes, t)
    ensures Represents(codes, Initial(t.size, true))
  {
    forall c: nat | c < MAX_CODES ensures EntryOk(codes, Initial(t.size, true), c) {
      assert EntryOk(codes, t, c);
    }
  }

  lemma FrameFits(line: nat, y: nat, h: nat, w: nat)
    requires w > 0 ==> line > 0
    ensures (y + h) * line == y * line + h * line
    ensures w > 0 ==> (h * line == 0 <==> h == 0)
    ensures 0 * line == 0
  {
    RowMove(y, h, line);
    if w > 0 {
      RowsCompare(line, 0, h);
    }
  }

  lemma NextPass(row: nat, gap: nat, parse: nat, h: nat)
    requires gap > 0 && row >= h && parse > 0
    ensures Rows(row, gap, h) + Passes(parse, h) == Rows(PassStart(parse), PassStep(parse), h) + Passes(parse - 1, h)
  {
  }

  lemma RowMove(row: nat, gap: nat, line: nat)
    ensures (row + gap) * line == row * line + gap * line
  {
  }

  lemma HalfStep(start: nat, line: nat)
    ensures (2 * start * line) / 2 == start * line
  {
    assert 2 * start * line == 2 * (start * line);
  }
}
