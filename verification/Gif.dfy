/** The GIF raster decoder: a table of prefix-linked codes, a cursor in byte offsets, and the image it
    paints.  It is proved against the string decoder of GifLzw and the painting of GifRaster. */
module Gif {
  import opened Bits
  import opened GifLzw
  import opened GifRaster
  import opened Wrappers

  /** A code spells what its prefix spells and then `suffix`; codes without a prefix have -1 there. */
  datatype Entry = Entry(prefix: int, first: byte, suffix: byte)

  ghost predicate Spelled(codes: seq<Entry>, cs: nat, dict: seq<seq<byte>>, i: nat)
    requires i < |dict| <= |codes|
  {
    && dict[i] != [] && codes[i].first == dict[i][0]
    && if codes[i].prefix < 0 then dict[i] == [codes[i].suffix]
       else codes[i].prefix < i && IsString(cs, codes[i].prefix) && dict[i] == dict[codes[i].prefix] + [codes[i].suffix]
  }

  /** The chains spell the strings of the dictionary, and prefixes are smaller than their codes. */
  ghost predicate Chains(codes: seq<Entry>, cs: nat, dict: seq<seq<byte>>)
  {
    |dict| <= |codes| && forall i: nat :: i < |dict| && IsString(cs, i) ==> Spelled(codes, cs, dict, i)
  }

  lemma SpelledStays(codes: seq<Entry>, codes': seq<Entry>, cs: nat, dict: seq<seq<byte>>, dict': seq<seq<byte>>, i: nat)
    requires |dict| <= |dict'| <= |codes| == |codes'| && i < |dict| && dict <= dict'
    requires codes[i] == codes'[i] && Spelled(codes, cs, dict, i)
    ensures Spelled(codes', cs, dict', i)
  {
  }

  /** Linking a code to `prev` adds the string of `prev` and one more index. */
  lemma LinkAdds(codes: seq<Entry>, cs: nat, dict: seq<seq<byte>>, prev: nat, code: nat, e: Entry)
    requires Strings(cs, dict) && Chains(codes, cs, dict) && |dict| < |codes| && prev < |dict| && code <= |dict|
    requires IsString(cs, prev) && IsString(cs, code)
    requires e == Entry(prev, codes[prev].first, if code == |dict| then codes[prev].first else codes[code].first)
    ensures Chains(codes[|dict| := e], cs, dict + [NewString(cs, dict, prev, code)])
  {
    hide Strings, IsString;
    var codes', dict' := codes[|dict| := e], dict + [NewString(cs, dict, prev, code)];
    forall i: nat | i < |dict'| && IsString(cs, i)
      ensures Spelled(codes', cs, dict', i)
    {
      if i < |dict| {
        SpelledStays(codes, codes', cs, dict, dict', i);
      } else {
        assert Spelled(codes, cs, dict, prev);
        if code < |dict| { assert Spelled(codes, cs, dict, code); }
      }
    }
  }

  lemma RowTest(line: nat, y: nat, row: nat, h: nat)
    requires line > 0
    ensures line * (y + row) >= line * (y + h) <==> row >= h
  {
    if row < h {
      MulMonotone(y + row + 1, y + h, line);
      Distribute(line, y + row, 1);
    } else {
      MulMonotone(y + h, y + row, line);
    }
  }

  lemma WrapStep(h: nat, row: nat, step: nat, parse: nat)
    ensures !(row >= h && parse > 0) ==> Wrap(h, row, step, parse) == (row, step, parse) && Tried(h, row, step, parse) == row
    ensures row >= h && parse > 0 ==>
              var st := if parse == 1 then 2 else if parse == 2 then 4 else 8;
              Wrap(h, row, step, parse) == Wrap(h, st / 2, st, parse - 1)
              && Tried(h, row, step, parse) == Larger(row, Tried(h, st / 2, st, parse - 1))
  {
  }

  lemma LargestSoFar(top: nat, row: nat, row': nat, rest: nat)
    requires top >= row && rest >= row'
    ensures Larger(Larger(top, row'), rest) == Larger(top, Larger(row, rest))
  {
  }

  lemma {:induction false} PassesLeft(f: Frame, k: nat)
    ensures CursorAfter(f, k).parse <= 3
  {
    if k > 0 {
      PassesLeft(f, k - 1);
      var c := CursorAfter(f, k - 1);
      WrapPasses(f.h, c.row + c.step, c.step, c.parse);
    }
  }

  lemma {:induction false} WrapPasses(h: nat, row: nat, step: nat, parse: nat)
    ensures Wrap(h, row, step, parse).2 <= parse
    decreases parse
  {
    if row >= h && parse > 0 {
      var step' := if parse == 1 then 2 else if parse == 2 then 4 else 8;
      WrapPasses(h, step' / 2, step', parse - 1);
    }
  }

  lemma PassStep(line: nat, y: nat, parse: nat)
    requires 1 <= parse <= 3
    ensures var step := if parse == 1 then 2 else if parse == 2 then 4 else 8;
            Shl(1, parse) * line == line * step
            && line * y + (line * step) / 2 == line * (y + step / 2)
  {
    assert Shl(1, 1) == 2 && Shl(1, 2) == 4 && Shl(1, 3) == 8;
    var half := Shl(1, parse) / 2;
    Distribute(line, y, half);
    assert line * (2 * half) == 2 * (line * half);
  }

  lemma ByteOffset(f: Frame, row: nat, col: nat)
    ensures 4 * (f.x + col) + 4 * f.gw * (f.y + row) == 4 * PixelAt(f, row, col)
  {
    assert 4 * f.gw * (f.y + row) == 4 * (f.gw * (f.y + row));
  }

  lemma FrameOffsets(line: nat, y: nat, h: nat)
    ensures y * line == line * (y + 0) == line * y && y * line + h * line == line * (y + h)
    ensures 8 * line == line * 8 && line * 1 == line
  {
    Distribute(line, y, h);
  }

  datatype Loaded = BadDescriptor | MissingColorTable | BadCodeSize | Raster(status: Status)

  class Gif {
    const w: nat
    const h: nat
    var data: seq<byte>
    var pos: nat
    const codes: array<Entry>
    const out: array<byte>
    const history: array<byte>
    const background: array<byte>
    var colorTable: seq<byte>
    var lineSize: nat
    var startX: nat
    var startY: nat
    var maxX: nat
    var maxY: nat
    var curX: nat
    var curY: nat
    var step: nat
    var parse: nat
    /** The rectangle being painted, the image before it, and the indices painted so far. */
    ghost var frame: Frame
    ghost var base: Canvas
    ghost var drawn: seq<byte>

    /** A picture of transparent black pixels, none of them touched yet. */
    constructor (width: nat, height: nat, input: seq<byte>)
      ensures w == width && h == height && data == input && pos == 0
      ensures codes.Length == MAX_CODES && Sized() && Untouched()
      ensures fresh(codes) && fresh(out) && fresh(history) && fresh(background)
      ensures forall i :: 0 <= i < out.Length ==> out[i] == 0
    {
      w, h, data, pos := width, height, input, 0;
      codes := new Entry[MAX_CODES](_ => Entry(-1, 0, 0));
      out := new byte[4 * (width * height)](_ => 0);
      history := new byte[width * height](_ => 0);
      background := new byte[4 * (width * height)](_ => 0);
      colorTable, lineSize, startX, startY, maxX, maxY, curX, curY, step, parse := [], 0, 0, 0, 0, 0, 0, 0, 0, 0;
      frame, base, drawn := Frame(0, 0, 0, 0, 0, 0, false), Canvas([], []), [];
    }

    /** The three buffers of a picture of `w` x `h` pixels. */
    predicate Sized()
    {
      && history.Length == w * h && out.Length == background.Length == 4 * history.Length
      && out != history && out != background && history != background
    }

    /** Between two frames: no pixel is marked, and the background is what is shown. */
    ghost predicate Untouched()
      reads out, history, background
    {
      background[..] == out[..] && forall q :: 0 <= q < history.Length ==> history[q] == 0
    }

    // ---------- the cursor ----------

    ghost predicate Placed()
      reads `frame, `lineSize, `startX, `startY, `maxX, `maxY
    {
      && InBounds(frame) && lineSize == 4 * frame.gw
      && startX == 4 * frame.x && startY == lineSize * frame.y
      && maxX == 4 * (frame.x + frame.w) && maxY == lineSize * (frame.y + frame.h)
    }

    /** The byte offsets stand for the cursor `c`. */
    ghost predicate At(c: Cursor)
      reads `frame, `lineSize, `curX, `curY, `step, `parse
    {
      && curX == 4 * (frame.x + c.col) && curY == lineSize * (frame.y + c.row)
      && step == lineSize * c.step && parse == c.parse
    }

    /** Starts the next pass: its rows are `st` apart and begin half of that below the top. */
    method NextPass() returns (ghost st: nat)
      requires Placed() && 1 <= parse <= 3
      modifies `curY, `step, `parse
      ensures st == (if old(parse) == 1 then 2 else if old(parse) == 2 then 4 else 8) && parse == old(parse) - 1
      ensures step == lineSize * st && curY == lineSize * (frame.y + st / 2)
      ensures curY >= maxY <==> st / 2 >= frame.h || lineSize == 0
    {
      PassStep(lineSize, frame.y, parse);
      st := if parse == 1 then 2 else if parse == 2 then 4 else 8;
      if lineSize > 0 { RowTest(lineSize, frame.y, st / 2, frame.h); }
      step := Shl(1, parse) * lineSize;
      curY := startY + step / 2;
      parse := parse - 1;
    }

    /** Goes on to later passes while the row is below the frame; `farthest` is the largest offset on the way. */
    method WrapRows(ghost row0: nat, ghost step0: nat) returns (ghost farthest: nat)
      requires Placed() && lineSize > 0 && parse <= 3
      requires curY == lineSize * (frame.y + row0) && step == lineSize * step0
      modifies `curY, `step, `parse
      ensures var (row, st, left) := Wrap(frame.h, row0, step0, old(parse));
              curY == lineSize * (frame.y + row) && step == lineSize * st && parse == left
      ensures farthest == lineSize * (frame.y + Tried(frame.h, row0, step0, old(parse)))
    {
      hide Wrap, Tried, Larger;
      ghost var row: nat, st: nat, top: nat := row0, step0, row0;
      RowTest(lineSize, frame.y, row, frame.h);
      while curY >= maxY && parse > 0
        invariant parse <= 3
        invariant curY == lineSize * (frame.y + row) && step == lineSize * st
        invariant curY >= maxY <==> row >= frame.h
        invariant Wrap(frame.h, row, st, parse) == Wrap(frame.h, row0, step0, old(parse))
        invariant top >= row
        invariant Larger(top, Tried(frame.h, row, st, parse)) == Tried(frame.h, row0, step0, old(parse))
        decreases parse
      {
        WrapStep(frame.h, row, st, parse);
        st := NextPass();
        LargestSoFar(top, row, st / 2, Tried(frame.h, st / 2, st, parse));
        row := st / 2;
        top := Larger(top, row);
      }
      WrapStep(frame.h, row, st, parse);
      farthest := lineSize * (frame.y + top);
    }

    /** One pixel on; `farthest` is the largest offset of a row that is used or assigned. */
    method Advance(ghost c: Cursor) returns (ghost farthest: nat)
      requires Placed() && At(c) && frame.w > 0 && c.row < frame.h && c.parse <= 3
      modifies `curX, `curY, `step, `parse
      ensures At(GifRaster.Next(frame.w, frame.h, c))
      ensures farthest == lineSize * (frame.y + RowsTried(frame.w, frame.h, c))
    {
      hide Wrap, Tried;
      farthest := curY;
      curX := curX + 4;
      if curX >= maxX {
        curX := startX;
        Distribute(lineSize, frame.y + c.row, c.step);
        curY := curY + step;
        farthest := WrapRows(c.row + c.step, c.step);
      }
    }

    // ---------- painting ----------

    ghost predicate Painting()
      reads `frame, `lineSize, `startX, `startY, `maxX, `maxY, `curX, `curY, `step, `parse
      reads `colorTable, `base, `drawn, out, history
    {
      && Placed() && |colorTable| == 1024 && Fits(frame, base) && out != history
      && out.Length == |base.out| && history.Length == |base.history|
      && At(CursorAfter(frame, |drawn|))
      && Canvas(out[..], history[..]) == PutAll(frame, colorTable, base, drawn)
    }

    /** Whether the cursor is inside the frame, and which pixel it is at. */
    lemma CursorPixel()
      requires Painting()
      ensures var c := CursorAfter(frame, |drawn|);
              c.parse <= 3 && (curY < maxY <==> c.row < frame.h)
              && (c.row < frame.h ==> frame.w > 0 && curX + curY == 4 * PixelAt(frame, c.row, c.col)
                                      && PixelAt(frame, c.row, c.col) < history.Length)
    {
      hide PutAll, CursorAfter, Target, Fits, PixelAt;
      var c := CursorAfter(frame, |drawn|);
      PassesLeft(frame, |drawn|);
      CanvasSize();
      ByteOffset(frame, c.row, c.col);
      if frame.w == 0 {
        EmptyFrame(frame, |drawn|);
        MulMonotone(frame.y + frame.h, frame.y + c.row, lineSize);
      } else {
        RowTest(lineSize, frame.y, c.row, frame.h);
        if |drawn| < frame.w * frame.h { DrawnAt(frame, |drawn|); } else { NotDrawn(frame, |drawn|); }
      }
    }

    lemma CanvasSize()
      requires Painting()
      ensures history.Length == frame.gw * frame.gh && out.Length == 4 * history.Length
    {
    }

    /** Marks pixel `q` and gives it the colour of the last index of `code`. */
    method PaintPixel(code: nat, idx: nat, ghost q: nat)
      requires |colorTable| == 1024 && code < codes.Length && out != history
      requires q < history.Length && out.Length == 4 * history.Length && idx == 4 * q
      modifies out, history
      ensures Canvas(out[..], history[..]) ==
              Paint(colorTable, old(Canvas(out[..], history[..])), q, codes[code].suffix)
    {
      history[idx / 4] := 1;
      var c := 4 * codes[code].suffix;
      if colorTable[c + 3] > 128 {
        out[idx] := colorTable[c + 2];
        out[idx + 1] := colorTable[c + 1];
        out[idx + 2] := colorTable[c];
        out[idx + 3] := colorTable[c + 3];
      }
      assert history[..] == old(history[..])[q := 1];
      assert out[..] == old(out[..])[..4 * q] + Blend(colorTable, codes[code].suffix, PixelOf(old(out[..]), q))
                        + old(out[..])[4 * q + 4..];
    }

    /** Paints the last index of a code at the cursor, if that is inside the frame, and moves on. */
    method OutSuffix(code: nat)
      requires Painting() && code < codes.Length
      modifies `curX, `curY, `step, `parse, `drawn, out, history
      ensures Painting() && drawn == old(drawn) + [codes[code].suffix]
    {
      hide PutAll, CursorAfter, Fits, PixelAt, Paint;
      CursorPixel();
      CanvasSize();
      ghost var c := CursorAfter(frame, |drawn|);
      OneMore(frame, colorTable, base, drawn, codes[code].suffix);
      drawn := drawn + [codes[code].suffix];
      if curY >= maxY { return; }
      PaintPixel(code, curX + curY, PixelAt(frame, c.row, c.col));
      ghost var farthest := Advance(c);
    }

    /** A code paints its string: first the prefix, then the last index. */
    method OutGifCode(code: nat, ghost cs: nat, ghost dict: seq<seq<byte>>)
      requires Painting() && Chains(codes[..], cs, dict) && code < |dict| && IsString(cs, code)
      modifies `curX, `curY, `step, `parse, `drawn, out, history
      ensures Painting() && drawn == old(drawn) + dict[code]
      decreases code
    {
      hide IsString, PutAll, CursorAfter, Fits;
      assert Spelled(codes[..], cs, dict, code);
      if codes[code].prefix >= 0 { OutGifCode(codes[code].prefix, cs, dict); }
      OutSuffix(code);
    }

    // ---------- reading ----------

    /** The next byte; past the end of the buffer, zero. */
    method Get8() returns (b: byte)
      modifies `pos
      ensures b == ByteAt(data, old(pos)) && pos == PastByte(data, old(pos))
    {
      if pos < |data| {
        b := data[pos];
        pos := pos + 1;
      } else {
        b := 0;
      }
    }

    /** Passes over what is left of a sub-block and over the sub-blocks after it. */
    method SkipBlocks(n: nat)
      modifies `pos
      ensures (if pos < |data| then pos else |data|) == BlocksEnd(data, old(pos), n)
    {
      EndAfterSkip(data, pos, n);
      pos := pos + n;
      while true
        invariant BlocksEnd(data, pos, 0) == BlocksEnd(data, old(pos), n)
        decreases if pos < |data| then |data| - pos else 0
      {
        var len := Get8();
        if len == 0 { break; }
        EndAfterSkip(data, pos, len);
        pos := pos + len;
      }
    }

    // ---------- the dictionary ----------

    /** The first codes stand for single indices. */
    method InitCodes(cs: nat)
      requires cs <= 12 && codes.Length == MAX_CODES
      modifies codes
      ensures Chains(codes[..], cs, Fresh(cs))
    {
      FreshIsWellFormed(cs);
      var clear := Shl(1, cs);
      ShlValue(1, cs);
      var init := 0;
      while init < clear
        invariant init <= clear
        invariant forall i :: 0 <= i < init ==> codes[i] == Entry(-1, i % 256, i % 256)
      {
        codes[init] := Entry(-1, init % 256, init % 256);
        init := init + 1;
      }
    }

    /** Links the next free code to the code before `code`. */
    method Define(code: nat, avail: nat, prev: nat, ghost cs: nat, ghost l: Lzw)
      requires WellFormed(cs, l) && avail == |l.dict| < codes.Length && l.prev == Some(prev)
      requires code <= avail && IsString(cs, code)
      requires Chains(codes[..], cs, l.dict) && Chains(codes[..], cs, Fresh(cs))
      modifies codes
      ensures Chains(codes[..], cs, Extended(cs, l, code)) && Chains(codes[..], cs, Fresh(cs))
    {
      hide Chains, Strings, IsString, Fresh, FirstStrings, NewString;
      ghost var was := codes[..];
      codes[avail] := codes[avail].(prefix := prev);
      var first: byte := codes[prev].first;
      codes[avail] := codes[avail].(first := first);
      // The test compares with the counter after it was raised and always fails; when `code` is the
      // code being defined, its `first` is the one stored just above.
      var suffix: byte := codes[code].first;
      if code == avail + 1 { suffix := first; }
      codes[avail] := codes[avail].(suffix := suffix);
      assert codes[..] == was[avail := codes[avail]];
      FreshLength(cs);
      LinkAdds(was, cs, l.dict, prev, code, codes[avail]);
      FreshStays(was, cs, avail, codes[avail]);
    }

    // ---------- the raster ----------

    /** Takes a code that is neither the clear nor the end code. */
    method TakeCode(code: nat, avail: nat, oldcode: int, first: bool, ghost cs: nat, ghost l: Lzw)
      returns (refused: Option<Status>, avail': nat)
      requires WellFormed(cs, l) && IsString(cs, code) && codes.Length == MAX_CODES
      requires avail == |l.dict| && l.cleared == !first
      requires l.prev == if oldcode < 0 then None else Some(oldcode)
      requires Chains(codes[..], cs, l.dict) && Chains(codes[..], cs, Fresh(cs)) && Painting()
      modifies `curX, `curY, `step, `parse, `drawn, out, history, codes
      ensures refused == Refusal(cs, l, code)
      ensures Chains(codes[..], cs, Fresh(cs)) && Painting()
      ensures refused.Some? ==> drawn == old(drawn)
      ensures refused.None? ==>
                var dict := Extended(cs, l, code);
                avail' == |dict| && code < |dict| && Chains(codes[..], cs, dict) && drawn == old(drawn) + dict[code]
    {
      hide Chains, Strings, IsString, Fresh, FirstStrings, Painting, NewString;
      avail' := avail;
      if code <= avail {
        if first { return Some(NoClearCode), avail'; }
        if oldcode >= 0 {
          avail' := avail + 1;
          if avail' > 8192 { return Some(TooManyCodes), avail'; }
          Define(code, avail, oldcode, cs, l);
        } else if code == avail {
          return Some(IllegalCode), avail';
        }
        OutGifCode(code, cs, Extended(cs, l, code));
        refused := None;
      } else {
        refused := Some(IllegalCode);
      }
    }

    /** The buffered bits are the next of the payload, and its bytes after them are still to be read. */
    ghost predicate Reading(payload: seq<byte>, p: nat, bits: nat, validBits: nat, len: nat)
      reads `data, `pos
    {
      && bits == LsbVal(StreamOf(payload), p, validBits)
      && (p + validBits) % 8 == 0 && p + validBits <= 8 * |payload|
      && payload[(p + validBits) / 8..] == Rest(data, pos, len)
    }

    lemma StartReading()
      ensures Reading(Rest(data, pos, 0), 0, 0, 0, 0)
    {
    }

    /** Reads one more byte of the payload; `more` is false when the data ends instead. */
    method FetchByte(bits: nat, validBits: nat, len: nat, ghost payload: seq<byte>, ghost p: nat)
      returns (more: bool, bits': nat, validBits': nat, len': nat)
      requires Reading(payload, p, bits, validBits, len)
      modifies `pos
      ensures more ==> Reading(payload, p, bits', validBits', len') && validBits' == validBits + 8 && p + validBits' <= 8 * |payload|
                       && BlocksEnd(data, pos, len') == BlocksEnd(data, old(pos), len)
      ensures !more ==> p + validBits == 8 * |payload|
                        && (if pos < |data| then pos else |data|) == BlocksEnd(data, old(pos), len)
    {
      hide LsbVal, StreamOf, Shl;
      ghost var k := (p + validBits) / 8;
      len' := len;
      if len == 0 {
        len' := Get8();
        if len' == 0 { return false, bits, validBits, 0; }
      }
      assert payload[k..] == Rest(data, pos, len');
      ghost var at := pos;
      len' := len' - 1;
      var b := Get8();
      BytePassed(data, at, len');
      assert payload[k] == b && payload[k + 1..] == payload[k..][1..];
      AppendByte(payload, p, validBits, k);
      more, bits', validBits' := true, bits + Shl(b, validBits), validBits + 8;
    }

    /** The next code of `codesize` bits. */
    method TakeBits(bits: nat, validBits: nat, codesize: nat, ghost payload: seq<byte>, ghost p: nat, ghost len: nat)
      returns (code: nat, bits': nat, validBits': nat)
      requires Reading(payload, p, bits, validBits, len) && codesize <= validBits
      ensures code == LsbVal(StreamOf(payload), p, codesize) && validBits' == validBits - codesize
      ensures Reading(payload, p + codesize, bits', validBits', len)
    {
      hide LsbVal, StreamOf;
      code := bits % Pow2(codesize);
      LsbTake(StreamOf(payload), p, validBits, codesize);
      ShrIsDivision(bits, codesize);
      bits', validBits' := Shr(bits, codesize), validBits - codesize;
    }

    /** The local variables of the decoder stand for `l`. */
    ghost predicate Decoding(cs: nat, l: Lzw, codesize: nat, avail: nat, oldcode: int, first: bool)
      reads codes
    {
      && WellFormed(cs, l) && codes.Length == MAX_CODES
      && Chains(codes[..], cs, l.dict) && Chains(codes[..], cs, Fresh(cs))
      && codesize == l.width >= 1 && avail == |l.dict| && first == !l.cleared
      && l.prev == if oldcode < 0 then None else Some(oldcode)
    }

    /** The codes of the image data from `pos` on. */
    method DecodeRaster(cs: nat) returns (status: Status)
      requires cs <= 12 && Painting() && codes.Length == MAX_CODES && Chains(codes[..], cs, Fresh(cs))
      modifies `pos, `curX, `curY, `step, `parse, `drawn, out, history, codes
      ensures Painting()
      ensures status == Meaning(data, old(pos), cs).status
      ensures drawn == old(drawn) + Meaning(data, old(pos), cs).indices
      ensures status.Finished? ==> (if pos < |data| then pos else |data|) == BlocksEnd(data, old(pos), 0)
    {
      hide Painting, Chains, Strings, Fresh, FirstStrings, WellFormed, LsbVal, StreamOf, BlocksEnd, Reading, NewString,
        Run, Refusal, Extended, Rest;
      FreshIsWellFormed(cs);
      FreshLength(cs);
      ghost var payload := Rest(data, pos, 0);
      ghost var s, end := StreamOf(payload), 8 * |payload|;
      ghost var all := Run(s, end, 0, cs, Start(cs));
      ghost var p: nat, l := 0, Start(cs);
      ghost var done: seq<byte> := [];
      var clear := Shl(1, cs);
      ShlValue(1, cs);
      var first, codesize: nat, avail: nat, oldcode: int := true, cs + 1, clear + 2, -1;
      var bits: nat, validBits: nat, len: nat := 0, 0, 0;
      StartReading();
      assert [] + all.indices == all.indices;
      while true
        invariant Decoding(cs, l, codesize, avail, oldcode, first)
        invariant Reading(payload, p, bits, validBits, len) && p + validBits <= end
        invariant all == Prepend(done, Run(s, end, p, cs, l))
        invariant Painting() && drawn == old(drawn) + done
        invariant BlocksEnd(data, pos, len) == BlocksEnd(data, old(pos), 0)
        decreases end - p, end - p - validBits
      {
        if validBits < codesize {
          var more;
          more, bits, validBits, len := FetchByte(bits, validBits, len, payload, p);
          if !more {
            RunEnds(s, end, p, cs, l);
            return Finished;
          }
        } else {
          RunStep(s, end, p, cs, l, done);
          var code;
          code, bits, validBits := TakeBits(bits, validBits, codesize, payload, p, len);
          p := p + codesize;
          if code == clear {
            codesize, avail, oldcode, first := cs + 1, clear + 2, -1, false;
            l := Cleared(cs);
          } else if code == clear + 1 {
            SkipBlocks(len);
            return Finished;
          } else {
            var refused;
            refused, avail := TakeCode(code, avail, oldcode, first, cs, l);
            if refused.Some? { return refused.value; }
            if avail % Pow2(codesize) == 0 && avail <= 0x0FFF { codesize := codesize + 1; }
            oldcode := code;
            l := GifLzw.Next(cs, l, code);
            done := done + l.dict[code];
          }
        }
      }
    }

    /** Paints exactly the indices that the data stands for and reports its status; a code size over
        twelve is refused, and nothing is painted. */
    method ProcessGifRaster() returns (status: Option<Status>)
      requires Painting() && codes.Length == MAX_CODES
      modifies `pos, `curX, `curY, `step, `parse, `drawn, out, history, codes
      ensures Painting()
      ensures ByteAt(data, old(pos)) > 12 ==> status.None? && drawn == old(drawn)
      ensures ByteAt(data, old(pos)) <= 12 ==>
                var meant := Meaning(data, PastByte(data, old(pos)), ByteAt(data, old(pos)));
                status == Some(meant.status) && drawn == old(drawn) + meant.indices
                && (meant.status.Finished? ==>
                      (if pos < |data| then pos else |data|) == BlocksEnd(data, PastByte(data, old(pos)), 0))
    {
      hide Painting, Chains, Fresh, Meaning, BlocksEnd;
      var cs := Get8();
      if cs > 12 { return None; }
      InitCodes(cs);
      var finished := DecodeRaster(cs);
      status := Some(finished);
    }

    // ---------- one image ----------

    /** Puts the cursor on the first pixel of the rectangle; without columns, below it. */
    method PlaceFrame(f: Frame)
      requires InBounds(f) && f.gw == w
      modifies `lineSize, `startX, `startY, `maxX, `maxY, `curX, `curY, `step, `parse, `frame
      ensures frame == f && Placed() && At(FirstCursor(f))
    {
      frame := f;
      FrameOffsets(w * 4, f.y, f.h);
      lineSize := w * 4;
      startX := f.x * 4;
      startY := f.y * lineSize;
      maxX := startX + f.w * 4;
      maxY := startY + f.h * lineSize;
      curX := startX;
      curY := startY;
      if f.w == 0 { curY := maxY; }
      if f.interlaced {
        step := 8 * lineSize;
        parse := 3;
      } else {
        step := lineSize;
        parse := 0;
      }
    }

    /** Nothing is painted before the first code. */
    method StartPainting(f: Frame, table: seq<byte>)
      requires InBounds(f) && f.gw == w && |table| == 1024
      requires out != history && history.Length == f.gw * f.gh && out.Length == 4 * history.Length
      modifies `lineSize, `startX, `startY, `maxX, `maxY, `curX, `curY, `step, `parse
      modifies `colorTable, `frame, `base, `drawn
      ensures Painting() && drawn == [] && frame == f && colorTable == table && base == Canvas(out[..], history[..])
    {
      hide Placed, At, FirstCursor;
      PlaceFrame(f);
      colorTable := table;
      base, drawn := Canvas(out[..], history[..]), [];
    }

    /** Reads one image into the rectangle `f` of the picture.  Every pixel of the rectangle gets the
        index that the data has at its place in the drawing order, and no other pixel changes. */
    method LoadImage(f: Frame, table: Option<seq<byte>>) returns (r: Loaded)
      requires f.gw == w && f.gh == h && (table.Some? ==> |table.value| == 1024)
      requires Sized() && codes.Length == MAX_CODES
      modifies this, out, history, codes
      ensures data == old(data)
      ensures r.BadDescriptor? <==> f.x + f.w > w || f.y + f.h > h
      ensures r.MissingColorTable? <==> !r.BadDescriptor? && table.None?
      ensures r.BadCodeSize? <==> !r.BadDescriptor? && table.Some? && ByteAt(data, old(pos)) > 12
      ensures !r.Raster? ==> out[..] == old(out[..]) && history[..] == old(history[..])
      ensures r.Raster? ==>
                var meant := Meaning(data, PastByte(data, old(pos)), ByteAt(data, old(pos)));
                r.status == meant.status
                && forall q: nat :: q < history.Length ==>
                     PixelDone(f, table.value, old(Canvas(out[..], history[..])), Canvas(out[..], history[..]),
                               meant.indices, q)
      ensures r == Raster(Finished) ==>
                (if pos < |data| then pos else |data|) == BlocksEnd(data, PastByte(data, old(pos)), 0)
    {
      hide Meaning, PixelDone, Painting, PutAll, BlocksEnd;
      if f.x + f.w > w || f.y + f.h > h { return BadDescriptor; }
      if table.None? { return MissingColorTable; }
      StartPainting(f, table.value);
      var status := ProcessGifRaster();
      PaintingMeans();
      if status.None? { return BadCodeSize; }
      assert drawn == Meaning(data, PastByte(data, old(pos)), ByteAt(data, old(pos))).indices;
      forall q: nat | q < history.Length
        ensures PixelDone(frame, colorTable, base, Canvas(out[..], history[..]), drawn, q)
      {
        PaintedOnce(frame, colorTable, base, drawn, q);
      }
      r := Raster(status.value);
    }

    lemma PaintingMeans()
      requires Painting()
      ensures InBounds(frame) && |colorTable| == 1024 && Fits(frame, base) && |base.history| == history.Length
      ensures Canvas(out[..], history[..]) == PutAll(frame, colorTable, base, drawn)
      ensures drawn == [] ==> Canvas(out[..], history[..]) == base
    {
    }

    // ---------- between the images of an animation ----------

    /** Gives every marked pixel the bytes it has in `from`. */
    method CopyMarked(from: seq<byte>)
      requires Sized() && |from| == out.Length
      modifies out
      ensures forall i :: 0 <= i < out.Length ==> out[i] == if history[i / 4] != 0 then from[i] else old(out[i])
    {
      var pi := 0;
      while pi < history.Length
        invariant pi <= history.Length
        invariant forall i :: 0 <= i < out.Length ==>
                    out[i] == if i < 4 * pi && history[i / 4] != 0 then from[i] else old(out[i])
      {
        if history[pi] != 0 {
          out[4 * pi], out[4 * pi + 1] := from[4 * pi], from[4 * pi + 1];
          out[4 * pi + 2], out[4 * pi + 3] := from[4 * pi + 2], from[4 * pi + 3];
        }
        pi := pi + 1;
      }
    }

    /** Undoes the last frame in the way it asks for: 3 goes back to the picture before the last one, if
        there is one, 2 to the background, and anything else keeps what is shown. */
    method NextFrame(dispose: nat, twoBack: Option<seq<byte>>)
      requires Sized() && (twoBack.Some? ==> |twoBack.value| == out.Length)
      modifies out, history, background
      ensures Untouched()
      ensures forall i :: 0 <= i < out.Length ==>
                out[i] == if old(history[i / 4]) == 0 || (dispose != 2 && dispose != 3) then old(out[i])
                          else if dispose == 3 && twoBack.Some? then twoBack.value[i]
                          else old(background[i])
    {
      var how := if dispose == 3 && twoBack.None? then 2 else dispose;
      if how == 3 {
        CopyMarked(twoBack.value);
      } else if how == 2 {
        CopyMarked(background[..]);
      }
      forall i | 0 <= i < background.Length { background[i] := out[i]; }
      forall i | 0 <= i < history.Length { history[i] := 0; }
    }

    /** After the first frame, pixels it did not touch get the background color of the global table. */
    method FillBackground(pal: seq<byte>, bgIndex: byte) returns (pal': seq<byte>)
      requires Sized() && |pal| == 1024
      modifies out
      ensures forall q: nat :: q < history.Length ==>
                PixelOf(out[..], q) == if bgIndex > 0 && history[q] == 0 then BackgroundColor(pal, bgIndex)
                                       else old(PixelOf(out[..], q))
      ensures pal' == if bgIndex > 0 && exists q :: 0 <= q < history.Length && history[q] == 0 then pal[4 * bgIndex + 3 := 255] else pal
    {
      hide PixelOf, BackgroundColor;
      pal' := pal;
      if bgIndex == 0 { return; }
      var pi := 0;
      while pi < history.Length
        invariant pi <= history.Length
        invariant pal' == if exists q :: 0 <= q < pi && history[q] == 0 then pal[4 * bgIndex + 3 := 255] else pal
        invariant forall q: nat :: q < history.Length ==>
                    PixelOf(out[..], q) == if q < pi && history[q] == 0 then BackgroundColor(pal, bgIndex)
                                           else old(PixelOf(out[..], q))
      {
        if history[pi] == 0 {
          EntryOpaque(pal, pal', bgIndex);
          pal' := pal'[4 * bgIndex + 3 := 255];
          SetPixel(pi, pal'[4 * bgIndex..4 * bgIndex + 4]);
        }
        pi := pi + 1;
      }
    }

    lemma EntryOpaque(pal: seq<byte>, pal': seq<byte>, v: byte)
      requires |pal| == 1024 && (pal' == pal || pal' == pal[4 * v + 3 := 255])
      ensures pal'[4 * v + 3 := 255] == pal[4 * v + 3 := 255]
      ensures pal'[4 * v + 3 := 255][4 * v..4 * v + 4] == BackgroundColor(pal, v)
    {
    }

    method SetPixel(q: nat, rgba: seq<byte>)
      requires Sized() && q < history.Length && |rgba| == 4
      modifies out
      ensures forall p: nat :: p < history.Length ==> PixelOf(out[..], p) == if p == q then rgba else old(PixelOf(out[..], p))
    {
      out[4 * q], out[4 * q + 1], out[4 * q + 2], out[4 * q + 3] := rgba[0], rgba[1], rgba[2], rgba[3];
      forall p: nat | p < history.Length
        ensures PixelOf(out[..], p) == if p == q then rgba else old(PixelOf(out[..], p))
      {
        if p == q { assert PixelOf(out[..], q) == rgba; }
      }
    }

    /** An image that asks for disposal 2 is gone when the next frame begins: every pixel is again what
        it was, whatever was painted and whether or not the image was complete. */
    method LoadAndDispose(f: Frame, table: Option<seq<byte>>) returns (r: Loaded)
      requires f.gw == w && f.gh == h && (table.Some? ==> |table.value| == 1024)
      requires Sized() && codes.Length == MAX_CODES && Untouched()
      modifies this, out, history, codes, background
      ensures Untouched() && out[..] == old(out[..])
    {
      hide PixelDone, Meaning, BlocksEnd;
      r := LoadImage(f, table);
      if r.Raster? {
        UnmarkedKept(f, table.value, old(Canvas(out[..], history[..])), Canvas(out[..], history[..]),
                     Meaning(data, PastByte(data, old(pos)), ByteAt(data, old(pos))).indices);
      }
      NextFrame(2, None);
    }
  }

  /** Reading a payload byte leaves the rest, also where the input has ended. */
  lemma BytePassed(data: seq<byte>, pos: nat, len: nat)
    ensures Rest(data, pos, len + 1) == [ByteAt(data, pos)] + Rest(data, PastByte(data, pos), len)
    ensures BlocksEnd(data, pos, len + 1) == BlocksEnd(data, PastByte(data, pos), len)
  {
    if pos >= |data| {
      RestPastEnd(data, pos, len);
      EndPastEnd(data, pos, len);
      EndPastEnd(data, pos + 1, len);
    }
  }

  /** Where the byte after the one at `pos` is; the end of the buffer is never passed this way. */
  function PastByte(data: seq<byte>, pos: nat): nat
  {
    if pos < |data| then pos + 1 else pos
  }

  lemma FreshStays(codes: seq<Entry>, cs: nat, i: nat, e: Entry)
    requires Chains(codes, cs, Fresh(cs)) && |Fresh(cs)| <= i < |codes|
    ensures Chains(codes[i := e], cs, Fresh(cs))
  {
    hide Fresh, IsString;
    var dict := Fresh(cs);
    forall k: nat | k < |dict| && IsString(cs, k)
      ensures Spelled(codes[i := e], cs, dict, k)
    {
      SpelledStays(codes, codes[i := e], cs, dict, dict, k);
    }
  }

  /** Painting one more index puts it at the cursor and moves the cursor on. */
  lemma OneMore(f: Frame, table: seq<byte>, c: Canvas, xs: seq<byte>, v: byte)
    requires |table| == 1024 && Fits(f, c)
    ensures PutAll(f, table, c, xs + [v]) == Put(f, table, PutAll(f, table, c, xs), CursorAfter(f, |xs|), v)
    ensures CursorAfter(f, |xs + [v]|) == GifRaster.Next(f.w, f.h, CursorAfter(f, |xs|))
  {
    hide Put, Fits;
    assert (xs + [v])[..|xs|] == xs;
  }
}
