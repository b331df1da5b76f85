/** What a GIF image is in plain terms: the colors of its pixels from the table, the order in which they are
    drawn, what single codes mean, and one image byte by byte. */
module GifPlain {
  import opened BitPacking
  import opened Bits
  import opened GifEncoding
  import opened GifLzw
  import opened GifRaster
  import opened Wrappers

  // ---------- pixels ----------

  /** When a row of the rectangle is drawn.  Interlaced, as in Appendix E of GIF89a: every eighth row from 0, then
      every eighth from 4, every fourth from 2, and every second from 1. */
  lemma DrawingOrder(h: nat, row: nat)
    requires row < h
    ensures RowIndex(h, false, row) == row
    ensures row % 8 == 0 ==> RowIndex(h, true, row) == row / 8
    ensures row % 8 == 4 ==> RowIndex(h, true, row) == (h + 7) / 8 + row / 8
    ensures row % 4 == 2 ==> RowIndex(h, true, row) == (h + 7) / 8 + (h + 3) / 8 + row / 4
    ensures row % 2 == 1 ==> RowIndex(h, true, row) == (h + 7) / 8 + (h + 3) / 8 + (h + 1) / 4 + row / 2
  {
    Residues(row, row / 8, row % 8);
  }

  /** A pixel of the rectangle at byte `at` of the picture, drawn as number `k`: a transparent index, one whose
      alpha is at most 128, leaves its four bytes alone; any other gives it the color of its entry, which is
      stored blue first.  Either way the pixel is marked. */
  lemma DrawnPixel(f: Frame, table: seq<byte>, c: Canvas, c': Canvas, xs: seq<byte>, row: nat, col: nat, k: nat, at: nat)
    requires |table| == 1024 && InBounds(f) && Fits(f, c) && Fits(f, c') && row < f.h && col < f.w
    requires at == 4 * (f.gw * (f.y + row) + (f.x + col)) && k == f.w * RowIndex(f.h, f.interlaced, row) + col
    requires forall q: nat :: q < |c.history| ==> PixelDone(f, table, c, c', xs, q)
    ensures at + 4 <= |c.out| && at + 4 <= |c'.out|
    ensures k < |xs| ==>
              var entry := 4 * (xs[k] as nat);
              if table[entry + 3] <= 128 then c'.out[at..at + 4] == c.out[at..at + 4]
              else c'.out[at] == table[entry + 2] && c'.out[at + 1] == table[entry + 1] && c'.out[at + 2] == table[entry]
                   && c'.out[at + 3] == table[entry + 3]
    ensures k >= |xs| ==> c'.out[at..at + 4] == c.out[at..at + 4]
    ensures at / 4 < |c.history| && c'.history[at / 4] == if k < |xs| then 1 else c.history[at / 4]
  {
    hide RowIndex, PixelDone;
    PixelInside(f, row, col);
    var q := PixelAt(f, row, col);
    assert PixelDone(f, table, c, c', xs, q);
    DoneBytes(f, table, c, c', xs, q, k, at);
  }

  lemma DoneBytes(f: Frame, table: seq<byte>, c: Canvas, c': Canvas, xs: seq<byte>, q: nat, k: nat, at: nat)
    requires |table| == 1024 && Fits(f, c) && Fits(f, c') && q < |c.history| && at == 4 * q
    requires f.gw > 0 && InFrame(f, q) && Rank(f, q) == k && PixelDone(f, table, c, c', xs, q)
    ensures k < |xs| ==>
              var entry := 4 * (xs[k] as nat);
              if table[entry + 3] <= 128 then c'.out[at..at + 4] == c.out[at..at + 4]
              else c'.out[at] == table[entry + 2] && c'.out[at + 1] == table[entry + 1] && c'.out[at + 2] == table[entry]
                   && c'.out[at + 3] == table[entry + 3]
    ensures k >= |xs| ==> c'.out[at..at + 4] == c.out[at..at + 4]
    ensures c'.history[q] == if k < |xs| then 1 else c.history[q]
  {
    hide Rank, InFrame;
    var was, now := PixelOf(c.out, q), PixelOf(c'.out, q);
    assert now[0] == c'.out[at] && now[1] == c'.out[at + 1] && now[2] == c'.out[at + 2] && now[3] == c'.out[at + 3];
  }

  /** A pixel outside the rectangle keeps its four bytes. */
  lemma OtherPixel(f: Frame, table: seq<byte>, c: Canvas, c': Canvas, xs: seq<byte>, row: nat, col: nat, at: nat)
    requires |table| == 1024 && Fits(f, c) && Fits(f, c') && row < f.gh && col < f.gw
    requires row < f.y || f.y + f.h <= row || col < f.x || f.x + f.w <= col
    requires at == 4 * (f.gw * row + col)
    requires forall q: nat :: q < |c.history| ==> PixelDone(f, table, c, c', xs, q)
    ensures at + 4 <= |c.out| && at + 4 <= |c'.out| && c'.out[at..at + 4] == c.out[at..at + 4]
  {
    hide PixelDone;
    MulMonotone(row + 1, f.gh, f.gw);
    Distribute(f.gw, row, 1);
    var q := f.gw * row + col;
    DivModUnique(q, f.gw, row, col);
    assert PixelDone(f, table, c, c', xs, q);
    OutsideKept(f, table, c, c', xs, q);
  }

  lemma OutsideKept(f: Frame, table: seq<byte>, c: Canvas, c': Canvas, xs: seq<byte>, q: nat)
    requires |table| == 1024 && Fits(f, c) && Fits(f, c') && q < |c.history|
    requires PixelDone(f, table, c, c', xs, q) && !(f.gw > 0 && InFrame(f, q))
    ensures c'.out[4 * q..4 * q + 4] == c.out[4 * q..4 * q + 4]
  {
    hide InFrame;
  }

  // ---------- codes ----------

  /** Before the first code and after a clear code: one string for each index, two codes without one, and codes
      one bit wider than the least size. */
  lemma FirstState(cs: nat)
    requires cs <= 12
    ensures Start(cs).dict == Cleared(cs).dict && |Start(cs).dict| == Pow2(cs) + 2
    ensures forall k: nat :: k < Pow2(cs) ==> Start(cs).dict[k] == [k % 256]
    ensures Start(cs).prev == Cleared(cs).prev == None && !Start(cs).cleared && Cleared(cs).cleared
    ensures Start(cs).width == Cleared(cs).width == cs + 1
  {
  }

  /** What the decoder does with a code, `n` being the number of codes defined. */
  lemma CodeMeaning(s: Stream, end: nat, p: nat, cs: nat, l: Lzw, code: nat, n: nat)
    requires cs <= 12 && WellFormed(cs, l) && WellFormed(cs, Cleared(cs))
    requires p + l.width <= end && code == LsbVal(s, p, l.width) && n == |l.dict|
    ensures code == Pow2(cs) ==> Run(s, end, p, cs, l) == Run(s, end, p + l.width, cs, Cleared(cs))
    ensures code == Pow2(cs) + 1 ==> Run(s, end, p, cs, l) == Outcome([], Finished)
    ensures code != Pow2(cs) && code != Pow2(cs) + 1 ==>
              && (code > n ==> Run(s, end, p, cs, l) == Outcome([], IllegalCode))
              && (code <= n && !l.cleared ==> Run(s, end, p, cs, l) == Outcome([], NoClearCode))
              && (code == n && l.cleared && l.prev == None ==> Run(s, end, p, cs, l) == Outcome([], IllegalCode))
              && (code <= n && l.cleared && l.prev != None && n == 8192 ==> Run(s, end, p, cs, l) == Outcome([], TooManyCodes))
  {
    hide LsbVal, Fresh, FirstStrings, Strings;
    RunStep(s, end, p, cs, l, []);
  }

  /** A code that is taken paints its string; if another came before it, a new string is defined first: that one
      and the first index of this one.  Codes get wider when the next one would not fit, up to twelve bits. */
  lemma CodeTaken(s: Stream, end: nat, p: nat, cs: nat, l: Lzw, code: nat, n: nat) returns (l': Lzw)
    requires cs <= 12 && WellFormed(cs, l) && WellFormed(cs, Cleared(cs))
    requires p + l.width <= end && code == LsbVal(s, p, l.width) && n == |l.dict|
    requires code != Pow2(cs) && code != Pow2(cs) + 1 && l.cleared
    requires if l.prev == None then code < n else code <= n < 8192
    ensures WellFormed(cs, l') && code < |l'.dict| && l'.prev == Some(code) && l'.cleared && l'.dict[code] != []
    ensures l.prev == None ==> l'.dict == l.dict
    ensures l.prev != None ==> l.prev.value < n && l'.dict == l.dict + [l.dict[l.prev.value] + [l'.dict[code][0]]]
    ensures l'.width == if |l'.dict| % Pow2(l.width) == 0 && |l'.dict| < 4096 then l.width + 1 else l.width
    ensures var rest := Run(s, end, p + l.width, cs, l');
            Run(s, end, p, cs, l) == Outcome(l'.dict[code] + rest.indices, rest.status)
  {
    hide LsbVal, Fresh, FirstStrings;
    RunStep(s, end, p, cs, l, []);
    l' := GifLzw.Next(cs, l, code);
    var rest := Run(s, end, p + l.width, cs, l');
    assert [] + l'.dict[code] == l'.dict[code] && [] + Run(s, end, p, cs, l).indices == Run(s, end, p, cs, l).indices;
  }

  /** Sub-blocks: a length and so many bytes, up to a length of zero. */
  lemma SubBlock(data: seq<byte>, pos: nat, n: nat)
    requires pos + 1 + n <= |data| && n == data[pos]
    ensures n == 0 ==> Rest(data, pos, 0) == [] && BlocksEnd(data, pos, 0) == pos + 1
    ensures n > 0 ==> Rest(data, pos, 0) == data[pos + 1..pos + 1 + n] + Rest(data, pos + 1 + n, 0)
                      && BlocksEnd(data, pos, 0) == BlocksEnd(data, pos + 1 + n, 0)
  {
    if n > 0 { RestOfBlock(data, pos + 1, n); }
  }

  // ---------- one image, byte by byte ----------

  /** An image of one pixel with index 1: the clear code 4, the code 1 and the end code 5, three bits each. */
  lemma OnePixel()
    ensures Meaning([0x02, 0x4C, 0x01, 0x00], 0, 2) == Outcome([1], Finished)
  {
    hide Meaning, Written, Pack;
    var data: seq<byte> := [0x02, 0x4C, 0x01, 0x00];
    OnePixelEncodes();
    OnePixelWritten();
    OnePixelPacked();
    assert ImageData(2, [1]) == data;
    assert data[0..0 + |data|] == data;
    DecodingUndoesEncoding(2, [1], [1], data, 0);
    assert Limited(2, 0, [1]) by { assert Pow2(2) == 4; }
  }

  lemma OnePixelEncodes()
    ensures Encodes(2, Fresh(2), [1], [1])
  {
    assert Pow2(2) == 4;
    var codes: seq<nat>, xs: seq<byte> := [1], [1];
    assert Fresh(2)[1] == [1];
    assert codes[1..] == [] && xs[1..] == [];
  }

  function PixelBits(): seq<bool>
  {
    [false, false, true, true, false, false, true, false] + [true]
  }

  lemma OnePixelWritten()
    ensures Written(2, 0, [Clear(2)] + [1] + [Clear(2) + 1]) == PixelBits()
  {
    ThreeBitsWide();
    ThreeBits();
    var all := [Clear(2)] + [1] + [Clear(2) + 1];
    assert all == [4, 1, 5];
    assert all[1..] == [1, 5] && all[1..][1..] == [5] && all[1..][1..][1..] == [];
    assert Written(2, 1, [5]) == NumberBits(5, 3) + Written(2, 2, []);
    assert Written(2, 0, [1, 5]) == NumberBits(1, 3) + Written(2, 1, [5]);
  }

  lemma ThreeBitsWide()
    ensures Clear(2) == 4 && LeastWidth(Defined(2, 0), 1) == 3 && LeastWidth(Defined(2, 1), 1) == 3
  {
    Pow2Values();
    assert LeastWidth(6, 2) == 3;
  }

  lemma ThreeBits()
    ensures NumberBits(4, 3) == [false, false, true] && NumberBits(1, 3) == [true, false, false]
    ensures NumberBits(5, 3) == [true, false, true]
  {
    assert NumberBits(2, 2) == [false, true] && NumberBits(0, 2) == [false, false];
  }

  lemma OnePixelPacked()
    ensures Pack(PixelBits()) == [0x4C, 0x01]
  {
    hide ByteValue;
    var bits := PixelBits();
    var none: seq<bool> := [];
    assert bits[..8] == [false, false, true, true, false, false, true, false] && bits[8..] == [true];
    EightValue(false, false, true, true, false, false, true, false);
    assert [true] + none == [true];
    OneValue(true, none);
    assert ByteValue(none) == 0 by { NoValue(); }
    assert Pack([true]) == [PackByte([true])];
  }

  lemma NoValue()
    ensures ByteValue([]) == 0
  {
  }
}
