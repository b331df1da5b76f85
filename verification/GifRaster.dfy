/** Where the pixels of a GIF frame go: the order of rows, interlaced as in Appendix E of GIF89a or
    not, and the effect of painting a list of colour indices. */
module GifRaster {
  import opened Bits

  // ---------- the cursor, in pixels ----------

  /** `step` and `parse` are the row step of the current pass and the number of passes to come. */
  datatype Cursor = Cursor(col: nat, row: nat, step: nat, parse: nat)

  function StartCursor(interlaced: bool): Cursor
  {
    if interlaced then Cursor(0, 0, 8, 3) else Cursor(0, 0, 1, 0)
  }

  /** Goes on to the next pass while the row lies below the frame. */
  function Wrap(h: nat, row: nat, step: nat, parse: nat): (nat, nat, nat)
    decreases parse
  {
    if row >= h && parse > 0 then
      var step' := if parse == 1 then 2 else if parse == 2 then 4 else 8;
      Wrap(h, step' / 2, step', parse - 1)
    else (row, step, parse)
  }

  /** One pixel further; a cursor below the frame stays where it is. */
  function Next(w: nat, h: nat, c: Cursor): Cursor
  {
    if c.row >= h then c
    else if c.col + 1 < w then c.(col := c.col + 1)
    else
      var (row, step, parse) := Wrap(h, c.row + c.step, c.step, c.parse);
      Cursor(0, row, step, parse)
  }

  function Larger(a: nat, b: nat): (c: nat)
    ensures c >= a && c >= b && (c == a || c == b)
  {
    if a < b then b else a
  }

  /** The farthest row that is tried on the way to the next one. */
  function Tried(h: nat, row: nat, step: nat, parse: nat): (farthest: nat)
    ensures farthest >= row
    decreases parse
  {
    if row >= h && parse > 0 then
      var step' := if parse == 1 then 2 else if parse == 2 then 4 else 8;
      Larger(row, Tried(h, step' / 2, step', parse - 1))
    else row
  }

  /** The farthest row the cursor is on, or tries, while it goes one pixel further. */
  function RowsTried(w: nat, h: nat, c: Cursor): nat
  {
    if c.col + 1 < w then c.row else Tried(h, c.row + c.step, c.step, c.parse)
  }

  /** The cursor after `k` pixels. */
  function After(w: nat, h: nat, interlaced: bool, k: nat): Cursor
  {
    if k == 0 then StartCursor(interlaced) else Next(w, h, After(w, h, interlaced, k - 1))
  }

  // ---------- the order of rows ----------

  /** How many rows come before pass `p` (counted from zero) of an interlaced frame. */
  function PassStart(h: nat, p: nat): nat
    requires p <= 4
  {
    if p == 0 then 0
    else if p == 1 then (h + 7) / 8
    else if p == 2 then (h + 7) / 8 + (h + 3) / 8
    else if p == 3 then (h + 7) / 8 + (h + 3) / 8 + (h + 1) / 4
    else (h + 7) / 8 + (h + 3) / 8 + (h + 1) / 4 + h / 2
  }

  /** The row drawn as number `i`: every eighth from 0, every eighth from 4, every fourth from 2, and
      every second from 1. */
  function RowOrder(h: nat, interlaced: bool, i: nat): nat
  {
    if !interlaced then i
    else if i < PassStart(h, 1) then 8 * i
    else if i < PassStart(h, 2) then 4 + 8 * (i - PassStart(h, 1))
    else if i < PassStart(h, 3) then 2 + 4 * (i - PassStart(h, 2))
    else 1 + 2 * (i - PassStart(h, 3))
  }

  /** When a row is drawn. */
  function RowIndex(h: nat, interlaced: bool, row: nat): nat
  {
    if !interlaced then row
    else if row % 8 == 0 then row / 8
    else if row % 8 == 4 then PassStart(h, 1) + row / 8
    else if row % 4 == 2 then PassStart(h, 2) + row / 4
    else PassStart(h, 3) + row / 2
  }

  lemma PassesCoverFrame(h: nat)
    ensures PassStart(h, 4) == h
  {
    Eighths(h);
    Quarters(h);
    Halves(h);
  }

  lemma PassesInOrder(h: nat)
    ensures PassStart(h, 1) <= PassStart(h, 2) <= PassStart(h, 3) <= PassStart(h, 4) == h
  {
    PassesCoverFrame(h);
  }

  /** Row `m` of each pass lies in the frame exactly when the pass has that many rows. */
  lemma PassSizes(h: nat, m: nat)
    ensures PassStart(h, 1) <= PassStart(h, 2) <= PassStart(h, 3) <= PassStart(h, 4) == h
    ensures m < PassStart(h, 1) <==> 8 * m < h
    ensures m < PassStart(h, 2) - PassStart(h, 1) <==> 4 + 8 * m < h
    ensures m < PassStart(h, 3) - PassStart(h, 2) <==> 2 + 4 * m < h
    ensures m < h - PassStart(h, 3) <==> 1 + 2 * m < h
  {
    PassesInOrder(h);
  }

  /** The order of rows is a permutation: drawing row number i and asking when it is drawn gives i back. */
  lemma RowOrderInjective(h: nat, interlaced: bool, i: nat)
    requires i < h
    ensures RowOrder(h, interlaced, i) < h && RowIndex(h, interlaced, RowOrder(h, interlaced, i)) == i
  {
    hide PassStart;
    PassesInOrder(h);
    if interlaced {
      var m := if i < PassStart(h, 1) then i else if i < PassStart(h, 2) then i - PassStart(h, 1)
               else if i < PassStart(h, 3) then i - PassStart(h, 2) else i - PassStart(h, 3);
      PassSizes(h, m);
      GridRows(m);
    }
  }

  /** The rows of the four grids, and which numbers they have there. */
  lemma GridRows(m: nat)
    ensures 8 * m % 8 == 0 && 8 * m / 8 == m
    ensures (4 + 8 * m) % 8 == 4 && (4 + 8 * m) / 8 == m
    ensures (2 + 4 * m) % 8 != 0 && (2 + 4 * m) % 8 != 4 && (2 + 4 * m) % 4 == 2 && (2 + 4 * m) / 4 == m
    ensures (1 + 2 * m) % 8 != 0 && (1 + 2 * m) % 8 != 4 && (1 + 2 * m) % 4 != 2 && (1 + 2 * m) / 2 == m
  {
    Residues(8 * m, m, 0);
    Residues(4 + 8 * m, m, 4);
    Residues(2 + 4 * m, (2 + 4 * m) / 8, (2 + 4 * m) % 8);
    Residues(1 + 2 * m, (1 + 2 * m) / 8, (1 + 2 * m) % 8);
    DivModUnique(2 + 4 * m, 4, m, 2);
    DivModUnique(1 + 2 * m, 2, m, 1);
  }

  lemma GridOf(row: nat)
    ensures row % 8 == 0 ==> row == 8 * (row / 8)
    ensures row % 8 == 4 ==> row == 4 + 8 * (row / 8)
    ensures row % 4 == 2 ==> row == 2 + 4 * (row / 4)
    ensures row % 8 != 0 && row % 8 != 4 && row % 4 != 2 ==> row == 1 + 2 * (row / 2)
  {
    Residues(row, row / 8, row % 8);
  }

  lemma RowOrderSurjective(h: nat, interlaced: bool, row: nat)
    requires row < h
    ensures RowIndex(h, interlaced, row) < h && RowOrder(h, interlaced, RowIndex(h, interlaced, row)) == row
  {
    hide PassStart;
    PassesInOrder(h);
    if interlaced {
      GridOf(row);
      PassSizes(h, if row % 8 == 0 || row % 8 == 4 then row / 8 else if row % 4 == 2 then row / 4 else row / 2);
    }
  }

  function StepFor(h: nat, interlaced: bool, i: nat): nat
  {
    if !interlaced then 1 else if i < PassStart(h, 2) then 8 else if i < PassStart(h, 3) then 4 else 2
  }

  function ParseFor(h: nat, interlaced: bool, i: nat): nat
  {
    if !interlaced then 0 else if i < PassStart(h, 1) then 3 else if i < PassStart(h, 2) then 2
    else if i < PassStart(h, 3) then 1 else 0
  }

  /** The row after number `i` is number `i + 1`, skipping passes that have no rows. */
  lemma RowNext(h: nat, interlaced: bool, i: nat)
    requires i < h
    ensures var (row, step, parse) := Wrap(h, RowOrder(h, interlaced, i) + StepFor(h, interlaced, i),
                                           StepFor(h, interlaced, i), ParseFor(h, interlaced, i));
            if i + 1 < h then
              row == RowOrder(h, interlaced, i + 1) && step == StepFor(h, interlaced, i + 1)
              && parse == ParseFor(h, interlaced, i + 1)
            else row >= h
  {
    hide PassStart;
    if interlaced {
      WrapUnfold(h);
      PassSizes(h, 0);
      if i < PassStart(h, 1) {
        PassSizes(h, i + 1);
      } else if i < PassStart(h, 2) {
        PassSizes(h, i - PassStart(h, 1) + 1);
      } else if i < PassStart(h, 3) {
        PassSizes(h, i - PassStart(h, 2) + 1);
      } else {
        PassSizes(h, i - PassStart(h, 3) + 1);
      }
    }
  }

  lemma WrapUnfold(h: nat)
    ensures forall row: nat, step: nat {:trigger Wrap(h, row, step, 3)} ::
              Wrap(h, row, step, 3) == if row < h then (row, step, 3) else Wrap(h, 4, 8, 2)
    ensures forall row: nat, step: nat {:trigger Wrap(h, row, step, 2)} ::
              Wrap(h, row, step, 2) == if row < h then (row, step, 2) else Wrap(h, 2, 4, 1)
    ensures forall row: nat, step: nat {:trigger Wrap(h, row, step, 1)} ::
              Wrap(h, row, step, 1) == if row < h then (row, step, 1) else (1, 2, 0)
    ensures forall row: nat, step: nat {:trigger Wrap(h, row, step, 0)} :: Wrap(h, row, step, 0) == (row, step, 0)
  {
  }

  lemma AfterNext(w: nat, h: nat, interlaced: bool, k: nat)
    ensures After(w, h, interlaced, k + 1) == Next(w, h, After(w, h, interlaced, k))
    ensures After(w, h, interlaced, 0) == StartCursor(interlaced)
  {
  }

  /** The number of a pixel in a frame `w` pixels wide. */
  function Number(w: nat, i: nat, col: nat): nat
  {
    w * i + col
  }

  lemma NumberNext(w: nat, i: nat)
    requires w > 0
    ensures Number(w, i, w - 1) + 1 == Number(w, i + 1, 0) && Number(w, 0, 0) == 0
    ensures forall col: nat :: Number(w, i, col) + 1 == Number(w, i, col + 1)
  {
    Distribute(w, i, 1);
  }

  /** The first w * h pixels visit the rows in their order, each from left to right. */
  lemma {:induction false} CursorAt(w: nat, h: nat, interlaced: bool, i: nat, col: nat)
    requires i < h && col < w
    ensures After(w, h, interlaced, Number(w, i, col)) ==
            Cursor(col, RowOrder(h, interlaced, i), StepFor(h, interlaced, i), ParseFor(h, interlaced, i))
    decreases i, col
  {
    hide RowOrder, StepFor, ParseFor, PassStart, RowIndex, StartCursor, After, Number;
    NumberNext(w, i);
    if col > 0 {
      CursorAt(w, h, interlaced, i, col - 1);
      RowOrderInjective(h, interlaced, i);
      AfterNext(w, h, interlaced, Number(w, i, col - 1));
      assert Number(w, i, col - 1) + 1 == Number(w, i, (col - 1) + 1);
    } else if i > 0 {
      NumberNext(w, i - 1);
      CursorAt(w, h, interlaced, i - 1, w - 1);
      RowOrderInjective(h, interlaced, i - 1);
      RowNext(h, interlaced, i - 1);
      AfterNext(w, h, interlaced, Number(w, i - 1, w - 1));
    } else {
      AfterNext(w, h, interlaced, 0);
      FirstRow(h, interlaced);
    }
  }

  lemma FirstRow(h: nat, interlaced: bool)
    requires h > 0
    ensures StartCursor(interlaced) == Cursor(0, RowOrder(h, interlaced, 0), StepFor(h, interlaced, 0), ParseFor(h, interlaced, 0))
  {
  }

  /** After all pixels the cursor is below the frame and stays there. */
  lemma {:induction false} CursorDone(w: nat, h: nat, interlaced: bool, k: nat)
    requires w > 0 && k >= w * h
    ensures After(w, h, interlaced, k).row >= h
    decreases k
  {
    hide After, RowOrder, StepFor, ParseFor, PassStart, RowIndex;
    if k > w * h {
      AfterNext(w, h, interlaced, k - 1);
      CursorDone(w, h, interlaced, k - 1);
    } else if h > 0 {
      LastNumber(w, h);
      CursorAt(w, h, interlaced, h - 1, w - 1);
      RowOrderInjective(h, interlaced, h - 1);
      RowNext(h, interlaced, h - 1);
      AfterNext(w, h, interlaced, k - 1);
    }
  }

  lemma LastNumber(w: nat, h: nat)
    requires w > 0 && h > 0
    ensures Number(w, h - 1, w - 1) + 1 == w * h
  {
    Distribute(w, h - 1, 1);
  }

  // ---------- the frame rectangle ----------

  /** A frame of `w` x `h` pixels at (`x`, `y`) of an image that is `gw` x `gh` pixels. */
  datatype Frame = Frame(gw: nat, gh: nat, x: nat, y: nat, w: nat, h: nat, interlaced: bool)

  predicate InBounds(f: Frame)
  {
    f.x + f.w <= f.gw && f.y + f.h <= f.gh
  }

  /** The number of the pixel in column `col` and row `row` of the frame. */
  function PixelAt(f: Frame, row: nat, col: nat): nat
  {
    f.gw * (f.y + row) + (f.x + col)
  }

  predicate InFrame(f: Frame, q: nat)
    requires f.gw > 0
  {
    f.y <= q / f.gw < f.y + f.h && f.x <= q % f.gw < f.x + f.w
  }

  /** The pixel drawn as number `k`. */
  function Target(f: Frame, k: nat): nat
    requires f.w > 0
  {
    PixelAt(f, RowOrder(f.h, f.interlaced, k / f.w), k % f.w)
  }

  /** When a pixel of the frame is drawn. */
  function Rank(f: Frame, q: nat): nat
    requires f.gw > 0 && InFrame(f, q)
  {
    f.w * RowIndex(f.h, f.interlaced, q / f.gw - f.y) + (q % f.gw - f.x)
  }

  lemma PixelInside(f: Frame, row: nat, col: nat)
    requires InBounds(f) && row < f.h && col < f.w
    ensures PixelAt(f, row, col) < f.gw * f.gh
    ensures PixelAt(f, row, col) / f.gw == f.y + row && PixelAt(f, row, col) % f.gw == f.x + col
    ensures InFrame(f, PixelAt(f, row, col))
  {
    DivModUnique(PixelAt(f, row, col), f.gw, f.y + row, f.x + col);
    MulMonotone(f.y + row + 1, f.gh, f.gw);
    Distribute(f.gw, f.y + row, 1);
  }

  lemma PixelBack(f: Frame, q: nat)
    requires f.gw > 0 && InFrame(f, q)
    ensures PixelAt(f, q / f.gw - f.y, q % f.gw - f.x) == q
  {
  }

  lemma IndexInRange(k: nat, w: nat, h: nat)
    requires w > 0 && k < w * h
    ensures k / w < h && k % w < w && k == w * (k / w) + k % w
  {
    if k / w >= h { MulMonotone(h, k / w, w); }
  }

  lemma RankInRange(w: nat, h: nat, i: nat, col: nat)
    requires i < h && col < w
    ensures w * i + col < w * h
  {
    MulMonotone(i + 1, h, w);
    Distribute(w, i, 1);
  }

  /** The first w * h pixels drawn are w * h different pixels of the frame ... */
  lemma TargetInjective(f: Frame, k: nat)
    requires InBounds(f) && k < f.w * f.h && f.w > 0
    ensures Target(f, k) < f.gw * f.gh && InFrame(f, Target(f, k)) && Rank(f, Target(f, k)) == k
  {
    hide PixelAt, RowOrder, RowIndex, InFrame;
    IndexInRange(k, f.w, f.h);
    var row, col := RowOrder(f.h, f.interlaced, k / f.w), k % f.w;
    RowOrderInjective(f.h, f.interlaced, k / f.w);
    PixelInside(f, row, col);
  }

  /** ... and each pixel of the frame is one of them. */
  lemma TargetSurjective(f: Frame, q: nat)
    requires InBounds(f) && f.w > 0 && InFrame(f, q)
    ensures Rank(f, q) < f.w * f.h && Target(f, Rank(f, q)) == q
  {
    hide RowOrder, RowIndex, PixelAt;
    PixelBack(f, q);
    var row, col := q / f.gw - f.y, q % f.gw - f.x;
    RowOrderSurjective(f.h, f.interlaced, row);
    var i := RowIndex(f.h, f.interlaced, row);
    RankInRange(f.w, f.h, i, col);
    DivModUnique(f.w * i + col, f.w, i, col);
  }

  // ---------- painting ----------

  /** Four bytes a pixel in `out`; `history` marks the pixels the frame has touched. */
  datatype Canvas = Canvas(out: seq<byte>, history: seq<byte>)

  predicate Fits(f: Frame, c: Canvas)
  {
    |c.history| == f.gw * f.gh && |c.out| == 4 * |c.history|
  }

  function PixelOf(out: seq<byte>, q: nat): seq<byte>
    requires 4 * q + 4 <= |out|
  {
    out[4 * q..4 * q + 4]
  }

  /** The colour a pixel gets: entry `v` of the table in reverse byte order, unless it is transparent. */
  function Blend(table: seq<byte>, v: byte, was: seq<byte>): (rgba: seq<byte>)
    requires |table| == 1024 && |was| == 4
    ensures |rgba| == 4
  {
    if table[4 * v + 3] > 128 then [table[4 * v + 2], table[4 * v + 1], table[4 * v], table[4 * v + 3]] else was
  }

  function Paint(table: seq<byte>, c: Canvas, q: nat, v: byte): (c': Canvas)
    requires |table| == 1024 && q < |c.history| && |c.out| == 4 * |c.history|
    ensures |c'.history| == |c.history| && |c'.out| == |c.out|
  {
    Canvas(c.out[..4 * q] + Blend(table, v, PixelOf(c.out, q)) + c.out[4 * q + 4..], c.history[q := 1])
  }

  lemma PaintPixel(table: seq<byte>, c: Canvas, q: nat, v: byte, p: nat)
    requires |table| == 1024 && q < |c.history| && |c.out| == 4 * |c.history| && p < |c.history|
    ensures PixelOf(Paint(table, c, q, v).out, p) ==
            if p == q then Blend(table, v, PixelOf(c.out, q)) else PixelOf(c.out, p)
  {
    hide Blend;
    var out := Paint(table, c, q, v).out;
    if p < q {
      assert out[4 * p..4 * p + 4] == c.out[4 * p..4 * p + 4];
    } else if p > q {
      assert out[4 * p..4 * p + 4] == c.out[4 * p..4 * p + 4];
    }
  }

  /** A frame without columns starts below its last row, so that nothing is drawn. */
  function FirstCursor(f: Frame): Cursor
  {
    if f.w == 0 then StartCursor(f.interlaced).(row := f.h) else StartCursor(f.interlaced)
  }

  function CursorAfter(f: Frame, k: nat): Cursor
  {
    if k == 0 then FirstCursor(f) else Next(f.w, f.h, CursorAfter(f, k - 1))
  }

  /** Draws one index at the cursor, if that is inside the frame.  (A pixel of the frame is always one
      of the canvas: DrawnAt.) */
  function Put(f: Frame, table: seq<byte>, c: Canvas, at: Cursor, v: byte): (c': Canvas)
    requires |table| == 1024 && Fits(f, c)
    ensures Fits(f, c')
  {
    if at.row < f.h && PixelAt(f, at.row, at.col) < |c.history| then Paint(table, c, PixelAt(f, at.row, at.col), v) else c
  }

  function PutAll(f: Frame, table: seq<byte>, c: Canvas, xs: seq<byte>): (c': Canvas)
    requires |table| == 1024 && Fits(f, c)
    ensures Fits(f, c')
  {
    if xs == [] then c
    else Put(f, table, PutAll(f, table, c, xs[..|xs| - 1]), CursorAfter(f, |xs| - 1), xs[|xs| - 1])
  }

  lemma {:induction false} CursorAfterIsAfter(f: Frame, k: nat)
    requires f.w > 0
    ensures CursorAfter(f, k) == After(f.w, f.h, f.interlaced, k)
  {
    if k > 0 { CursorAfterIsAfter(f, k - 1); }
  }

  /** Where pixel number `k` goes ... */
  lemma DrawnAt(f: Frame, k: nat)
    requires InBounds(f) && f.w > 0 && k < f.w * f.h
    ensures CursorAfter(f, k).row < f.h && CursorAfter(f, k).col < f.w
    ensures PixelAt(f, CursorAfter(f, k).row, CursorAfter(f, k).col) == Target(f, k) < f.gw * f.gh
  {
    hide After, RowOrder, StepFor, ParseFor, InFrame, RowIndex, PixelAt, CursorAfter;
    CursorAfterIsAfter(f, k);
    TargetInjective(f, k);
    IndexInRange(k, f.w, f.h);
    CursorAt(f.w, f.h, f.interlaced, k / f.w, k % f.w);
    RowOrderInjective(f.h, f.interlaced, k / f.w);
  }

  /** ... and that the ones after the last go nowhere. */
  lemma NotDrawn(f: Frame, k: nat)
    requires f.w > 0 && k >= f.w * f.h
    ensures CursorAfter(f, k).row >= f.h
  {
    CursorAfterIsAfter(f, k);
    CursorDone(f.w, f.h, f.interlaced, k);
  }

  lemma {:induction false} EmptyFrame(f: Frame, k: nat)
    requires f.w == 0
    ensures CursorAfter(f, k).row >= f.h
  {
    if k > 0 { EmptyFrame(f, k - 1); }
  }

  /** Pixel `q` after `xs` has been drawn on `c`, `k` being when it is drawn. */
  ghost predicate PixelDone(f: Frame, table: seq<byte>, c: Canvas, c': Canvas, xs: seq<byte>, q: nat)
    requires |table| == 1024 && Fits(f, c) && Fits(f, c') && q < |c.history|
  {
    if f.gw > 0 && InFrame(f, q) && Rank(f, q) < |xs| then
      c'.history[q] == 1 && PixelOf(c'.out, q) == Blend(table, xs[Rank(f, q)], PixelOf(c.out, q))
    else
      c'.history[q] == c.history[q] && PixelOf(c'.out, q) == PixelOf(c.out, q)
  }

  /** Each pixel of the frame is painted exactly once, with the index at its place in the drawing
      order; indices past the end of the frame are dropped; nothing outside the frame changes. */
  lemma {:induction false} PaintedOnce(f: Frame, table: seq<byte>, c: Canvas, xs: seq<byte>, q: nat)
    requires |table| == 1024 && InBounds(f) && Fits(f, c) && q < |c.history|
    ensures PixelDone(f, table, c, PutAll(f, table, c, xs), xs, q)
    decreases |xs|
  {
    hide InFrame, Rank, PixelAt, Blend, PixelOf, CursorAfter, Paint, Target;
    if xs != [] {
      var k := |xs| - 1;
      var before := PutAll(f, table, c, xs[..k]);
      PaintedOnce(f, table, c, xs[..k], q);
      if f.w == 0 {
        EmptyFrame(f, k);
        NotInEmptyFrame(f, q);
      } else {
        RankBelow(f, q);
        if k >= f.w * f.h {
          NotDrawn(f, k);
        } else {
          DrawnAt(f, k);
          TargetInjective(f, k);
          PaintHistory(table, before, Target(f, k), xs[k]);
          PaintPixel(table, before, Target(f, k), xs[k], q);
        }
      }
    }
  }

  lemma PaintHistory(table: seq<byte>, c: Canvas, q: nat, v: byte)
    requires |table| == 1024 && q < |c.history| && |c.out| == 4 * |c.history|
    ensures Paint(table, c, q, v).history == c.history[q := 1]
  {
  }

  lemma NotInEmptyFrame(f: Frame, q: nat)
    requires f.w == 0
    ensures f.gw > 0 ==> !InFrame(f, q)
  {
  }

  lemma RankBelow(f: Frame, q: nat)
    requires InBounds(f) && f.w > 0
    ensures f.gw > 0 && (InFrame(f, q) ==> Rank(f, q) < f.w * f.h && Target(f, Rank(f, q)) == q)
  {
    hide InFrame, Rank, Target;
    if InFrame(f, q) { TargetSurjective(f, q); }
  }

  /** A pixel that is not marked afterwards was not painted. */
  lemma UnmarkedKept(f: Frame, table: seq<byte>, c: Canvas, c': Canvas, xs: seq<byte>)
    requires |table| == 1024 && Fits(f, c) && Fits(f, c')
    requires forall q: nat :: q < |c.history| ==> PixelDone(f, table, c, c', xs, q)
    ensures forall i: nat :: i < |c.out| && c'.history[i / 4] == 0 ==> c'.out[i] == c.out[i]
  {
    forall i: nat | i < |c.out| && c'.history[i / 4] == 0
      ensures c'.out[i] == c.out[i]
    {
      var q := i / 4;
      assert PixelDone(f, table, c, c', xs, q);
      assert PixelOf(c'.out, q)[i - 4 * q] == c'.out[i] && PixelOf(c.out, q)[i - 4 * q] == c.out[i];
    }
  }

  // ---------- the background ----------

  /** The entry as it is stored, blue first. */
  function BackgroundColor(pal: seq<byte>, v: byte): (rgba: seq<byte>)
    requires |pal| == 1024
    ensures |rgba| == 4
  {
    [pal[4 * v], pal[4 * v + 1], pal[4 * v + 2], 255]
  }

  /** The background is filled in the order of the table, but images are painted in the reverse order:
      the two give one color exactly if its red and blue are the same. */
  lemma BackgroundIsPaintedIff(pal: seq<byte>, v: byte, was: seq<byte>)
    requires |pal| == 1024 && |was| == 4
    ensures BackgroundColor(pal, v) == Blend(pal[4 * v + 3 := 255], v, was) <==> pal[4 * v] == pal[4 * v + 2]
  {
    assert BackgroundColor(pal, v)[0] == pal[4 * v];
  }
}
