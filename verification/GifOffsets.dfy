/** Whether the byte offsets of the GIF cursor, signed 32-bit numbers in the source, can hold what is
    assigned to them while a rectangle is painted. */
module GifOffsets {
  import opened Bits
  import opened GifRaster
  import opened Sizes

  /** The farthest row that `stbi__gif` goes to: with passes the second multiple of four from the last
      row on, otherwise the row below the rectangle. */
  function FarthestRow(h: nat, interlaced: bool): nat
  {
    if interlaced then 4 * ((h + 7) / 4) else h
  }

  /** The byte offset of a row of the rectangle, and of the rows below it. */
  function RowOffset(f: Frame, row: nat): nat
  {
    4 * f.gw * (f.y + row)
  }

  /** The offsets used while pixel number `k` is painted and left. */
  ghost predicate OffsetsFit(f: Frame, k: nat)
  {
    var c := CursorAfter(f, k);
    && 4 * f.gw * c.step <= INT_MAX && 4 * PixelAt(f, c.row, c.col) + 3 <= INT_MAX
    && RowOffset(f, RowsTried(f.w, f.h, c)) <= INT_MAX
  }

  lemma RowOffsetMonotone(f: Frame, a: nat, b: nat)
    requires a <= b
    ensures RowOffset(f, a) <= RowOffset(f, b)
  {
    MulMonotone(f.y + a, f.y + b, 4 * f.gw);
  }

  /** The row after number `i` is looked for no farther than that ... */
  lemma TriedBelow(h: nat, interlaced: bool, i: nat)
    requires i < h
    ensures Tried(h, RowOrder(h, interlaced, i) + StepFor(h, interlaced, i), StepFor(h, interlaced, i),
                  ParseFor(h, interlaced, i)) <= FarthestRow(h, interlaced)
  {
    hide PassStart, Tried, FarthestRow;
    RowOrderInjective(h, interlaced, i);
    if interlaced {
      PassesInOrder(h);
      RowGrid(h, i);
      TriedFrom(h, RowOrder(h, true, i), StepFor(h, true, i), ParseFor(h, true, i));
    } else {
      TriedDown(h, i);
    }
  }

  lemma TriedDown(h: nat, i: nat)
    requires i < h
    ensures Tried(h, i + 1, 1, 0) <= FarthestRow(h, false)
  {
  }

  lemma RowGrid(h: nat, i: nat)
    requires i < h
    ensures StepFor(h, true, i) == 8 ==> RowOrder(h, true, i) % 4 == 0
  {
    hide PassStart;
    PassesInOrder(h);
    if i < PassStart(h, 1) {
      Fours(8 * i, 2 * i);
    } else if i < PassStart(h, 2) {
      Fours(4 + 8 * (i - PassStart(h, 1)), 1 + 2 * (i - PassStart(h, 1)));
    }
  }

  lemma Fours(row: nat, m: nat)
    requires row == 4 * m
    ensures row % 4 == 0
  {
    DivModUnique(row, 4, m, 0);
  }

  lemma TriedFrom(h: nat, row: nat, step: nat, parse: nat)
    requires row < h && parse <= 3 && step <= 8
    requires if step == 8 then row % 4 == 0 else step <= 4
    ensures Tried(h, row + step, step, parse) <= FarthestRow(h, true)
  {
    TriedUnfold(h);
    Multiples(h, row);
  }

  lemma Multiples(h: nat, row: nat)
    requires row < h
    ensures row % 4 == 0 ==> row + 8 <= FarthestRow(h, true)
    ensures row + 4 <= FarthestRow(h, true)
  {
  }

  lemma TriedUnfold(h: nat)
    ensures forall row: nat, step: nat {:trigger Tried(h, row, step, 3)} ::
              Tried(h, row, step, 3) == if row < h then row else Larger(row, Tried(h, 4, 8, 2))
    ensures forall row: nat, step: nat {:trigger Tried(h, row, step, 2)} ::
              Tried(h, row, step, 2) == if row < h then row else Larger(row, Tried(h, 2, 4, 1))
    ensures forall row: nat, step: nat {:trigger Tried(h, row, step, 1)} ::
              Tried(h, row, step, 1) == if row < h then row else Larger(row, 1)
    ensures forall row: nat, step: nat {:trigger Tried(h, row, step, 0)} :: Tried(h, row, step, 0) == row
  {
  }

  /** ... and after the last row of the first or of the second pass it is looked for there. */
  lemma FarthestTried(h: nat, interlaced: bool) returns (i: nat)
    requires h > 0
    ensures i < h
    ensures Tried(h, RowOrder(h, interlaced, i) + StepFor(h, interlaced, i), StepFor(h, interlaced, i),
                  ParseFor(h, interlaced, i)) >= FarthestRow(h, interlaced)
  {
    hide PassStart;
    PassesInOrder(h);
    i := h - 1;
    if interlaced {
      TriedUnfold(h);
      i := LastOfPass(h);
    }
  }

  /** The first pass has `p` rows, and so has the second one if the farthest row is one of its grid. */
  lemma PassRows(h: nat) returns (p: nat, second: bool)
    requires h > 0
    ensures FarthestRow(h, true) == 8 * p + (if second then 4 else 0)
    ensures p > 0 && (h + 7) / 8 == p && (second ==> (h + 3) / 8 == p)
  {
    var q, r := (h + 7) / 4, (h + 7) % 4;
    p, second := q / 2, q % 2 == 1;
    if second {
      DivModUnique(h + 7, 8, p, 4 + r);
      DivModUnique(h + 3, 8, p, r);
    } else {
      DivModUnique(h + 7, 8, p, r);
    }
  }

  lemma LastOfPass(h: nat) returns (i: nat)
    requires h > 0
    ensures i < PassStart(h, 2) && RowOrder(h, true, i) + 8 == FarthestRow(h, true)
  {
    hide FarthestRow;
    var p, second := PassRows(h);
    i := if second then 2 * p - 1 else p - 1;
  }

  /** The numbers of a row and of a column make the number of a pixel. */
  lemma CursorOf(f: Frame, i: nat, col: nat)
    requires i < f.h && col < f.w
    ensures f.w * i + col < f.w * f.h
    ensures CursorAfter(f, f.w * i + col) ==
            Cursor(col, RowOrder(f.h, f.interlaced, i), StepFor(f.h, f.interlaced, i), ParseFor(f.h, f.interlaced, i))
  {
    hide RowOrder, StepFor, ParseFor, CursorAfter, After;
    RankInRange(f.w, f.h, i, col);
    CursorAt(f.w, f.h, f.interlaced, i, col);
    CursorAfterIsAfter(f, f.w * i + col);
  }

  lemma RowsBelow(f: Frame, k: nat)
    requires f.w > 0 && k < f.w * f.h
    ensures RowsTried(f.w, f.h, CursorAfter(f, k)) <= FarthestRow(f.h, f.interlaced)
    ensures CursorAfter(f, k).step <= 8
  {
    hide RowOrder, ParseFor, CursorAfter, Tried, PassStart;
    IndexInRange(k, f.w, f.h);
    var i := k / f.w;
    CursorOf(f, i, k % f.w);
    RowOrderInjective(f.h, f.interlaced, i);
    TriedBelow(f.h, f.interlaced, i);
  }

  lemma FitsBefore(f: Frame, k: nat)
    requires InBounds(f) && f.w > 0 && k < f.w * f.h && f.gw <= 0xffff && 4 * f.gw * f.gh <= INT_MAX
    requires RowOffset(f, FarthestRow(f.h, f.interlaced)) <= INT_MAX
    ensures OffsetsFit(f, k)
  {
    hide CursorAfter, InFrame, PixelAt, RowsTried, RowOffset, FarthestRow, Target;
    RowsBelow(f, k);
    DrawnAt(f, k);
    RowOffsetMonotone(f, RowsTried(f.w, f.h, CursorAfter(f, k)), FarthestRow(f.h, f.interlaced));
    MulMonotone(CursorAfter(f, k).step, 8, 4 * f.gw);
  }

  lemma FarthestUsed(f: Frame) returns (k: nat)
    requires f.w > 0 && f.h > 0
    ensures k < f.w * f.h && RowsTried(f.w, f.h, CursorAfter(f, k)) >= FarthestRow(f.h, f.interlaced)
  {
    hide RowOrder, StepFor, ParseFor, CursorAfter, FarthestRow, Tried;
    var i := FarthestTried(f.h, f.interlaced);
    CursorOf(f, i, f.w - 1);
    k := f.w * i + (f.w - 1);
  }

  /** In a picture that passes the size test, everything fits while a rectangle is painted top down;
      with passes, everything fits exactly if the farthest row does. */
  lemma OffsetsFitIff(f: Frame)
    requires InBounds(f) && f.w > 0 && f.h > 0
    requires f.gw <= 0xffff && Mad3SizesValid(4, f.gw, f.gh, 0)
    ensures (forall k: nat :: k < f.w * f.h ==> OffsetsFit(f, k)) <==>
            (f.interlaced ==> RowOffset(f, FarthestRow(f.h, true)) <= INT_MAX)
  {
    hide CursorAfter, Mad3SizesValid, PixelAt, RowsTried;
    var farthest := FarthestRow(f.h, f.interlaced);
    Mad3Limits(4, f.gw, f.gh, 0);
    if !f.interlaced { MulMonotone(f.y + farthest, f.gh, 4 * f.gw); }
    if RowOffset(f, farthest) <= INT_MAX {
      forall k: nat | k < f.w * f.h
        ensures OffsetsFit(f, k)
      {
        FitsBefore(f, k);
      }
    } else {
      var k := FarthestUsed(f);
      RowOffsetMonotone(f, farthest, RowsTried(f.w, f.h, CursorAfter(f, k)));
      assert !OffsetsFit(f, k);
    }
  }

  /** A picture just below the limit: its rows from top to bottom fit, its four passes do not. */
  lemma PassesPastLimit()
    ensures Mad3SizesValid(4, 32767, 16384, 0)
    ensures forall k: nat :: k < 32767 * 16384 ==> OffsetsFit(Frame(32767, 16384, 0, 0, 32767, 16384, false), k)
    ensures exists k: nat :: k < 32767 * 16384 && !OffsetsFit(Frame(32767, 16384, 0, 0, 32767, 16384, true), k)
  {
    hide OffsetsFit;
    OffsetsFitIff(Frame(32767, 16384, 0, 0, 32767, 16384, false));
    OffsetsFitIff(Frame(32767, 16384, 0, 0, 32767, 16384, true));
  }
}
