/** The seven interlace passes of section 2.6 of RFC 2083 split every image, whatever its size. */
module Adam7 {
  import opened Bits

  const X_ORIG: seq<nat> := [0, 4, 0, 2, 0, 1, 0]
  const Y_ORIG: seq<nat> := [0, 0, 4, 0, 2, 0, 1]
  const X_SPC: seq<nat> := [8, 8, 4, 4, 2, 2, 1]
  const Y_SPC: seq<nat> := [8, 8, 8, 4, 4, 2, 2]

  /** How many columns, or rows, of an image of size `n` lie on the grid `orig`, `orig + spc`, ... */
  function Points(n: nat, orig: nat, spc: nat): nat
    requires orig < spc
  {
    (n - orig + spc - 1) / spc
  }

  function PassWidth(w: nat, p: nat): nat
    requires p < 7
  {
    Points(w, X_ORIG[p], X_SPC[p])
  }

  function PassHeight(h: nat, p: nat): nat
    requires p < 7
  {
    Points(h, Y_ORIG[p], Y_SPC[p])
  }

  function XAt(p: nat, i: nat): nat
    requires p < 7
  {
    i * X_SPC[p] + X_ORIG[p]
  }

  function YAt(p: nat, j: nat): nat
    requires p < 7
  {
    j * Y_SPC[p] + Y_ORIG[p]
  }

  /** The pass that holds the pixel in column `x` and row `y`. */
  function PassOf(x: nat, y: nat): (p: nat)
    ensures p < 7
  {
    if y % 2 == 1 then 6
    else if x % 2 == 1 then 5
    else if y % 4 == 2 then 4
    else if x % 4 == 2 then 3
    else if y % 8 == 4 then 2
    else if x % 8 == 4 then 1
    else 0
  }

  function ColumnOf(x: nat, y: nat): nat
  {
    x / X_SPC[PassOf(x, y)]
  }

  function LineOf(x: nat, y: nat): nat
  {
    y / Y_SPC[PassOf(x, y)]
  }

  lemma PointInside(n: nat, orig: nat, spc: nat, i: nat)
    requires orig < spc <= 8
    ensures i < Points(n, orig, spc) <==> i * spc + orig < n
  {
    var t := n - orig + spc - 1;
    var q := t / spc;
    assert t == spc * q + t % spc;
    if i < q {
      MulMonotone(i + 1, q, spc);
      Distribute(spc, i, 1);
    } else {
      MulMonotone(q, i, spc);
    }
  }

  lemma GridsAreOrdered(p: nat)
    requires p < 7
    ensures X_ORIG[p] < X_SPC[p] <= 8 && Y_ORIG[p] < Y_SPC[p] <= 8
  {
  }

  /** Every target of a pass is inside the image, and it is a pixel of that pass at that place. */
  lemma TargetIsOwn(w: nat, h: nat, p: nat, i: nat, j: nat)
    requires p < 7 && i < PassWidth(w, p) && j < PassHeight(h, p)
    ensures XAt(p, i) < w && YAt(p, j) < h
    ensures PassOf(XAt(p, i), YAt(p, j)) == p
    ensures ColumnOf(XAt(p, i), YAt(p, j)) == i && LineOf(XAt(p, i), YAt(p, j)) == j
  {
    GridsAreOrdered(p);
    PointInside(w, X_ORIG[p], X_SPC[p], i);
    PointInside(h, Y_ORIG[p], Y_SPC[p], j);
    OwnPass(p, i, j);
    DivModUnique(XAt(p, i), X_SPC[p], i, X_ORIG[p]);
    DivModUnique(YAt(p, j), Y_SPC[p], j, Y_ORIG[p]);
  }

  lemma OwnPass(p: nat, i: nat, j: nat)
    requires p < 7
    ensures PassOf(XAt(p, i), YAt(p, j)) == p
  {
    Multiples(i);
    Multiples(j);
  }

  lemma Multiples(i: nat)
    ensures (i * 2 + 1) % 2 == 1 && i * 2 % 2 == 0
    ensures (i * 4 + 2) % 4 == 2 && (i * 4 + 2) % 2 == 0 && i * 4 % 4 == 0 && i * 4 % 2 == 0
    ensures (i * 8 + 4) % 8 == 4 && (i * 8 + 4) % 4 == 0 && (i * 8 + 4) % 2 == 0
    ensures i * 8 % 8 == 0 && i * 8 % 4 == 0 && i * 8 % 2 == 0
  {
    DivModUnique(i * 2 + 1, 2, i, 1);
    DivModUnique(i * 2, 2, i, 0);
    DivModUnique(i * 4 + 2, 4, i, 2);
    DivModUnique(i * 4 + 2, 2, 2 * i + 1, 0);
    DivModUnique(i * 4, 4, i, 0);
    DivModUnique(i * 4, 2, 2 * i, 0);
    Residues(i * 8 + 4, i, 4);
    Residues(i * 8, i, 0);
  }

  /** Every pixel of the image is a target of its pass. */
  lemma PixelIsTarget(w: nat, h: nat, x: nat, y: nat)
    requires x < w && y < h
    ensures var p := PassOf(x, y);
            && ColumnOf(x, y) < PassWidth(w, p) && LineOf(x, y) < PassHeight(h, p)
            && XAt(p, ColumnOf(x, y)) == x && YAt(p, LineOf(x, y)) == y
  {
    var p := PassOf(x, y);
    GridsAreOrdered(p);
    OnGrid(x, y);
    PointInside(w, X_ORIG[p], X_SPC[p], ColumnOf(x, y));
    PointInside(h, Y_ORIG[p], Y_SPC[p], LineOf(x, y));
  }

  lemma OnGrid(x: nat, y: nat)
    ensures XAt(PassOf(x, y), ColumnOf(x, y)) == x && YAt(PassOf(x, y), LineOf(x, y)) == y
  {
    GridOf(x);
    GridOf(y);
  }

  /** What the tests in PassOf say about a coordinate. */
  lemma GridOf(x: nat)
    ensures x % 2 == 1 ==> x == 2 * (x / 2) + 1
    ensures x % 2 != 1 ==> x == 2 * (x / 2)
    ensures x % 4 == 2 ==> x == 4 * (x / 4) + 2
    ensures x % 2 != 1 && x % 4 != 2 ==> x == 4 * (x / 4)
    ensures x % 8 == 4 ==> x == 8 * (x / 8) + 4
    ensures x % 2 != 1 && x % 4 != 2 && x % 8 != 4 ==> x == 8 * (x / 8)
  {
    Residues(x, x / 8, x % 8);
  }

  /** The passes partition the image: each pixel is hit by exactly one (pass, column, row). */
  lemma PassesPartition(w: nat, h: nat, x: nat, y: nat, p: nat, i: nat, j: nat)
    requires x < w && y < h && p < 7
    ensures i < PassWidth(w, p) && j < PassHeight(h, p) && XAt(p, i) == x && YAt(p, j) == y
            <==> p == PassOf(x, y) && i == ColumnOf(x, y) && j == LineOf(x, y)
  {
    PixelIsTarget(w, h, x, y);
    if i < PassWidth(w, p) && j < PassHeight(h, p) { TargetIsOwn(w, h, p, i, j); }
  }

  // ---------- sizes ----------

  function Product(m: nat, n: nat): nat
  {
    m * n
  }

  function Area(w: nat, h: nat, p: nat): nat
    requires p < 7
  {
    Product(PassWidth(w, p), PassHeight(h, p))
  }

  function AreaSum(w: nat, h: nat, p: nat): nat
    requires p <= 7
  {
    if p == 0 then 0 else AreaSum(w, h, p - 1) + Area(w, h, p - 1)
  }

  /** Two passes side by side, or one above the other, make a finer grid. */
  lemma Widths(w: nat)
    ensures PassWidth(w, 0) + PassWidth(w, 1) == PassWidth(w, 2)
    ensures PassWidth(w, 2) + PassWidth(w, 3) == PassWidth(w, 4)
    ensures PassWidth(w, 4) + PassWidth(w, 5) == PassWidth(w, 6) == w
  {
    Eighths(w);
    Quarters(w);
    Halves(w);
  }

  lemma Heights(h: nat)
    ensures PassHeight(h, 0) == PassHeight(h, 1) && PassHeight(h, 1) + PassHeight(h, 2) == PassHeight(h, 3)
    ensures PassHeight(h, 3) + PassHeight(h, 4) == PassHeight(h, 5)
    ensures PassHeight(h, 5) + PassHeight(h, 6) == h
  {
    Eighths(h);
    Quarters(h);
    Halves(h);
  }

  /** The passes hold as many pixels as the image. */
  lemma AreasAddUp(w: nat, h: nat)
    ensures AreaSum(w, h, 7) == w * h
  {
    hide PassWidth, PassHeight;
    Widths(w);
    Heights(h);
    SumOfSeven(w, h);
    var a, b, c := PassHeight(h, 1), PassHeight(h, 3), PassHeight(h, 5);
    Distribute(a, PassWidth(w, 0), PassWidth(w, 1));
    Distribute(PassWidth(w, 2), a, PassHeight(h, 2));
    Distribute(b, PassWidth(w, 2), PassWidth(w, 3));
    Distribute(PassWidth(w, 4), b, PassHeight(h, 4));
    Distribute(c, PassWidth(w, 4), PassWidth(w, 5));
    Distribute(w, c, PassHeight(h, 6));
  }

  lemma SumNext(w: nat, h: nat, p: nat)
    requires p < 7
    ensures AreaSum(w, h, p + 1) == AreaSum(w, h, p) + Area(w, h, p)
  {
  }

  lemma SumOfSeven(w: nat, h: nat)
    ensures AreaSum(w, h, 7) == Area(w, h, 0) + Area(w, h, 1) + Area(w, h, 2) + Area(w, h, 3) + Area(w, h, 4)
                                + Area(w, h, 5) + Area(w, h, 6)
  {
    hide Area;
    SumNext(w, h, 0);
    SumNext(w, h, 1);
    SumNext(w, h, 2);
    SumNext(w, h, 3);
    SumNext(w, h, 4);
    SumNext(w, h, 5);
    SumNext(w, h, 6);
  }
}
