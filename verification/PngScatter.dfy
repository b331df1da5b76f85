/** Copying the pixels of an interlace pass to their places in the whole image. */
module PngScatter {
  import opened Adam7
  import opened Bits
  import opened PngAlpha
  import opened PngRows

  /** Where the pixel in column `x` and row `y` begins in an image `w` pixels wide. */
  function Spot(m: nat, w: nat, x: nat, y: nat): nat
  {
    Off(Off(m, w), y) + Off(m, x)
  }

  lemma SpotInside(m: nat, w: nat, h: nat, x: nat, y: nat)
    requires x < w && y < h
    ensures Off(m, x) + m <= Off(m, w)
    ensures Spot(m, w, x, y) + m <= Off(Off(m, w), y) + Off(m, w) <= Off(Off(m, w), h)
  {
    hide Off;
    PixelsApart(m, x, w);
    PixelsApart(Off(m, w), y, h);
  }

  lemma SpotsApart(m: nat, w: nat, x: nat, y: nat, x': nat, y': nat)
    requires x < w && x' < w && (x != x' || y != y')
    ensures Spot(m, w, x, y) + m <= Spot(m, w, x', y') || Spot(m, w, x', y') + m <= Spot(m, w, x, y)
  {
    hide Off;
    PixelsApart(m, x, w);
    PixelsApart(m, x', w);
    if y < y' {
      PixelsApart(Off(m, w), y, y');
    } else if y' < y {
      PixelsApart(Off(m, w), y', y);
    } else if x < x' {
      PixelsApart(m, x, x');
    } else {
      PixelsApart(m, x', x);
    }
  }

  lemma SpotIs(m: nat, w: nat, x: nat, y: nat)
    ensures Spot(m, w, x, y) == (y * w + x) * m == y * w * m + x * m
  {
    Distribute(m, y * w, x);
    assert m * w * y == y * w * m;
  }

  function PixelOf(image: seq<byte>, m: nat, w: nat, x: nat, y: nat): seq<byte>
    requires Spot(m, w, x, y) + m <= |image|
  {
    image[Spot(m, w, x, y)..Spot(m, w, x, y) + m]
  }

  /** Pixel (`x`, `y`) after a part of pass `p` has been copied: `j` lines and `i` pixels of the next one. */
  ghost predicate Copied(was: seq<byte>, out: seq<byte>, image: seq<byte>, m: nat, w: nat, pw: nat, p: nat, i: nat, j: nat,
                         x: nat, y: nat)
  {
    var line, column := LineOf(x, y), ColumnOf(x, y);
    && Spot(m, w, x, y) + m <= |was| == |out|
    && if PassOf(x, y) == p && (line < j || (line == j && column < i)) then
         Spot(m, pw, column, line) + m <= |image|
         && PixelOf(out, m, w, x, y) == PixelOf(image, m, pw, column, line)
       else PixelOf(out, m, w, x, y) == PixelOf(was, m, w, x, y)
  }

  ghost predicate AllCopied(was: seq<byte>, out: seq<byte>, image: seq<byte>, m: nat, w: nat, h: nat, pw: nat, p: nat,
                            i: nat, j: nat)
  {
    forall x: nat, y: nat :: x < w && y < h ==> Copied(was, out, image, m, w, pw, p, i, j, x, y)
  }

  lemma NothingCopied(was: seq<byte>, image: seq<byte>, m: nat, w: nat, h: nat, pw: nat, p: nat)
    requires |was| == Off(Off(m, w), h)
    ensures AllCopied(was, was, image, m, w, h, pw, p, 0, 0)
  {
    hide Off, Spot, PassOf, LineOf, ColumnOf;
    forall x: nat, y: nat | x < w && y < h
      ensures Copied(was, was, image, m, w, pw, p, 0, 0, x, y)
    {
      SpotInside(m, w, h, x, y);
    }
  }

  /** One pixel more. */
  lemma CopyStep(was: seq<byte>, before: seq<byte>, out: seq<byte>, image: seq<byte>, m: nat, w: nat, h: nat, p: nat,
                 i: nat, j: nat, x: nat, y: nat)
    requires p < 7 && i < PassWidth(w, p) && j < PassHeight(h, p) && x < w && y < h
    requires |before| == |was| == Off(Off(m, w), h)
    requires Copied(was, before, image, m, w, PassWidth(w, p), p, i, j, x, y)
    requires XAt(p, i) < w && YAt(p, j) < h
    requires var s, t := Spot(m, w, XAt(p, i), YAt(p, j)), Spot(m, PassWidth(w, p), i, j);
             && s + m <= |before| && t + m <= |image|
             && out == before[..s] + image[t..t + m] + before[s + m..]
    ensures Copied(was, out, image, m, w, PassWidth(w, p), p, i + 1, j, x, y)
  {
    hide Off, Spot, PassOf, LineOf, ColumnOf, PassWidth, PassHeight, XAt, YAt;
    var s := Spot(m, w, XAt(p, i), YAt(p, j));
    var c := Spot(m, w, x, y);
    SpotInside(m, w, h, x, y);
    TargetIsOwn(w, h, p, i, j);
    PixelIsTarget(w, h, x, y);
    if x == XAt(p, i) && y == YAt(p, j) {
      assert out[s..s + m] == image[Spot(m, PassWidth(w, p), i, j)..Spot(m, PassWidth(w, p), i, j) + m];
    } else {
      SpotsApart(m, w, x, y, XAt(p, i), YAt(p, j));
      assert out[c..c + m] == before[c..c + m];
    }
  }

  lemma CopySteps(was: seq<byte>, before: seq<byte>, out: seq<byte>, image: seq<byte>, m: nat, w: nat, h: nat, p: nat,
                  i: nat, j: nat)
    requires p < 7 && i < PassWidth(w, p) && j < PassHeight(h, p)
    requires |before| == |was| == Off(Off(m, w), h)
    requires AllCopied(was, before, image, m, w, h, PassWidth(w, p), p, i, j)
    requires XAt(p, i) < w && YAt(p, j) < h
    requires var s, t := Spot(m, w, XAt(p, i), YAt(p, j)), Spot(m, PassWidth(w, p), i, j);
             && s + m <= |before| && t + m <= |image|
             && out == before[..s] + image[t..t + m] + before[s + m..]
    ensures AllCopied(was, out, image, m, w, h, PassWidth(w, p), p, i + 1, j)
  {
    hide Off, Spot, PassOf, LineOf, ColumnOf, PassWidth, PassHeight, XAt, YAt, Copied;
    var i', pw := i + 1, PassWidth(w, p);
    forall x: nat, y: nat | x < w && y < h
      ensures Copied(was, out, image, m, w, pw, p, i', j, x, y)
    {
      CopyStep(was, before, out, image, m, w, h, p, i, j, x, y);
    }
  }

  /** A whole line more. */
  lemma LineCopied(was: seq<byte>, out: seq<byte>, image: seq<byte>, m: nat, w: nat, h: nat, p: nat, j: nat)
    requires p < 7 && AllCopied(was, out, image, m, w, h, PassWidth(w, p), p, PassWidth(w, p), j)
    ensures AllCopied(was, out, image, m, w, h, PassWidth(w, p), p, 0, j + 1)
  {
    hide Off, Spot, PassOf, LineOf, ColumnOf, PassWidth, PassHeight, XAt, YAt;
    var j', pw, none: nat := j + 1, PassWidth(w, p), 0;
    forall x: nat, y: nat | x < w && y < h
      ensures Copied(was, out, image, m, w, pw, p, none, j', x, y)
    {
      PixelIsTarget(w, h, x, y);
      assert Copied(was, out, image, m, w, pw, p, pw, j, x, y);
    }
  }

  /** `m` bytes. */
  method CopyBytes(out: array<byte>, s: nat, image: array<byte>, t: nat, m: nat)
    requires s + m <= out.Length && t + m <= image.Length && out != image
    modifies out
    ensures out[..] == old(out[..s]) + image[t..t + m] + old(out[s + m..])
  {
    ghost var was := out[..];
    var k: nat := 0;
    while k < m
      invariant k <= m && out[..] == was[..s] + image[t..t + k] + was[s + k..]
    {
      out[s + k] := image[t + k];
      k := k + 1;
    }
  }

  /** Copies a pass, `pw` x `ph` pixels of `m` bytes, into the image. */
  method CopyPass(out: array<byte>, image: array<byte>, m: nat, w: nat, h: nat, p: nat)
    requires p < 7 && out != image && out.Length == Off(Off(m, w), h)
    requires image.Length == Off(Off(m, PassWidth(w, p)), PassHeight(h, p))
    modifies out
    ensures AllCopied(old(out[..]), out[..], image[..], m, w, h, PassWidth(w, p), p, 0, PassHeight(h, p))
  {
    hide Off, Spot, AllCopied, PassWidth, PassHeight, XAt, YAt;
    ghost var was := out[..];
    NothingCopied(was, image[..], m, w, h, PassWidth(w, p), p);
    var j: nat := 0;
    while j < PassHeight(h, p)
      invariant j <= PassHeight(h, p) && AllCopied(was, out[..], image[..], m, w, h, PassWidth(w, p), p, 0, j)
    {
      var i: nat := 0;
      while i < PassWidth(w, p)
        invariant i <= PassWidth(w, p) && AllCopied(was, out[..], image[..], m, w, h, PassWidth(w, p), p, i, j)
      {
        ghost var before := out[..];
        TargetIsOwn(w, h, p, i, j);
        SpotInside(m, w, h, XAt(p, i), YAt(p, j));
        SpotInside(m, PassWidth(w, p), PassHeight(h, p), i, j);
        SpotIs(m, w, XAt(p, i), YAt(p, j));
        SpotIs(m, PassWidth(w, p), i, j);
        CopyBytes(out, YAt(p, j) * w * m + XAt(p, i) * m, image, (j * PassWidth(w, p) + i) * m, m);
        CopySteps(was, before, out[..], image[..], m, w, h, p, i, j);
        i := i + 1;
      }
      LineCopied(was, out[..], image[..], m, w, h, p, j);
      j := j + 1;
    }
  }
}
