/** Alpha channels: the low alpha bytes of 16-bit pixels, and the insertion of opaque alpha between
    samples that lie next to each other, from the right so that nothing still needed is overwritten. */
module PngAlpha {
  import opened Bits
  import opened PngRows

  lemma PixelsApart(m: nat, p: nat, q: nat)
    requires p < q
    ensures Off(m, p) + m <= Off(m, q)
  {
    OffNext(m, p);
    OffMonotone(m, p + 1, q);
  }

  /** A write into another pixel keeps a pixel. */
  lemma PixelKept(was: seq<byte>, out: seq<byte>, base: nat, n: nat, m: nat, a: nat, samples: seq<byte>, q: nat)
    requires n + a <= m && PixelIs(was, base, n, m, a, samples, q) && |out| == |was|
    requires var c := base + Off(m, q); out[c..c + n + a] == was[c..c + n + a]
    ensures PixelIs(out, base, n, m, a, samples, q)
  {
  }

  lemma OpaqueTwice()
    ensures Opaque(0) == [] && Opaque(1) == [255] && Opaque(2) == [255, 255]
  {
  }

  lemma LowByteSet(was: seq<byte>, out: seq<byte>, base: nat, n: nat, samples: seq<byte>, q: nat, i: nat)
    requires PixelIs(was, base, n, n + 2, 1, samples, q)
    requires base + Off(n + 2, i) + n + 1 < |was| && out == was[base + Off(n + 2, i) + n + 1 := 255]
    ensures PixelIs(out, base, n, n + 2, 1, samples, q)
    ensures q == i ==> PixelIs(out, base, n, n + 2, 2, samples, q)
    ensures q != i && PixelIs(was, base, n, n + 2, 2, samples, q) ==> PixelIs(out, base, n, n + 2, 2, samples, q)
  {
    hide Off, Pixel, Opaque;
    OpaqueTwice();
    var c := base + Off(n + 2, q);
    if q < i { PixelsApart(n + 2, q, i); }
    if i < q { PixelsApart(n + 2, i, q); }
    assert out[c..c + n + 1] == was[c..c + n + 1];
    if q == i {
      assert out[c..c + n + 2] == out[c..c + n + 1] + [255];
    } else {
      assert out[c..c + n + 2] == was[c..c + n + 2];
    }
  }

  /** 16-bit pixels get the low byte of their alpha after the high one. */
  method SetLowAlpha(out: array<byte>, base: nat, n: nat, x: nat, ghost samples: seq<byte>)
    requires RowIs(out[..], base, n, n + 2, 1, samples, x) && base + Off(n + 2, x) <= out.Length
    modifies out
    ensures RowIs(out[..], base, n, n + 2, 2, samples, x)
    ensures out[..base] == old(out[..base])
    ensures out[base + Off(n + 2, x)..] == old(out[base + Off(n + 2, x)..])
  {
    hide Off, PixelIs;
    ghost var was := out[..];
    ghost var m := n + 2;
    var i: nat, c: nat := 0, base;
    OffNext(m, 0);
    while i < x
      invariant i <= x && c == base + Off(m, i)
      invariant RowIs(out[..], base, n, m, 1, samples, x) && RowIs(out[..], base, n, m, 2, samples, i)
      invariant out[..base] == was[..base] && out[base + Off(m, x)..] == was[base + Off(m, x)..]
    {
      PixelInside(Off(m, x), m, x, i);
      ghost var before := out[..];
      out[c + n + 1] := 255;
      assert out[..] == before[c + n + 1 := 255];
      LowByteSetInRow(before, out[..], base, n, samples, x, i);
      OffNext(m, i);
      i, c := i + 1, c + n + 2;
    }
  }

  lemma LowByteSetInRow(was: seq<byte>, out: seq<byte>, base: nat, n: nat, samples: seq<byte>, x: nat, i: nat)
    requires i < x && RowIs(was, base, n, n + 2, 1, samples, x) && RowIs(was, base, n, n + 2, 2, samples, i)
    requires base + Off(n + 2, i) + n + 1 < |was| && out == was[base + Off(n + 2, i) + n + 1 := 255]
    ensures RowIs(out, base, n, n + 2, 1, samples, x) && RowIs(out, base, n, n + 2, 2, samples, i + 1)
  {
    hide Off, PixelIs;
    var m := n + 2;
    forall q: nat | q < x
      ensures PixelIs(out, base, n, m, 1, samples, q)
    {
      LowByteSet(was, out, base, n, samples, q, i);
    }
    forall q: nat | q < i + 1
      ensures PixelIs(out, base, n, m, 2, samples, q)
    {
      LowByteSet(was, out, base, n, samples, q, i);
    }
  }

  // ---------- insertion from the right ----------

  /** `n` bytes from `o` on are now at `c`, followed by full opacity. */
  ghost predicate Moved(was: seq<byte>, out: seq<byte>, c: nat, o: nat, n: nat)
    requires c + n + 1 <= |was| && o + n <= |was|
  {
    out == was[..c] + was[o..o + n] + [255] + was[c + n + 1..]
  }

  /** One or three samples from `o` move right to `c`, the last one first. */
  method MoveSamples(out: array<byte>, c: nat, o: nat, n: nat)
    requires (n == 1 || n == 3) && o <= c && c + n + 1 <= out.Length
    modifies out
    ensures Moved(old(out[..]), out[..], c, o, n)
  {
    ghost var was := out[..];
    out[c + n] := 255;
    if n == 1 {
      out[c] := out[o];
      assert out[..] == was[..c] + [was[o]] + [255] + was[c + 2..];
      assert was[o..o + 1] == [was[o]];
    } else {
      out[c + 2] := out[o + 2];
      out[c + 1] := out[o + 1];
      out[c] := out[o];
      assert out[..] == was[..c] + [was[o], was[o + 1], was[o + 2]] + [255] + was[c + 4..];
      assert was[o..o + 3] == [was[o], was[o + 1], was[o + 2]];
    }
  }

  /** Pixel `q` has its `n` samples and opaque alpha. */
  ghost predicate Inserted(out: seq<byte>, base: nat, n: nat, samples: seq<byte>, q: nat)
  {
    PixelIs(out, base, n, n + 1, 1, samples, q)
  }

  /** Moving pixel `q` changes no pixel to its right. */
  lemma RightKept(was: seq<byte>, out: seq<byte>, base: nat, n: nat, samples: seq<byte>, q: nat, o: nat, p: nat)
    requires q < p && Inserted(was, base, n, samples, p)
    requires base + Off(n + 1, q) + n + 1 <= |was| && o + n <= |was|
    requires Moved(was, out, base + Off(n + 1, q), o, n)
    ensures Inserted(out, base, n, samples, p)
  {
    hide Off, Opaque;
    PixelsApart(n + 1, q, p);
    var d := base + Off(n + 1, p);
    assert out[d..d + n + 1] == was[d..d + n + 1];
    PixelKept(was, out, base, n, n + 1, 1, samples, p);
  }

  lemma PrefixKept(was: seq<byte>, out: seq<byte>, base: nat, len: nat, len': nat, c: nat, samples: seq<byte>)
    requires len <= len' <= |samples| && base + len <= c <= |out| && c <= |was| && base + len' <= |was|
    requires out[..c] == was[..c] && was[base..base + len'] == samples[..len']
    ensures out[base..base + len] == samples[..len]
  {
    assert out[base..base + len] == out[..c][base..base + len];
    assert was[base..base + len] == was[..c][base..base + len];
    assert was[base..base + len] == was[base..base + len'][..len];
  }

  lemma MovedPixel(was: seq<byte>, out: seq<byte>, base: nat, n: nat, samples: seq<byte>, q: nat)
    requires |samples| >= Off(n, q) + n && base + Off(n, q) + n <= |was|
    requires was[base..base + Off(n, q) + n] == samples[..Off(n, q) + n]
    requires base + Off(n + 1, q) + n + 1 <= |was|
    requires Moved(was, out, base + Off(n + 1, q), base + Off(n, q), n)
    ensures PixelIs(out, base, n, n + 1, 1, samples, q)
  {
    hide Off;
    OpaqueTwice();
    var c, o := base + Off(n + 1, q), Off(n, q);
    assert was[base + o..base + o + n] == was[base..base + o + n][o..];
    assert samples[..o + n][o..] == samples[o..o + n];
    assert out[c..c + n + 1] == was[base + o..base + o + n] + [255];
  }

  ghost predicate InsertedFrom(out: seq<byte>, base: nat, n: nat, samples: seq<byte>, q: nat, x: nat)
  {
    forall p: nat :: q <= p < x ==> Inserted(out, base, n, samples, p)
  }

  lemma AllRightKept(was: seq<byte>, out: seq<byte>, base: nat, n: nat, samples: seq<byte>, q: nat, o: nat, x: nat)
    requires InsertedFrom(was, base, n, samples, q + 1, x) && PixelIs(out, base, n, n + 1, 1, samples, q)
    requires base + Off(n + 1, q) + n + 1 <= |was| && o + n <= |was|
    requires Moved(was, out, base + Off(n + 1, q), o, n)
    ensures InsertedFrom(out, base, n, samples, q, x)
  {
    hide Off, Moved, PixelIs;
    forall p: nat | q <= p < x
      ensures Inserted(out, base, n, samples, p)
    {
      if q < p { RightKept(was, out, base, n, samples, q, o, p); }
    }
  }

  /** The pixels from `q` on have their alpha, the samples before them are still where they were, and
      nothing else has changed. */
  ghost predicate Moving(was: seq<byte>, out: seq<byte>, base: nat, n: nat, samples: seq<byte>, x: nat, q: nat)
  {
    && q <= x && |out| == |was| && base + Off(n, q) <= |out| && Off(n, q) <= |samples| && base + Off(n + 1, x) <= |was|
    && out[base..base + Off(n, q)] == samples[..Off(n, q)]
    && InsertedFrom(out, base, n, samples, q, x)
    && out[..base] == was[..base] && out[base + Off(n + 1, x)..] == was[base + Off(n + 1, x)..]
  }

  lemma PixelMoves(was: seq<byte>, before: seq<byte>, out: seq<byte>, base: nat, n: nat, samples: seq<byte>, x: nat, q: nat)
    requires 0 < n && q < x && Moving(was, before, base, n, samples, x, q + 1)
    ensures base + Off(n, q) <= base + Off(n + 1, q) && base + Off(n + 1, q) + n + 1 <= |before|
    ensures Moved(before, out, base + Off(n + 1, q), base + Off(n, q), n) ==> Moving(was, out, base, n, samples, x, q)
  {
    hide Off, PixelIs, Moved, InsertedFrom;
    PixelInside(Off(n + 1, x), n + 1, x, q);
    OffNext(n, q);
    OffWider(n, n + 1, q);
    var len, c, o, hi := Off(n, q), base + Off(n + 1, q), base + Off(n, q), base + Off(n + 1, x);
    if Moved(before, out, c, o, n) {
      MovedPixel(before, out, base, n, samples, q);
      MovedElsewhere(before, out, c, o, n, base, len, hi, samples);
      AllRightKept(before, out, base, n, samples, q, o, x);
    }
  }

  lemma StartMoving(was: seq<byte>, base: nat, n: nat, x: nat)
    requires base + Off(n + 1, x) <= |was| && base + Off(n, x) <= |was|
    ensures Moving(was, was, base, n, was[base..base + Off(n, x)], x, x)
  {
    hide Off;
  }

  lemma EndMoving(was: seq<byte>, out: seq<byte>, base: nat, n: nat, samples: seq<byte>, x: nat)
    requires Moving(was, out, base, n, samples, x, 0)
    ensures RowIs(out, base, n, n + 1, 1, samples, x) && |out| == |was| && base + Off(n + 1, x) <= |was|
    ensures out[..base] == was[..base] && out[base + Off(n + 1, x)..] == was[base + Off(n + 1, x)..]
  {
    hide Off, RowIs, InsertedFrom;
    InsertedRow(out, base, n, samples, x);
  }

  /** Inserts an opaque alpha byte after every `n` of the samples that lie at `base`. */
  method InsertAlpha(out: array<byte>, base: nat, n: nat, x: nat)
    requires (n == 1 || n == 3) && base + Off(n + 1, x) <= out.Length && base + Off(n, x) <= out.Length
    modifies out
    ensures RowIs(out[..], base, n, n + 1, 1, old(out[..])[base..base + Off(n, x)], x)
    ensures out[..][..base] == old(out[..])[..base]
    ensures out[..][base + Off(n + 1, x)..] == old(out[..])[base + Off(n + 1, x)..]
  {
    hide Off, RowIs, Moving, Moved;
    ghost var was, samples := out[..], out[..][base..base + Off(n, x)];
    StartMoving(was, base, n, x);
    var q: nat := x;
    while q > 0
      invariant q <= x && Moving(was, out[..], base, n, samples, x, q)
    {
      q := q - 1;
      ghost var before := out[..];
      PixelMoves(was, before, before, base, n, samples, x, q);
      MoveSamples(out, base + Off(n + 1, q), base + Off(n, q), n);
      PixelMoves(was, before, out[..], base, n, samples, x, q);
    }
    EndMoving(was, out[..], base, n, samples, x);
  }

  lemma InsertedRow(out: seq<byte>, base: nat, n: nat, samples: seq<byte>, x: nat)
    requires InsertedFrom(out, base, n, samples, 0, x)
    ensures RowIs(out, base, n, n + 1, 1, samples, x)
  {
    var m := n + 1;
    forall p: nat | p < x
      ensures PixelIs(out, base, n, m, 1, samples, p)
    {
      assert Inserted(out, base, n, samples, p);
    }
  }

  /** Moving a pixel right keeps what is left of the samples moved and what is right of their place. */
  lemma MovedElsewhere(was: seq<byte>, out: seq<byte>, c: nat, o: nat, n: nat, base: nat, len: nat, hi: nat, samples: seq<byte>)
    requires c + n + 1 <= |was| && o + n <= |was| && Moved(was, out, c, o, n)
    requires o == base + len <= c && c + n + 1 <= hi <= |was| && len + n <= |samples|
    requires was[base..base + len + n] == samples[..len + n]
    ensures out[base..base + len] == samples[..len]
    ensures out[..base] == was[..base] && out[hi..] == was[hi..] && |out| == |was|
  {
    assert out[..c] == was[..c];
    PrefixKept(was, out, base, len, len + n, c, samples);
    assert out[..base] == out[..c][..base] && was[..base] == was[..c][..base];
  }
}
