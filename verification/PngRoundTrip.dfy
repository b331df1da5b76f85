/** An encoder as the other end of the reconstruction: images that are filtered, packed and interlaced as
    RFC 2083 says come back as they were. */
module PngRoundTrip {
  import opened Adam7
  import opened Bits
  import opened Png
  import opened PngFilter
  import opened PngNative
  import opened PngRows
  import opened PngScatter
  import opened PngUnpack
  import opened Sizes
  import opened Wrappers

  ghost predicate Encodable(n: nat, filters: seq<nat>, rows: seq<seq<byte>>)
  {
    |filters| == |rows| && forall j :: 0 <= j < |rows| ==> |rows[j]| == n && filters[j] <= 4
  }

  // ---------- images without interlacing ----------

  /** The test on the width of a packed row; only small samples in several channels can fail it. */
  predicate TooWide(imgN: nat, x: nat, depth: nat)
  {
    depth < 8 && RowBytes(imgN, x, depth) > x
  }

  /** Why rows of this width are refused whatever they hold, if they are: their size is out of range, or
      there is a row and it is too wide. */
  function Refusal(imgN: nat, x: nat, y: nat, depth: nat): Option<Error>
  {
    if !Mad3SizesValid(imgN, x, depth, 7) then Some(TooLarge)
    else if y > 0 && TooWide(imgN, x, depth) then Some(InvalidWidth)
    else None
  }

  /** Filtered rows, whatever follows them, give back the rows, and they are refused for no other reason
      than their width. */
  lemma FilteredAccepted(imgN: nat, x: nat, depth: nat, filters: seq<nat>, rows: seq<seq<byte>>, raw: seq<byte>)
    requires Depth(depth) && imgN > 0 && Encodable(RowBytes(imgN, x, depth), filters, rows)
    requires FilterBytes(imgN, depth) > 0
    requires Filtered(FilterBytes(imgN, depth), RowBytes(imgN, x, depth), filters, rows) <= raw
    ensures RawFailure(raw, imgN, x, |rows|, depth) == Refusal(imgN, x, |rows|, depth)
    ensures ReadAs(raw, imgN, x, |rows|, depth, rows)
  {
    hide RowBytes, FilterBytes, Rows, Filtered, Mad3SizesValid;
    RowsOfFiltered(FilterBytes(imgN, depth), RowBytes(imgN, x, depth), filters, rows, raw);
    if |rows| > 0 { KnownFirstFilter(FilterBytes(imgN, depth), RowBytes(imgN, x, depth), |rows|, raw); }
  }

  lemma KnownFirstFilter(bpp: nat, n: nat, y: nat, raw: seq<byte>)
    requires bpp > 0 && y > 0 && Enough(raw, n, y) && Rows(bpp, n, y, raw).Some?
    ensures FirstByte(raw) <= 4
  {
    if FirstByte(raw) > 4 { FirstRowRefused(bpp, n, y, raw); }
  }

  lemma PositiveBytes(imgN: nat, depth: nat)
    requires Depth(depth) && imgN > 0
    ensures FilterBytes(imgN, depth) > 0
  {
  }

  /** Grey and palette images of every size are narrow enough. */
  lemma OneChannelFits(x: nat, depth: nat)
    requires Depth(depth) && x > 0 && depth < 8
    ensures RowBytes(1, x, depth) <= x
  {
  }

  /** Small samples come back scaled. */
  lemma SmallSamplesReturn(samples: seq<nat>, depth: nat, color: nat, i: nat)
    requires Small(depth) && Narrow(samples, depth) && i < |samples|
    ensures RowSamples(PackRow(samples, depth), depth, color, |samples|)[i] == Scale(depth, color) * samples[i]
  {
    hide Scale, SampleOf, Narrow;
    SampleInside(|samples|, depth, i);
    UnpackUndoesPack(samples, depth, i);
  }

  // ---------- interlaced images ----------

  /** The pixels of a row that belong to pass `p`, the first `k` of them. */
  function PassRow(row: seq<byte>, n: nat, w: nat, p: nat, k: nat): (pixels: seq<byte>)
    requires p < 7 && |row| == Off(n, w) && k <= PassWidth(w, p)
    ensures |pixels| == Off(n, k)
    decreases k
  {
    OffNext(n, 0);
    if k == 0 then []
    else
      PassPixelInside(n, w, p, k - 1);
      OffNext(n, k - 1);
      PassRow(row, n, w, p, k - 1) + Pixel(row, n, XAt(p, k - 1))
  }

  lemma PassPixelInside(n: nat, w: nat, p: nat, i: nat)
    requires p < 7 && i < PassWidth(w, p)
    ensures XAt(p, i) < w && Off(n, XAt(p, i)) + n <= Off(n, w)
  {
    hide Off, XAt, PassWidth;
    GridsAreOrdered(p);
    XInside(w, p, i);
    PixelInside(Off(n, w), n, w, XAt(p, i));
  }

  lemma XInside(w: nat, p: nat, i: nat)
    requires p < 7 && i < PassWidth(w, p)
    ensures XAt(p, i) < w
  {
    GridsAreOrdered(p);
    PointInside(w, X_ORIG[p], X_SPC[p], i);
  }

  lemma YInside(h: nat, p: nat, j: nat)
    requires p < 7 && j < PassHeight(h, p)
    ensures YAt(p, j) < h
  {
    GridsAreOrdered(p);
    PointInside(h, Y_ORIG[p], Y_SPC[p], j);
  }

  lemma {:induction false} PassRowPixel(row: seq<byte>, n: nat, w: nat, p: nat, k: nat, i: nat)
    requires p < 7 && |row| == Off(n, w) && i < k <= PassWidth(w, p)
    ensures Off(n, i) + n <= Off(n, k) && Off(n, XAt(p, i)) + n <= |row|
    ensures Pixel(PassRow(row, n, w, p, k), n, i) == Pixel(row, n, XAt(p, i))
    decreases k
  {
    hide Off, XAt, PassWidth;
    PixelInside(Off(n, k), n, k, i);
    PassPixelInside(n, w, p, i);
    OffNext(n, k - 1);
    if i < k - 1 {
      PassRowPixel(row, n, w, p, k - 1, i);
      PixelInside(Off(n, k - 1), n, k - 1, i);
    }
  }

  ghost predicate Picture(rows: seq<seq<byte>>, n: nat, w: nat)
  {
    forall y :: 0 <= y < |rows| ==> |rows[y]| == Off(n, w)
  }

  function PassLine(rows: seq<seq<byte>>, n: nat, w: nat, p: nat, j: nat): (line: seq<byte>)
    requires Picture(rows, n, w) && p < 7 && j < PassHeight(|rows|, p)
    ensures |line| == Off(n, PassWidth(w, p))
  {
    YInside(|rows|, p, j);
    PassRow(rows[YAt(p, j)], n, w, p, PassWidth(w, p))
  }

  // ---------- samples of every depth ----------

  /** The bytes of a pixel of the picture: two for a sample of sixteen bits, one for any other. */
  function PixelBytes(imgN: nat, depth: nat): nat
  {
    imgN * SampleBytes(depth)
  }

  /** The samples are below two to the depth. */
  ghost predicate Fits(line: seq<byte>, depth: nat)
  {
    depth < 8 ==> Small(depth) && Narrow(line, depth)
  }

  /** A line as it is stored: small samples are packed. */
  ghost function Stored(line: seq<byte>, depth: nat): seq<byte>
    requires Fits(line, depth)
  {
    if depth < 8 then PackRow(line, depth) else line
  }

  /** The samples as they are shown: small grey samples are scaled. */
  ghost function Restored(line: seq<byte>, depth: nat, color: nat): (samples: seq<byte>)
    requires Fits(line, depth)
    ensures |samples| == |line|
  {
    if depth < 8 then seq(|line|, i requires 0 <= i < |line| => RestoredSample(line[i], depth, color)) else line
  }

  ghost function RestoredSample(v: byte, depth: nat, color: nat): byte
    requires Small(depth) && v < Pow2(depth)
  {
    ScaledFits(v, depth, color);
    Scale(depth, color) * v
  }

  lemma StoredSize(line: seq<byte>, imgN: nat, x: nat, depth: nat)
    requires Depth(depth) && Fits(line, depth) && |line| == Off(PixelBytes(imgN, depth), x)
    ensures |Stored(line, depth)| == RowBytes(imgN, x, depth)
  {
    hide PackedSize;
    if depth >= 8 { RowBytesIs(imgN, x, depth); }
  }

  /** What is stored is shown again. */
  lemma StoredReturns(line: seq<byte>, imgN: nat, x: nat, depth: nat, color: nat)
    requires Depth(depth) && Fits(line, depth) && |line| == Off(PixelBytes(imgN, depth), x)
    ensures depth < 8 ==> PackedSize(Off(imgN, x), depth) <= |Stored(line, depth)|
    ensures RowSamples(Stored(line, depth), depth, color, Off(imgN, x)) == Restored(line, depth, color)
  {
    hide PackedSize, Scale;
    if depth < 8 {
      assert Off(imgN, x) == |line|;
      forall i: nat | i < |line|
        ensures RowSamples(Stored(line, depth), depth, color, |line|)[i] == RestoredSample(line[i], depth, color)
      {
        SmallSamplesReturn(line, depth, color, i);
      }
    }
  }

  lemma RestoredPixel(line: seq<byte>, depth: nat, color: nat, n: nat, q: nat)
    requires Fits(line, depth) && Off(n, q) + n <= |line|
    ensures Fits(Pixel(line, n, q), depth)
    ensures Pixel(Restored(line, depth, color), n, q) == Restored(Pixel(line, n, q), depth, color)
  {
    hide Off;
  }

  lemma {:induction false} PassRowFits(row: seq<byte>, n: nat, w: nat, p: nat, k: nat, depth: nat)
    requires p < 7 && |row| == Off(n, w) && k <= PassWidth(w, p) && Fits(row, depth)
    ensures Fits(PassRow(row, n, w, p, k), depth)
    decreases k
  {
    hide Off, XAt, PassWidth, Small, Pow2;
    if k > 0 {
      PassPixelInside(n, w, p, k - 1);
      PassRowFits(row, n, w, p, k - 1, depth);
    }
  }

  // ---------- the data of an interlaced image ----------

  /** A picture of `w` pixels a row whose samples fit their depth. */
  ghost predicate Samples(imgN: nat, depth: nat, rows: seq<seq<byte>>, w: nat)
  {
    Picture(rows, PixelBytes(imgN, depth), w) && forall y :: 0 <= y < |rows| ==> Fits(rows[y], depth)
  }

  /** A line of a pass as it is stored. */
  ghost function StoredLine(imgN: nat, depth: nat, rows: seq<seq<byte>>, w: nat, p: nat, j: nat): (line: seq<byte>)
    requires Depth(depth) && Samples(imgN, depth, rows, w) && p < 7 && j < PassHeight(|rows|, p)
    ensures |line| == RowBytes(imgN, PassWidth(w, p), depth)
  {
    LineFits(imgN, depth, rows, w, p, j);
    StoredSize(PassLine(rows, PixelBytes(imgN, depth), w, p, j), imgN, PassWidth(w, p), depth);
    Stored(PassLine(rows, PixelBytes(imgN, depth), w, p, j), depth)
  }

  lemma LineFits(imgN: nat, depth: nat, rows: seq<seq<byte>>, w: nat, p: nat, j: nat)
    requires Samples(imgN, depth, rows, w) && p < 7 && j < PassHeight(|rows|, p)
    ensures Fits(PassLine(rows, PixelBytes(imgN, depth), w, p, j), depth)
  {
    hide Off, YAt, PassWidth, PassHeight, PassRow, Fits;
    YInside(|rows|, p, j);
    PassRowFits(rows[YAt(p, j)], PixelBytes(imgN, depth), w, p, PassWidth(w, p), depth);
  }

  ghost function StoredImage(imgN: nat, depth: nat, rows: seq<seq<byte>>, w: nat, p: nat): (lines: seq<seq<byte>>)
    requires Depth(depth) && Samples(imgN, depth, rows, w) && p < 7
    ensures |lines| == PassHeight(|rows|, p)
    ensures forall j :: 0 <= j < |lines| ==> |lines[j]| == RowBytes(imgN, PassWidth(w, p), depth)
  {
    seq(PassHeight(|rows|, p), j requires 0 <= j < PassHeight(|rows|, p) => StoredLine(imgN, depth, rows, w, p, j))
  }

  ghost predicate FiltersFit(filters: seq<seq<nat>>, h: nat)
  {
    |filters| == 7 && forall p :: 0 <= p < 7 ==> FilterRowFits(filters[p], PassHeight(h, p))
  }

  predicate FilterRowFits(filters: seq<nat>, y: nat)
  {
    |filters| == y && forall j :: 0 <= j < y ==> filters[j] <= 4
  }

  /** The data of pass `p`; `filters[p]` are the filter types of that pass.  An empty pass has none. */
  ghost function PassData(imgN: nat, depth: nat, rows: seq<seq<byte>>, w: nat, filters: seq<seq<nat>>, p: nat): (data: seq<byte>)
    requires Depth(depth) && imgN > 0 && Samples(imgN, depth, rows, w) && p < 7 && FiltersFit(filters, |rows|)
    ensures |data| == PassBytes(imgN, w, |rows|, depth, p)
  {
    PositiveBytes(imgN, depth);
    assert FilterRowFits(filters[p], PassHeight(|rows|, p));
    if PassWidth(w, p) > 0 && PassHeight(|rows|, p) > 0 then
      Filtered(FilterBytes(imgN, depth), RowBytes(imgN, PassWidth(w, p), depth), filters[p],
               StoredImage(imgN, depth, rows, w, p))
    else []
  }

  /** The data of the passes before `p`. */
  ghost function InterlacedTo(imgN: nat, depth: nat, rows: seq<seq<byte>>, w: nat, filters: seq<seq<nat>>, p: nat): (data: seq<byte>)
    requires Depth(depth) && imgN > 0 && Samples(imgN, depth, rows, w) && p <= 7 && FiltersFit(filters, |rows|)
    ensures |data| == PassStart(imgN, w, |rows|, depth, p)
    decreases p
  {
    if p == 0 then []
    else
      InterlacedTo(imgN, depth, rows, w, filters, p - 1) + PassData(imgN, depth, rows, w, filters, p - 1)
  }

  lemma {:induction false} StartsGrow(imgN: nat, depth: nat, rows: seq<seq<byte>>, w: nat, filters: seq<seq<nat>>, p: nat, q: nat)
    requires Depth(depth) && imgN > 0 && Samples(imgN, depth, rows, w) && p <= q <= 7 && FiltersFit(filters, |rows|)
    ensures InterlacedTo(imgN, depth, rows, w, filters, p) <= InterlacedTo(imgN, depth, rows, w, filters, q)
  {
    hide PassData, Samples, FiltersFit;
    if p < q { StartsGrow(imgN, depth, rows, w, filters, p, q - 1); }
  }

  /** The data of pass `p` begins where the decoder looks for it. */
  lemma PassDataAt(imgN: nat, depth: nat, rows: seq<seq<byte>>, w: nat, filters: seq<seq<nat>>, p: nat, data: seq<byte>)
    requires Depth(depth) && imgN > 0 && Samples(imgN, depth, rows, w) && p < 7 && FiltersFit(filters, |rows|)
    requires InterlacedTo(imgN, depth, rows, w, filters, 7) <= data
    ensures PassStart(imgN, w, |rows|, depth, p) <= |data|
    ensures PassData(imgN, depth, rows, w, filters, p) <= data[PassStart(imgN, w, |rows|, depth, p)..]
  {
    hide PassData, Samples, FiltersFit, PassStart;
    StartsGrow(imgN, depth, rows, w, filters, p + 1, 7);
    var before, mine := InterlacedTo(imgN, depth, rows, w, filters, p), PassData(imgN, depth, rows, w, filters, p);
    assert before + mine == InterlacedTo(imgN, depth, rows, w, filters, p + 1);
    PrefixOfPrefix(before + mine, InterlacedTo(imgN, depth, rows, w, filters, 7), data);
    AfterPrefix(before, mine, data);
  }

  lemma PrefixOfPrefix(a: seq<byte>, b: seq<byte>, c: seq<byte>)
    requires a <= b && b <= c
    ensures a <= c
  {
  }

  lemma AfterPrefix(a: seq<byte>, b: seq<byte>, c: seq<byte>)
    requires a + b <= c
    ensures |a| <= |c| && b <= c[|a|..]
  {
    assert c[|a|..|a| + |b|] == b by {
      forall k | 0 <= k < |b|
        ensures c[|a| + k] == b[k]
      {
        assert c[|a| + k] == (a + b)[|a| + k];
      }
    }
    assert c[|a|..][..|b|] == c[|a|..|a| + |b|];
  }

  // ---------- decoding it ----------

  /** The unfiltered rows of `raw` are `rows`. */
  ghost predicate ReadAs(raw: seq<byte>, imgN: nat, x: nat, y: nat, depth: nat, rows: seq<seq<byte>>)
    requires Depth(depth) && imgN > 0
  {
    && FilterBytes(imgN, depth) > 0 && Enough(raw, RowBytes(imgN, x, depth), y)
    && Rows(FilterBytes(imgN, depth), RowBytes(imgN, x, depth), y, raw) == Some(rows)
  }

  /** The decoder reads the lines of each pass, unless their width is refused. */
  lemma PassDecoded(imgN: nat, depth: nat, rows: seq<seq<byte>>, w: nat, filters: seq<seq<nat>>, p: nat, data: seq<byte>)
    requires Depth(depth) && imgN > 0 && Samples(imgN, depth, rows, w) && p < 7 && FiltersFit(filters, |rows|)
    requires PassWidth(w, p) > 0 && PassHeight(|rows|, p) > 0
    requires InterlacedTo(imgN, depth, rows, w, filters, 7) <= data
    ensures PassStart(imgN, w, |rows|, depth, p) <= |data|
    ensures var raw, x, y := data[PassStart(imgN, w, |rows|, depth, p)..], PassWidth(w, p), PassHeight(|rows|, p);
            && RawFailure(raw, imgN, x, y, depth) == Refusal(imgN, x, y, depth)
            && ReadAs(raw, imgN, x, y, depth, StoredImage(imgN, depth, rows, w, p))
  {
    hide FilterBytes, PassStart, StoredImage, PassWidth, PassHeight, RawFailure, Rows, Filtered, RowBytes, Off, Samples, Refusal,
      InterlacedTo, ReadAs;
    PassDataAt(imgN, depth, rows, w, filters, p, data);
    assert FilterRowFits(filters[p], PassHeight(|rows|, p));
    PositiveBytes(imgN, depth);
    FilteredAccepted(imgN, PassWidth(w, p), depth, filters[p], StoredImage(imgN, depth, rows, w, p),
                     data[PassStart(imgN, w, |rows|, depth, p)..]);
  }

  /** Pass `p` has no pixels, or its width is accepted. */
  predicate PassFits(imgN: nat, w: nat, h: nat, depth: nat, p: nat)
    requires p < 7
  {
    PassWidth(w, p) == 0 || PassHeight(h, p) == 0 || Refusal(imgN, PassWidth(w, p), PassHeight(h, p), depth).None?
  }

  /** The data is accepted if and only if the widths of all passes before `p` are. */
  lemma {:induction false} PassesAccepted(imgN: nat, depth: nat, rows: seq<seq<byte>>, w: nat, filters: seq<seq<nat>>, p: nat,
                                          data: seq<byte>)
    requires Depth(depth) && imgN > 0 && Samples(imgN, depth, rows, w) && p <= 7 && FiltersFit(filters, |rows|)
    requires InterlacedTo(imgN, depth, rows, w, filters, 7) <= data
    ensures PassesFailure(data, imgN, w, |rows|, depth, p).None? <==>
            forall q: nat :: q < p ==> PassFits(imgN, w, |rows|, depth, q)
    decreases p
  {
    hide FilterBytes, PassStart, PassWidth, PassHeight, RawFailure, Rows, RowBytes, Off, FiltersFit, Samples, InterlacedTo,
      Refusal, ReadAs, StoredImage;
    if p > 0 {
      var last: nat := p - 1;
      PassesAccepted(imgN, depth, rows, w, filters, last, data);
      if PassWidth(w, last) > 0 && PassHeight(|rows|, last) > 0 {
        PassDecoded(imgN, depth, rows, w, filters, last, data);
      }
      assert PassesFailure(data, imgN, w, |rows|, depth, p).None? <==>
        PassesFailure(data, imgN, w, |rows|, depth, last).None? && PassFits(imgN, w, |rows|, depth, last);
    }
  }

  /** Interlaced grey and palette pictures are accepted, and so are those of eight or sixteen bits, if the
      size of a whole row is in range. */
  lemma PassesFit(imgN: nat, w: nat, h: nat, depth: nat, p: nat)
    requires Depth(depth) && p < 7 && (imgN == 1 || depth >= 8) && Mad3SizesValid(imgN, w, depth, 7)
    ensures PassFits(imgN, w, h, depth, p)
  {
    hide RowBytes, PassWidth, PassHeight, Mad3SizesValid;
    PassWidthAtMost(w, p);
    Mad3Smaller(imgN, w, imgN, PassWidth(w, p), depth, 7);
    if PassWidth(w, p) > 0 && depth < 8 { OneChannelFits(PassWidth(w, p), depth); }
  }

  /** Pixel (`x`, `y`) in the buffer is that of the row, small grey samples scaled, with opaque alpha where
      there is room for it. */
  ghost predicate PixelRestored(out: seq<byte>, imgN: nat, outN: nat, w: nat, depth: nat, color: nat, row: seq<byte>,
                                x: nat, y: nat)
  {
    var n, m := PixelBytes(imgN, depth), outN * SampleBytes(depth);
    && n <= m && Spot(m, w, x, y) + m <= |out| && Off(n, x) + n <= |row|
    && Fits(Pixel(row, n, x), depth)
    && PixelOf(out, m, w, x, y) == Restored(Pixel(row, n, x), depth, color) + Opaque(m - n)
  }

  /** Whatever filters the passes of an interlaced picture use, every pixel that is shown is the pixel of
      the picture. */
  lemma InterlacingUndone(imgN: nat, outN: nat, depth: nat, color: nat, rows: seq<seq<byte>>, w: nat,
                          filters: seq<seq<nat>>, data: seq<byte>, out: seq<byte>, x: nat, y: nat)
    requires Depth(depth) && 0 < imgN <= outN && Samples(imgN, depth, rows, w) && FiltersFit(filters, |rows|)
    requires InterlacedTo(imgN, depth, rows, w, filters, 7) <= data
    requires PassesShown(out, data, imgN, outN, w, |rows|, depth, color, 7) && x < w && y < |rows|
    ensures PixelRestored(out, imgN, outN, w, depth, color, rows[y], x, y)
  {
    hide PassStart, StoredImage, PassWidth, PassHeight, RawFailure, Rows, Filtered, RowBytes, Off, FiltersFit, PassOf, ColumnOf,
      LineOf, Pixel, Opaque, Spot, XAt, YAt, InterlacedTo, PixelOf, Samples, Refusal, RowSamples, Restored, FilterBytes, Fits;
    var p, i, j := PassOf(x, y), ColumnOf(x, y), LineOf(x, y);
    PixelIsTarget(w, |rows|, x, y);
    PassDecoded(imgN, depth, rows, w, filters, p, data);
    assert PixelShown(out, data, imgN, outN, w, |rows|, depth, color, x, y);
    StoredPixel(imgN, depth, color, rows, w, p, i, j);
  }

  ghost predicate AllRestored(out: seq<byte>, imgN: nat, outN: nat, w: nat, depth: nat, color: nat, rows: seq<seq<byte>>)
  {
    forall x: nat, y: nat :: x < w && y < |rows| ==> PixelRestored(out, imgN, outN, w, depth, color, rows[y], x, y)
  }

  /** Decoding an interlaced picture: it fails only if the width of a pass is refused, and otherwise shows
      every pixel, read with the more significant byte of a 16-bit sample first. */
  method DecodeInterlaced(a: Png, data: seq<byte>, outN: nat, w: nat, h: nat, depth: nat, color: nat,
                          ghost rows: seq<seq<byte>>, ghost filters: seq<seq<nat>>) returns (failure: Option<Error>)
    requires Depth(depth) && 0 < a.imgN <= outN <= a.imgN + 1
    requires depth < 8 && outN != a.imgN ==> a.imgN == 1 || a.imgN == 3
    requires Mad3SizesValid(w, h, outN * SampleBytes(depth), 0)
    requires Samples(a.imgN, depth, rows, w) && |rows| == h && FiltersFit(filters, h)
    requires InterlacedTo(a.imgN, depth, rows, w, filters, 7) <= data
    modifies a`out
    ensures failure.None? <==> forall q: nat :: q < 7 ==> PassFits(a.imgN, w, h, depth, q)
    ensures failure.None? ==> AllRestored(BigEndian(a.out[..], depth == 16 && a.littleEndian), a.imgN, outN, w, depth, color, rows)
  {
    hide Samples, FiltersFit, InterlacedTo, PassFits, PixelRestored, PassesShown, BigEndian, Mad3SizesValid, PassesFailure;
    failure := a.CreateImage(data, outN, w, h, depth, color, true);
    PassesAccepted(a.imgN, depth, rows, w, filters, 7, data);
    if failure.None? {
      ghost var out := BigEndian(a.out[..], depth == 16 && a.littleEndian);
      forall x: nat, y: nat | x < w && y < h
        ensures PixelRestored(out, a.imgN, outN, w, depth, color, rows[y], x, y)
      {
        InterlacingUndone(a.imgN, outN, depth, color, rows, w, filters, data, out, x, y);
      }
    }
  }

  /** A pixel of a stored line, as it is shown, is the pixel of the picture at its place. */
  lemma StoredPixel(imgN: nat, depth: nat, color: nat, rows: seq<seq<byte>>, w: nat, p: nat, i: nat, j: nat)
    requires Depth(depth) && Samples(imgN, depth, rows, w) && p < 7 && i < PassWidth(w, p) && j < PassHeight(|rows|, p)
    ensures var n, x, y := PixelBytes(imgN, depth), XAt(p, i), YAt(p, j);
            && y < |rows| && Off(n, x) + n <= |rows[y]| && Fits(Pixel(rows[y], n, x), depth)
            && var line := StoredImage(imgN, depth, rows, w, p)[j];
               (depth < 8 ==> PackedSize(Off(imgN, PassWidth(w, p)), depth) <= |line|)
               && var samples := RowSamples(line, depth, color, Off(imgN, PassWidth(w, p)));
                  && Off(n, i) + n <= |samples|
                  && Pixel(samples, n, i) == Restored(Pixel(rows[y], n, x), depth, color)
  {
    hide Off, XAt, YAt, PassWidth, PassHeight, Pixel, Stored, RowSamples, Restored, PassRow, Fits, PackedSize;
    var n := PixelBytes(imgN, depth);
    var line := PassLine(rows, n, w, p, j);
    PassImageLine(rows, n, w, p, i, j);
    LineFits(imgN, depth, rows, w, p, j);
    StoredReturns(line, imgN, PassWidth(w, p), depth, color);
    RestoredPixel(line, depth, color, n, i);
  }

  lemma PassImageLine(rows: seq<seq<byte>>, n: nat, w: nat, p: nat, i: nat, j: nat)
    requires Picture(rows, n, w) && p < 7 && i < PassWidth(w, p) && j < PassHeight(|rows|, p)
    ensures YAt(p, j) < |rows| && Off(n, XAt(p, i)) + n <= |rows[YAt(p, j)]|
    ensures Off(n, i) + n <= |PassLine(rows, n, w, p, j)|
    ensures Pixel(PassLine(rows, n, w, p, j), n, i) == Pixel(rows[YAt(p, j)], n, XAt(p, i))
  {
    hide Off, XAt, YAt, PassWidth, PassHeight, Pixel, PassRow;
    YInside(|rows|, p, j);
    PassRowPixel(rows[YAt(p, j)], n, w, p, PassWidth(w, p), i);
  }
}
