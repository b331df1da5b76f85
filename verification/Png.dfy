/** PNG reconstruction in one output buffer: unfiltering row by row, expansion of small samples, and
    de-interlacing. */
module Png {
  import opened Adam7
  import opened Bits
  import opened PngAlpha
  import opened PngFilter
  import opened PngNative
  import opened PngRows
  import opened PngScatter
  import opened PngUnpack
  import opened Sizes
  import opened Wrappers

  /** `NoBuffer` stands for a write through the null pointer that is left when there is no memory for an
      interlaced picture. */
  datatype Error = OutOfMemory | TooLarge | NotEnoughPixels | InvalidFilter | InvalidWidth | NoBuffer

  // ---------- rows in the buffer ----------

  /** Rows are `stride` bytes; the pixels of row `j` begin `skip` bytes into it. */
  function RowAt(stride: nat, skip: nat, j: nat): nat
  {
    Off(stride, j) + skip
  }

  /** The first `|rows|` rows of the buffer. */
  ghost predicate ImageIs(out: seq<byte>, stride: nat, skip: nat, n: nat, m: nat, a: nat, rows: seq<seq<byte>>, width: nat)
    requires n + a <= m
  {
    forall j: nat :: j < |rows| ==> RowIs(out, RowAt(stride, skip, j), n, m, a, rows[j], width)
  }

  lemma RowsApart(stride: nat, i: nat, j: nat)
    requires i < j
    ensures Off(stride, i) + stride <= Off(stride, j)
  {
    PixelsApart(stride, i, j);
  }

  lemma RowKeptBelow(out: seq<byte>, out': seq<byte>, lo: nat, base: nat, n: nat, m: nat, a: nat, samples: seq<byte>, x: nat)
    requires n + a <= m && |out| == |out'| && base + Off(m, x) <= lo <= |out| && out[..lo] == out'[..lo]
    requires RowIs(out, base, n, m, a, samples, x)
    ensures RowIs(out', base, n, m, a, samples, x)
  {
    hide Off, RowIs;
    assert out[base..base + Off(m, x)] == out[..lo][base..base + Off(m, x)];
    assert out'[base..base + Off(m, x)] == out'[..lo][base..base + Off(m, x)];
    RowKept(out, out', base, n, m, a, samples, x);
  }

  lemma RowKeptAbove(out: seq<byte>, out': seq<byte>, hi: nat, base: nat, n: nat, m: nat, a: nat, samples: seq<byte>, x: nat)
    requires n + a <= m && |out| == |out'| && hi <= base && base + Off(m, x) <= |out| && out[hi..] == out'[hi..]
    requires RowIs(out, base, n, m, a, samples, x)
    ensures RowIs(out', base, n, m, a, samples, x)
  {
    hide Off, RowIs;
    SliceFromTail(out, out', hi, base, base + Off(m, x));
    RowKept(out, out', base, n, m, a, samples, x);
  }

  lemma SliceFromTail(s: seq<byte>, t: seq<byte>, hi: nat, i: nat, j: nat)
    requires hi <= i <= j <= |s| == |t| && s[hi..] == t[hi..]
    ensures s[i..j] == t[i..j]
  {
    var u, v := s[i..j], t[i..j];
    forall k | 0 <= k < j - i
      ensures u[k] == v[k]
    {
      assert s[hi..][i - hi + k] == t[hi..][i - hi + k];
    }
  }

  /** A new row joins the rows before it. */
  lemma ImageGrows(was: seq<byte>, out: seq<byte>, stride: nat, skip: nat, n: nat, m: nat, a: nat,
                   rows: seq<seq<byte>>, row: seq<byte>, width: nat)
    requires n + a <= m && skip + Off(m, width) == stride && |was| == |out| && RowAt(stride, skip, |rows|) <= |out|
    requires ImageIs(was, stride, skip, n, m, a, rows, width)
    requires out[..RowAt(stride, skip, |rows|)] == was[..RowAt(stride, skip, |rows|)]
    requires RowIs(out, RowAt(stride, skip, |rows|), n, m, a, row, width)
    ensures ImageIs(out, stride, skip, n, m, a, rows + [row], width)
  {
    hide Off, RowIs;
    forall j: nat | j < |rows| + 1
      ensures RowIs(out, RowAt(stride, skip, j), n, m, a, (rows + [row])[j], width)
    {
      if j < |rows| {
        RowsApart(stride, j, |rows|);
        RowKeptBelow(was, out, RowAt(stride, skip, |rows|), RowAt(stride, skip, j), n, m, a, rows[j], width);
      }
    }
  }

  // ---------- unfiltering ----------

  /** One row: the filter, and the low alpha bytes if there are two of them. */
  method UnfilterRowAt(out: array<byte>, base: nat, up: int, raw: seq<byte>, at: nat, first: bool, filter: nat, fb: nat,
                       ob: nat, width: nat, ghost prior: seq<byte>)
    requires filter <= 4 && 0 < fb <= ob <= fb + 2 && base + Off(ob, width) <= out.Length
    requires at + Off(fb, width) <= |raw| && |prior| == Off(fb, width)
    requires if first then prior == Zeros(|prior|)
             else 0 <= up && up + Off(ob, width) <= base && RowIs(out[..], up, fb, ob, ob - fb, prior, width)
    modifies out
    ensures RowIs(out[..], base, fb, ob, ob - fb, UnfilterRow(filter, fb, prior, raw[at..at + Off(fb, width)]), width)
    ensures out[..base] == old(out[..base]) && out[base + Off(ob, width)..] == old(out[base + Off(ob, width)..])
  {
    hide Off, RowIs, RowRebuilt, UnfilterRow, Zeros;
    var code := CodeFor(first, filter);
    ghost var row := UnfilterRow(filter, fb, prior, raw[at..at + Off(fb, width)]);
    UnfilteredIsRebuilt(first, filter, fb, prior, raw[at..at + Off(fb, width)], width);
    FirstUsesNoPrior(first, filter);
    UnfilterInPlace(out, base, up, raw, at, code, fb, ob, width, PriorFor(code, prior), row, ob - fb);
    if ob == fb + 2 { SetLowAlpha(out, base, fb, width, row); }
  }

  lemma FirstUsesNoPrior(first: bool, filter: nat)
    requires filter <= 4
    ensures first ==> !UsesPrior(CodeFor(first, filter))
    ensures UsesPrior(CodeFor(first, filter)) ==> CodeFor(first, filter) == filter
  {
  }

  /** All rows: `tooWide` is the test on the packed width, made after the filter type of a row is read. */
  method UnfilterRows(out: array<byte>, raw: seq<byte>, stride: nat, skip: nat, fb: nat, ob: nat, width: nat, y: nat,
                      tooWide: bool)
    returns (failure: Option<Error>)
    requires 0 < fb <= ob <= fb + 2 && Enough(raw, Off(fb, width), y) && out.Length == Off(stride, y)
    requires !tooWide ==> skip + Off(ob, width) == stride
    modifies out
    ensures failure == if y > 0 && tooWide && raw[0] <= 4 then Some(InvalidWidth)
                       else if Rows(fb, Off(fb, width), y, raw).None? then Some(InvalidFilter) else None
    ensures failure.None? && y > 0 ==>
              ImageIs(out[..], stride, skip, fb, ob, ob - fb, Rows(fb, Off(fb, width), y, raw).value, width)
  {
    hide Off, RowIs, UnfilterRow, ImageIs, Enough, Rows, RowAt;
    ghost var n := Off(fb, width);
    var j: nat, r: nat, base: nat := 0, 0, skip;
    ghost var rows: seq<seq<byte>> := [];
    NothingRead(fb, n, raw);
    FirstRowAt(stride, skip);
    NoRows(out[..], stride, skip, fb, ob, ob - fb, width);
    while j < y
      invariant j <= y && r == Off(n + 1, j) && base == RowAt(stride, skip, j) && |rows| == j
      invariant (tooWide ==> j == 0) && Enough(raw, n, j) && Rows(fb, n, j, raw) == Some(rows)
      invariant ImageIs(out[..], stride, skip, fb, ob, ob - fb, rows, width)
    {
      NextRow(fb, n, y, raw, j);
      var filter := raw[r];
      if filter > 4 { return Some(InvalidFilter); }
      if tooWide { return Some(InvalidWidth); }
      ghost var before := out[..];
      RowFits(stride, skip, Off(ob, width), j, y);
      if j > 0 { PriorRow(out[..], stride, skip, fb, ob, ob - fb, rows, width); }
      UnfilterRowAt(out, base, base - stride, raw, r + 1, j == 0, filter, fb, ob, width, Above(rows, n));
      ghost var row := UnfilterRow(filter, fb, Above(rows, n), raw[r + 1..r + 1 + n]);
      ImageGrows(before, out[..], stride, skip, fb, ob, ob - fb, rows, row, width);
      rows := rows + [row];
      NextRowAt(stride, skip, j);
      j, r, base := j + 1, r + 1 + Off(fb, width), base + stride;
    }
    failure := None;
  }

  lemma NoRows(out: seq<byte>, stride: nat, skip: nat, n: nat, m: nat, a: nat, width: nat)
    requires n + a <= m
    ensures ImageIs(out, stride, skip, n, m, a, [], width)
  {
  }

  lemma FirstRowAt(stride: nat, skip: nat)
    ensures RowAt(stride, skip, 0) == skip
  {
  }

  lemma NextRowAt(stride: nat, skip: nat, j: nat)
    ensures RowAt(stride, skip, j + 1) == RowAt(stride, skip, j) + stride
  {
    hide Off;
    OffNext(stride, j);
  }

  lemma RowFits(stride: nat, skip: nat, size: nat, j: nat, y: nat)
    requires skip + size == stride && j < y
    ensures RowAt(stride, skip, j) + size == Off(stride, j + 1) <= Off(stride, y)
  {
    hide Off;
    OffNext(stride, j);
    OffMonotone(stride, j + 1, y);
  }

  lemma PriorRow(out: seq<byte>, stride: nat, skip: nat, n: nat, m: nat, a: nat, rows: seq<seq<byte>>, width: nat)
    requires n + a <= m && rows != [] && ImageIs(out, stride, skip, n, m, a, rows, width)
    ensures RowAt(stride, skip, |rows|) - stride == RowAt(stride, skip, |rows| - 1)
    ensures RowIs(out, RowAt(stride, skip, |rows| - 1), n, m, a, rows[|rows| - 1], width)
  {
    hide Off, RowIs;
    OffNext(stride, |rows| - 1);
  }

  /** Reading one row more. */
  lemma NextRow(bpp: nat, n: nat, y: nat, raw: seq<byte>, j: nat)
    requires bpp > 0 && Enough(raw, n, y) && j < y
    ensures Enough(raw, n, j) && Enough(raw, n, j + 1)
    ensures Off(n + 1, j) + n + 1 == Off(n + 1, j + 1) <= |raw|
    ensures Rows(bpp, n, j, raw).Some? ==>
              var rows, r := Rows(bpp, n, j, raw).value, Off(n + 1, j);
              Rows(bpp, n, j + 1, raw) == if raw[r] > 4 then None
                                          else Some(rows + [UnfilterRow(raw[r], bpp, Above(rows, n), raw[r + 1..r + 1 + n])])
    ensures Rows(bpp, n, j + 1, raw).None? ==> Rows(bpp, n, y, raw).None?
  {
    hide UnfilterRow, Above;
    Distribute(n + 1, j, 1);
    MulMonotone(j + 1, y, n + 1);
    if Rows(bpp, n, j + 1, raw).None? { NoneStays(bpp, n, j + 1, y, raw); }
  }

  lemma NothingRead(bpp: nat, n: nat, raw: seq<byte>)
    requires bpp > 0
    ensures Enough(raw, n, 0) && Rows(bpp, n, 0, raw) == Some([]) && Off(n + 1, 0) == 0
  {
  }

  lemma {:induction false} NoneStays(bpp: nat, n: nat, i: nat, y: nat, raw: seq<byte>)
    requires bpp > 0 && Enough(raw, n, y) && Enough(raw, n, i) && i <= y && Rows(bpp, n, i, raw).None?
    ensures Rows(bpp, n, y, raw).None?
  {
    hide UnfilterRow, Above;
    if i < y {
      RowInside(n, y, |raw|);
      NoneStays(bpp, n, i, y - 1, raw);
    }
  }

  // ---------- expanding small samples ----------

  /** Pixels without gaps are the row itself. */
  lemma {:induction false} FlatRow(out: seq<byte>, base: nat, n: nat, samples: seq<byte>, x: nat)
    requires RowIs(out, base, n, n, 0, samples, x) && Off(n, x) <= |samples| && base + Off(n, x) <= |out|
    ensures out[base..base + Off(n, x)] == samples[..Off(n, x)]
    decreases x
  {
    hide Off, Pixel, PixelIs;
    if x == 0 {
      OffNext(n, 0);
    } else {
      OffNext(n, x - 1);
      FlatRow(out, base, n, samples, x - 1);
      PixelBytes(out, base, n, n, 0, samples, x, x - 1);
      LastPixel(out, base, n, samples, x - 1);
    }
  }

  lemma LastPixel(out: seq<byte>, base: nat, n: nat, samples: seq<byte>, q: nat)
    requires Off(n, q) + n <= |samples| && base + Off(n, q) + n <= |out|
    requires out[base..base + Off(n, q)] == samples[..Off(n, q)]
    requires out[base + Off(n, q)..base + Off(n, q) + n] == Pixel(samples, n, q)
    ensures out[base..base + Off(n, q) + n] == samples[..Off(n, q) + n]
  {
    hide Off;
    assert out[base..base + Off(n, q) + n] == out[base..base + Off(n, q)] + out[base + Off(n, q)..base + Off(n, q) + n];
  }

  /** ... and the other way round. */
  lemma RowOfFlat(out: seq<byte>, base: nat, n: nat, samples: seq<byte>, x: nat)
    requires |samples| == Off(n, x) && base + Off(n, x) <= |out| && out[base..base + Off(n, x)] == samples
    ensures RowIs(out, base, n, n, 0, samples, x)
  {
    hide Off, Pixel, PixelIs;
    forall q: nat | q < x
      ensures PixelIs(out, base, n, n, 0, samples, q)
    {
      PixelInside(Off(n, x), n, x, q);
      FlatPixel(out, base, n, samples, q);
    }
  }

  lemma FlatPixel(out: seq<byte>, base: nat, n: nat, samples: seq<byte>, q: nat)
    requires Off(n, q) + n <= |samples| && base + |samples| <= |out| && out[base..base + |samples|] == samples
    ensures PixelIs(out, base, n, n, 0, samples, q)
  {
    hide Off;
    OpaqueTwice();
    var o := Off(n, q);
    assert out[base + o..base + o + n] == samples[o..o + n] by {
      SliceKept(out[..base] + samples + out[base + |samples|..], out, base, |samples|, o, o + n);
      assert out == out[..base] + samples + out[base + |samples|..];
    }
  }

  /** The samples of a row as bytes. */
  function RowSamples(row: seq<byte>, depth: nat, color: nat, count: nat): (samples: seq<byte>)
    requires depth < 8 ==> Small(depth) && PackedSize(count, depth) <= |row|
  {
    if depth < 8 then Unpacked(row, depth, color, count) else row
  }

  /** Expands one row and inserts the alpha channel if there is one. */
  method ExpandRow(out: array<byte>, base: nat, stride: nat, imgN: nat, outN: nat, x: nat, depth: nat, color: nat,
                   ghost row: seq<byte>)
    requires Small(depth) && 0 < imgN <= outN && (outN != imgN ==> outN == imgN + 1 && (imgN == 1 || imgN == 3))
    requires stride == Off(outN, x) && base + stride <= out.Length && PackedSize(Off(imgN, x), depth) == |row| <= stride
    requires RowIs(out[..], base + stride - |row|, 1, 1, 0, row, |row|)
    modifies out
    ensures RowIs(out[..], base, imgN, outN, outN - imgN, Unpacked(row, depth, color, Off(imgN, x)), x)
    ensures out[..base] == old(out[..base]) && out[base + stride..] == old(out[base + stride..])
  {
    hide Off, RowIs, Unpacked, PackedSize, Small;
    OffWider(imgN, outN, x);
    OffOne(|row|);
    ghost var was := out[..];
    FlatRow(was, base + stride - |row|, 1, row, |row|);
    assert row[..|row|] == row;
    ghost var count := Off(imgN, x);
    ghost var samples := Unpacked(row, depth, color, count);
    Unpack(out, base, Off(outN, x), Off(imgN, x), depth, color);
    ExpandedInPlace(was, out[..], base, stride, samples);
    if imgN != outN {
      InsertAlpha(out, base, imgN, x);
    } else {
      RowOfFlat(out[..], base, imgN, samples, x);
    }
  }

  lemma ExpandedInPlace(was: seq<byte>, out: seq<byte>, base: nat, stride: nat, samples: seq<byte>)
    requires |samples| <= stride && base + stride <= |was| && out == was[..base] + samples + was[base + |samples|..]
    ensures out[base..base + |samples|] == samples && out[..base] == was[..base] && out[base + stride..] == was[base + stride..]
  {
  }

  lemma OffOne(n: nat)
    ensures Off(1, n) == n
  {
  }

  /** The rows before `j` are expanded, the others still packed at the right end of their rows. */
  ghost predicate Expanding(out: seq<byte>, stride: nat, imgN: nat, outN: nat, x: nat, depth: nat, color: nat,
                            rows: seq<seq<byte>>, j: nat)
    requires Small(depth) && imgN <= outN
  {
    && (forall i: nat :: i < |rows| ==> |rows[i]| == PackedSize(Off(imgN, x), depth) <= stride)
    && (forall i: nat :: i < j && i < |rows| ==> ExpandedRow(out, stride, imgN, outN, x, depth, color, rows[i], i))
    && (forall i: nat :: j <= i < |rows| ==> PackedRow(out, stride, rows[i], i))
  }

  ghost predicate ExpandedRow(out: seq<byte>, stride: nat, imgN: nat, outN: nat, x: nat, depth: nat, color: nat,
                              row: seq<byte>, i: nat)
    requires Small(depth) && imgN <= outN
  {
    PackedSize(Off(imgN, x), depth) <= |row| &&
    RowIs(out, Off(stride, i), imgN, outN, outN - imgN, Unpacked(row, depth, color, Off(imgN, x)), x)
  }

  ghost predicate PackedRow(out: seq<byte>, stride: nat, row: seq<byte>, i: nat)
  {
    |row| <= stride && RowIs(out, Off(stride, i) + stride - |row|, 1, 1, 0, row, |row|)
  }

  lemma ExpandedNext(was: seq<byte>, out: seq<byte>, stride: nat, imgN: nat, outN: nat, x: nat, depth: nat, color: nat,
                     rows: seq<seq<byte>>, j: nat)
    requires Small(depth) && imgN <= outN && stride == Off(outN, x) && j < |rows| && |out| == |was| == Off(stride, |rows|)
    requires Expanding(was, stride, imgN, outN, x, depth, color, rows, j)
    requires Off(stride, j) + stride <= |out|
    requires out[..Off(stride, j)] == was[..Off(stride, j)] && out[Off(stride, j) + stride..] == was[Off(stride, j) + stride..]
    requires ExpandedRow(out, stride, imgN, outN, x, depth, color, rows[j], j)
    ensures Expanding(out, stride, imgN, outN, x, depth, color, rows, j + 1)
  {
    hide Off, RowIs, Unpacked, PackedSize, Small;
    forall i: nat | i < j + 1
      ensures ExpandedRow(out, stride, imgN, outN, x, depth, color, rows[i], i)
    {
      if i < j {
        assert ExpandedRow(was, stride, imgN, outN, x, depth, color, rows[i], i);
        RowsApart(stride, i, j);
        RowKeptBelow(was, out, Off(stride, j), Off(stride, i), imgN, outN, outN - imgN,
                     Unpacked(rows[i], depth, color, Off(imgN, x)), x);
      }
    }
    forall i: nat | j + 1 <= i < |rows|
      ensures PackedRow(out, stride, rows[i], i)
    {
      assert PackedRow(was, stride, rows[i], i);
      RowsApart(stride, j, i);
      RowsApart(stride, i, |rows|);
      OffOne(|rows[i]|);
      RowKeptAbove(was, out, Off(stride, j) + stride, Off(stride, i) + stride - |rows[i]|, 1, 1, 0, rows[i], |rows[i]|);
    }
  }

  method ExpandRows(out: array<byte>, imgN: nat, outN: nat, x: nat, y: nat, depth: nat, color: nat, ghost rows: seq<seq<byte>>)
    requires Small(depth) && 0 < imgN <= outN && (outN != imgN ==> outN == imgN + 1 && (imgN == 1 || imgN == 3))
    requires |rows| == y && out.Length == Off(Off(outN, x), y)
    requires Expanding(out[..], Off(outN, x), imgN, outN, x, depth, color, rows, 0)
    modifies out
    ensures Expanding(out[..], Off(outN, x), imgN, outN, x, depth, color, rows, y)
  {
    hide Off, RowIs, Unpacked, PackedSize, Small, Expanding;
    var stride := Off(outN, x);
    var j: nat, base: nat := 0, 0;
    OffNext(stride, 0);
    while j < y
      invariant j <= y && base == Off(stride, j)
      invariant Expanding(out[..], stride, imgN, outN, x, depth, color, rows, j)
    {
      ghost var before := out[..];
      RowFits(stride, 0, stride, j, y);
      ToExpand(before, stride, imgN, outN, x, depth, color, rows, j);
      ExpandRow(out, base, stride, imgN, outN, x, depth, color, rows[j]);
      ExpandedNext(before, out[..], stride, imgN, outN, x, depth, color, rows, j);
      OffNext(stride, j);
      j, base := j + 1, base + stride;
    }
  }

  lemma ToExpand(out: seq<byte>, stride: nat, imgN: nat, outN: nat, x: nat, depth: nat, color: nat,
                 rows: seq<seq<byte>>, j: nat)
    requires Small(depth) && imgN <= outN && j < |rows|
    requires Expanding(out, stride, imgN, outN, x, depth, color, rows, j)
    ensures |rows[j]| == PackedSize(Off(imgN, x), depth) <= stride
    ensures RowIs(out, Off(stride, j) + stride - |rows[j]|, 1, 1, 0, rows[j], |rows[j]|)
  {
    hide Off, RowIs;
    assert PackedRow(out, stride, rows[j], j);
  }

  // ---------- one image ----------

  predicate Depth(depth: nat)
  {
    Small(depth) || depth == 8 || depth == 16
  }

  function SampleBytes(depth: nat): nat
  {
    if depth == 16 then 2 else 1
  }

  /** The distance of a pixel from the one that filters call the left one. */
  function FilterBytes(imgN: nat, depth: nat): nat
  {
    if depth < 8 then 1 else imgN * SampleBytes(depth)
  }

  /** The number of bytes of a packed row. */
  function RowBytes(imgN: nat, x: nat, depth: nat): nat
  {
    PackedSize(Off(imgN, x), depth)
  }

  lemma RowBytesIs(imgN: nat, x: nat, depth: nat)
    requires Depth(depth) && depth >= 8
    ensures RowBytes(imgN, x, depth) == Off(FilterBytes(imgN, depth), x)
  {
    if depth == 16 { assert imgN * 2 * x == imgN * x * 2; }
  }

  /** Row `j` of the picture in the buffer: its samples, and opaque alpha where it has no channel for that. */
  ghost predicate RowShown(out: seq<byte>, imgN: nat, outN: nat, x: nat, depth: nat, color: nat, row: seq<byte>, j: nat)
    requires Depth(depth) && imgN <= outN
  {
    var n, m := imgN * SampleBytes(depth), outN * SampleBytes(depth);
    && |row| == RowBytes(imgN, x, depth)
    && n <= m
    && RowIs(out, Off(Off(m, x), j), n, m, m - n, RowSamples(row, depth, color, Off(imgN, x)), x)
  }

  ghost predicate Shown(out: seq<byte>, imgN: nat, outN: nat, x: nat, depth: nat, color: nat, rows: seq<seq<byte>>)
    requires Depth(depth) && imgN <= outN
  {
    forall j: nat :: j < |rows| ==> RowShown(out, imgN, outN, x, depth, color, rows[j], j)
  }

  lemma DeepRowsShown(out: seq<byte>, imgN: nat, outN: nat, x: nat, depth: nat, color: nat, rows: seq<seq<byte>>)
    requires Depth(depth) && depth >= 8 && imgN <= outN
    requires var n, m := imgN * SampleBytes(depth), outN * SampleBytes(depth);
             && (forall j :: 0 <= j < |rows| ==> |rows[j]| == Off(n, x))
             && n <= m && ImageIs(out, Off(m, x), 0, n, m, m - n, rows, x)
    ensures Shown(out, imgN, outN, x, depth, color, rows)
  {
    hide Off, RowIs, PackedSize;
    RowBytesIs(imgN, x, depth);
    var n, m := imgN * SampleBytes(depth), outN * SampleBytes(depth);
    forall j: nat | j < |rows|
      ensures RowShown(out, imgN, outN, x, depth, color, rows[j], j)
    {
      assert RowIs(out, RowAt(Off(m, x), 0, j), n, m, m - n, rows[j], x);
    }
  }

  lemma SmallRowsShown(out: seq<byte>, imgN: nat, outN: nat, x: nat, depth: nat, color: nat, rows: seq<seq<byte>>)
    requires Small(depth) && imgN <= outN
    requires Expanding(out, Off(outN, x), imgN, outN, x, depth, color, rows, |rows|)
    ensures Shown(out, imgN, outN, x, depth, color, rows)
  {
    hide Off, RowIs, PackedSize, Unpacked;
    forall j: nat | j < |rows|
      ensures RowShown(out, imgN, outN, x, depth, color, rows[j], j)
    {
      assert ExpandedRow(out, Off(outN, x), imgN, outN, x, depth, color, rows[j], j);
    }
  }

  lemma SmallRowsUnfiltered(out: seq<byte>, imgN: nat, outN: nat, x: nat, depth: nat, color: nat, rows: seq<seq<byte>>)
    requires Small(depth) && imgN <= outN && RowBytes(imgN, x, depth) <= Off(outN, x)
    requires forall j :: 0 <= j < |rows| ==> |rows[j]| == RowBytes(imgN, x, depth)
    requires ImageIs(out, Off(outN, x), Off(outN, x) - RowBytes(imgN, x, depth), 1, 1, 0, rows, RowBytes(imgN, x, depth))
    ensures Expanding(out, Off(outN, x), imgN, outN, x, depth, color, rows, 0)
  {
    hide Off, RowIs, PackedSize, Unpacked;
    var stride, n := Off(outN, x), RowBytes(imgN, x, depth);
    forall i: nat | 0 <= i < |rows|
      ensures PackedRow(out, stride, rows[i], i)
    {
      assert RowIs(out, RowAt(stride, stride - n, i), 1, 1, 0, rows[i], n);
    }
  }

  // ---------- sizes ----------

  /** Sizes that pass the tests of the source never wrap around: neither the bytes of a row nor those of
      the whole image, which it multiplies without a test. */
  lemma LengthFits(imgN: nat, outN: nat, x: nat, y: nat, depth: nat, raw: seq<byte>)
    requires Depth(depth) && 0 < imgN <= outN
    requires Mad3SizesValid(x, y, outN * SampleBytes(depth), 0) && Mad3SizesValid(imgN, x, depth, 7)
    ensures Unsigned(Unsigned(RowBytes(imgN, x, depth) + 1) * y) == (RowBytes(imgN, x, depth) + 1) * y
    ensures Enough(raw, RowBytes(imgN, x, depth), y) <==> |raw| >= (RowBytes(imgN, x, depth) + 1) * y
  {
    hide Mad3SizesValid, RowBytes, Unsigned;
    Mad3Limits(x, y, outN * SampleBytes(depth), 0);
    RowBytesBelow(imgN, x, depth);
    RowBytesSmall(imgN, outN, x, depth);
    LengthBelow(RowBytes(imgN, x, depth), x, y, outN * SampleBytes(depth));
    Whole(RowBytes(imgN, x, depth) + 1);
    Whole((RowBytes(imgN, x, depth) + 1) * y);
  }

  lemma LengthBelow(n: nat, x: nat, y: nat, size: nat)
    requires n <= x * size && y <= INT_MAX && x * y * size <= INT_MAX
    ensures (n + 1) * y <= 2 * INT_MAX
  {
    MulMonotone(n, x * size, y);
    Reorder(x, y, size);
    Distribute(y, n, 1);
  }

  lemma Reorder(x: nat, y: nat, size: nat)
    ensures y * (x * size) == x * y * size
  {
  }

  lemma RowBytesBelow(imgN: nat, x: nat, depth: nat)
    requires Mad3SizesValid(imgN, x, depth, 7)
    ensures RowBytes(imgN, x, depth) <= INT_MAX
  {
    hide Mad3SizesValid;
    Mad3Limits(imgN, x, depth, 7);
  }

  lemma Whole(n: nat)
    ensures n < 0x1_0000_0000 ==> Unsigned(n) == n
  {
    if n < 0x1_0000_0000 { DivModUnique(n, 0x1_0000_0000, 0, n); }
  }

  /** A packed row is no longer than the row in the buffer. */
  lemma RowBytesSmall(imgN: nat, outN: nat, x: nat, depth: nat)
    requires Depth(depth) && imgN <= outN
    ensures RowBytes(imgN, x, depth) <= x * (outN * SampleBytes(depth))
  {
    hide PackedSize;
    var k := Off(imgN, x);
    PackedSmall(k, depth);
    MulMonotone(imgN, outN, x);
    MulMonotone(k, x * outN, SampleBytes(depth));
    assert SampleBytes(depth) * (x * outN) == x * (outN * SampleBytes(depth));
  }

  lemma PackedSmall(n: nat, depth: nat)
    requires Depth(depth)
    ensures PackedSize(n, depth) <= SampleBytes(depth) * n
  {
  }

  lemma PassSizes(w: nat, h: nat, m: nat, p: nat)
    requires p < 7 && Mad3SizesValid(w, h, m, 0)
    ensures Mad3SizesValid(PassWidth(w, p), PassHeight(h, p), m, 0)
  {
    hide Mad3SizesValid, PassWidth, PassHeight;
    PassWidthAtMost(w, p);
    PassHeightAtMost(h, p);
    Mad3Smaller(w, h, PassWidth(w, p), PassHeight(h, p), m, 0);
  }

  lemma PassWidthAtMost(w: nat, p: nat)
    requires p < 7
    ensures PassWidth(w, p) <= w
  {
    GridsAreOrdered(p);
    if PassWidth(w, p) > 0 {
      var i: nat := PassWidth(w, p) - 1;
      PointInside(w, X_ORIG[p], X_SPC[p], i);
      MulAtLeast(i, X_SPC[p]);
    }
  }

  lemma PassHeightAtMost(h: nat, p: nat)
    requires p < 7
    ensures PassHeight(h, p) <= h
  {
    GridsAreOrdered(p);
    if PassHeight(h, p) > 0 {
      var j: nat := PassHeight(h, p) - 1;
      PointInside(h, Y_ORIG[p], Y_SPC[p], j);
      MulAtLeast(j, Y_SPC[p]);
    }
  }

  class Png {
    const imgN: nat
    /** The byte order of the machine. */
    const littleEndian: bool
    var out: array<byte>

    constructor (n: nat, lowByteFirst: bool)
      ensures imgN == n && littleEndian == lowByteFirst
    {
      imgN, littleEndian := n, lowByteFirst;
      out := new byte[0];
    }

    /** Samples of at most four bits: unfiltered at the right end of each row, then expanded. */
    method CreateSmall(raw: seq<byte>, outN: nat, x: nat, y: nat, depth: nat, color: nat) returns (failure: Option<Error>)
      requires Small(depth) && 0 < imgN <= outN && (outN != imgN ==> outN == imgN + 1 && (imgN == 1 || imgN == 3))
      requires Enough(raw, RowBytes(imgN, x, depth), y)
      requires out.Length == Off(Off(outN, x), y)
      modifies out
      ensures failure == Failure(raw, imgN, x, y, depth)
      ensures failure.None? ==>
                Shown(out[..], imgN, outN, x, depth, color, Rows(1, RowBytes(imgN, x, depth), y, raw).value)
    {
      hide Off, RowIs, PackedSize, Unpacked, Rows, ImageIs, Expanding, Shown, RowShown;
      var n := RowBytes(imgN, x, depth);
      OffOne(n);
      var tooWide := n > x;
      OffWider(1, outN, x);
      OffOne(x);
      var skip := if tooWide then 0 else Off(outN, x) - n;
      failure := UnfilterRows(out, raw, Off(outN, x), skip, 1, 1, n, y, tooWide);
      if failure.None? {
        SmallSucceeds(raw, imgN, x, y, depth);
        ghost var rows := Rows(1, n, y, raw).value;
        if y > 0 {
          SmallRowsUnfiltered(out[..], imgN, outN, x, depth, color, rows);
          ExpandRows(out, imgN, outN, x, y, depth, color, rows);
          SmallRowsShown(out[..], imgN, outN, x, depth, color, rows);
        } else {
          NothingShown(out[..], imgN, outN, x, depth, color, rows);
        }
      }
    }

    /** Samples of eight or sixteen bits. */
    method CreateDeep(raw: seq<byte>, outN: nat, x: nat, y: nat, depth: nat, color: nat) returns (failure: Option<Error>)
      requires Depth(depth) && depth >= 8 && 0 < imgN <= outN <= imgN + 1
      requires Enough(raw, RowBytes(imgN, x, depth), y)
      requires out.Length == Off(Off(outN * SampleBytes(depth), x), y)
      modifies out
      ensures failure == Failure(raw, imgN, x, y, depth)
      ensures failure.None? ==>
                Shown(out[..], imgN, outN, x, depth, color,
                      Rows(FilterBytes(imgN, depth), RowBytes(imgN, x, depth), y, raw).value)
    {
      hide Off, RowIs, PackedSize, Rows, ImageIs, Shown, RowShown;
      RowBytesIs(imgN, x, depth);
      var fb, ob := imgN * SampleBytes(depth), outN * SampleBytes(depth);
      failure := UnfilterRows(out, raw, Off(ob, x), 0, fb, ob, x, y, false);
      if failure.None? {
        ghost var rows := Rows(fb, RowBytes(imgN, x, depth), y, raw).value;
        if y > 0 {
          DeepRowsShown(out[..], imgN, outN, x, depth, color, rows);
        } else {
          NothingShown(out[..], imgN, outN, x, depth, color, rows);
        }
      }
    }

    /** Reconstructs an image of `x` times `y` pixels from inflated data. */
    method CreateImageRaw(raw: seq<byte>, outN: nat, x: nat, y: nat, depth: nat, color: nat) returns (failure: Option<Error>)
      requires Depth(depth) && 0 < imgN <= outN <= imgN + 1 && (depth < 8 && outN != imgN ==> imgN == 1 || imgN == 3)
      modifies `out
      ensures fresh(out)
      ensures failure == if !Mad3SizesValid(x, y, outN * SampleBytes(depth), 0) then Some(OutOfMemory)
                         else RawFailure(raw, imgN, x, y, depth)
      ensures failure.None? ==> out.Length == Off(Off(outN * SampleBytes(depth), x), y)
      ensures failure.None? ==>
                Shown(BigEndian(out[..], depth == 16 && littleEndian), imgN, outN, x, depth, color,
                      Rows(FilterBytes(imgN, depth), RowBytes(imgN, x, depth), y, raw).value)
    {
      hide Off, RowIs, PackedSize, Rows, Shown, RowShown, Failure, Mad3SizesValid, Swapped, Enough, Unsigned;
      out := new byte[0];
      if !Mad3SizesValid(x, y, outN * SampleBytes(depth), 0) { return Some(OutOfMemory); }
      out := new byte[Off(Off(outN * SampleBytes(depth), x), y)];
      if !Mad3SizesValid(imgN, x, depth, 7) { return Some(TooLarge); }
      LengthFits(imgN, outN, x, y, depth, raw);
      if |raw| < Unsigned(Unsigned(RowBytes(imgN, x, depth) + 1) * y) { return Some(NotEnoughPixels); }
      if depth < 8 {
        failure := CreateSmall(raw, outN, x, y, depth, color);
      } else {
        failure := CreateDeep(raw, outN, x, y, depth, color);
        if failure.None? && depth == 16 {
          SampleCount(outN, x, y);
          BigEndianTwice(out[..], littleEndian);
          ToNative(out, x * y * outN, littleEndian);
        }
      }
    }

    /** The passes of an interlaced picture that no buffer was allocated for: the first pass has pixels
        unless the picture has none, and ends in a failure of its own or at the missing buffer. */
    method CreateUnbuffered(data: seq<byte>, outN: nat, w: nat, h: nat, depth: nat, color: nat) returns (failure: Option<Error>)
      requires Depth(depth) && 0 < imgN <= outN <= imgN + 1 && (depth < 8 && outN != imgN ==> imgN == 1 || imgN == 3)
      modifies `out
      ensures failure == UnbufferedFailure(data, imgN, outN, w, h, depth)
      ensures failure.None? ==> out.Length == Off(Off(outN * SampleBytes(depth), w), h)
      ensures failure.None? ==> PassesShown(BigEndian(out[..], depth == 16 && littleEndian), data, imgN, outN, w, h, depth, color, 7)
    {
      hide Mad3SizesValid, RawFailure, Shown, BigEndian, PassWidth, PassHeight, Off, PixelShown;
      var x, y := PassWidth(w, 0), PassHeight(h, 0);
      FirstPass(w, h);
      if x == 0 || y == 0 {
        NoPixels(outN * SampleBytes(depth), w, h);
        out := new byte[0];
        return None;
      }
      RawSucceedsIf(data, imgN, x, y, depth);
      failure := CreateImageRaw(data, outN, x, y, depth, color);
      if failure.None? { return Some(NoBuffer); }
    }

    /** Reconstructs an image; an interlaced one pass by pass, each pass starting where the data of the
        one before it ends. */
    method CreateImage(data: seq<byte>, outN: nat, w: nat, h: nat, depth: nat, color: nat, interlaced: bool)
      returns (failure: Option<Error>)
      requires Depth(depth) && 0 < imgN <= outN <= imgN + 1 && (depth < 8 && outN != imgN ==> imgN == 1 || imgN == 3)
      modifies `out
      ensures failure == if !Mad3SizesValid(w, h, outN * SampleBytes(depth), 0) then
                           if interlaced then UnbufferedFailure(data, imgN, outN, w, h, depth) else Some(OutOfMemory)
                         else if interlaced then PassesFailure(data, imgN, w, h, depth, 7)
                         else RawFailure(data, imgN, w, h, depth)
      ensures failure.None? ==> out.Length == Off(Off(outN * SampleBytes(depth), w), h)
      ensures failure.None? && !interlaced ==>
                Shown(BigEndian(out[..], depth == 16 && littleEndian), imgN, outN, w, depth, color,
                      Rows(FilterBytes(imgN, depth), RowBytes(imgN, w, depth), h, data).value)
      ensures failure.None? && interlaced ==>
                PassesShown(BigEndian(out[..], depth == 16 && littleEndian), data, imgN, outN, w, h, depth, color, 7)
    {
      hide Off, RowIs, PackedSize, Rows, Shown, RowShown, Failure, RawFailure, PassWidth, PassHeight, PassesShown, AllCopied,
        FilterBytes, BigEndian, Mad3SizesValid;
      if !interlaced {
        RawSucceedsIf(data, imgN, w, h, depth);
        failure := CreateImageRaw(data, outN, w, h, depth, color);
        return;
      }
      var m := outN * SampleBytes(depth);
      if !Mad3SizesValid(w, h, m, 0) {
        failure := CreateUnbuffered(data, outN, w, h, depth, color);
        return;
      }
      ghost var swap := depth == 16 && littleEndian;
      var final := new byte[Off(Off(m, w), h)];
      var rest: nat := 0;
      var p: nat := 0;
      NoPassShown(BigEndian(final[..], swap), data, imgN, outN, w, h, depth, color);
      while p < 7
        invariant p <= 7 && fresh(final) && final.Length == Off(Off(m, w), h)
        invariant rest == PassStart(imgN, w, h, depth, p) <= |data|
        invariant PassesFailure(data, imgN, w, h, depth, p).None?
        invariant PassesShown(BigEndian(final[..], swap), data, imgN, outN, w, h, depth, color, p)
      {
        var x, y := PassWidth(w, p), PassHeight(h, p);
        PassesNext(data, imgN, w, h, depth, p);
        if x > 0 && y > 0 {
          PassSizes(w, h, m, p);
          failure := CreateImageRaw(data[rest..], outN, x, y, depth, color);
          if failure.Some? { return; }
          RawSucceeds(data[rest..], imgN, x, y, depth);
          ghost var before := final[..];
          CopyPass(final, out, m, w, h, p);
          if swap {
            EvenImage(m, w, h);
            EvenImage(m, x, y);
          }
          AllCopiedSwapped(before, final[..], out[..], m, w, h, x, p, 0, y, swap);
          PassShown(BigEndian(before, swap), BigEndian(final[..], swap), BigEndian(out[..], swap), data, imgN, outN, w, h, depth, color, p);
          rest := rest + (RowBytes(imgN, x, depth) + 1) * y;
        } else {
          EmptyPassShown(BigEndian(final[..], swap), data, imgN, outN, w, h, depth, color, p);
        }
        p := p + 1;
      }
      out := final;
      failure := None;
    }
  }

  /** Why the image data is refused, if it is; there is enough of it. */
  function Failure(raw: seq<byte>, imgN: nat, x: nat, y: nat, depth: nat): Option<Error>
    requires imgN > 0 && Depth(depth) && Enough(raw, RowBytes(imgN, x, depth), y)
  {
    if y > 0 && depth < 8 && RowBytes(imgN, x, depth) > x && FirstByte(raw) <= 4 then Some(InvalidWidth)
    else if Rows(FilterBytes(imgN, depth), RowBytes(imgN, x, depth), y, raw).None? then Some(InvalidFilter)
    else None
  }

  function FirstByte(raw: seq<byte>): byte
  {
    if raw == [] then 0 else raw[0]
  }

  lemma SmallSucceeds(raw: seq<byte>, imgN: nat, x: nat, y: nat, depth: nat)
    requires imgN > 0 && Small(depth) && Enough(raw, RowBytes(imgN, x, depth), y)
    requires Failure(raw, imgN, x, y, depth).None?
    ensures Rows(1, RowBytes(imgN, x, depth), y, raw).Some?
    ensures y > 0 ==> RowBytes(imgN, x, depth) <= x
  {
    hide PackedSize, Off;
    if y > 0 {
      EnoughForOne(RowBytes(imgN, x, depth), y);
      if FirstByte(raw) > 4 {
        FirstRowRefused(1, RowBytes(imgN, x, depth), y, raw);
      }
    }
  }

  lemma EnoughForOne(n: nat, y: nat)
    requires y > 0
    ensures (n + 1) * y >= n + 1
  {
    MulAtLeast(n + 1, y);
  }

  lemma FirstRowRefused(bpp: nat, n: nat, y: nat, raw: seq<byte>)
    requires bpp > 0 && y > 0 && Enough(raw, n, y) && |raw| > 0 && raw[0] > 4
    ensures Rows(bpp, n, y, raw).None?
  {
    hide UnfilterRow, Above;
    NextRow(bpp, n, y, raw, 0);
  }

  lemma NothingShown(out: seq<byte>, imgN: nat, outN: nat, x: nat, depth: nat, color: nat, rows: seq<seq<byte>>)
    requires Depth(depth) && imgN <= outN && rows == []
    ensures Shown(out, imgN, outN, x, depth, color, rows)
  {
  }

  /** Why an image is refused, if it is. */
  function RawFailure(raw: seq<byte>, imgN: nat, x: nat, y: nat, depth: nat): Option<Error>
    requires imgN > 0 && Depth(depth)
  {
    if !Mad3SizesValid(imgN, x, depth, 7) then Some(TooLarge)
    else if !Enough(raw, RowBytes(imgN, x, depth), y) then Some(NotEnoughPixels)
    else Failure(raw, imgN, x, y, depth)
  }

  lemma RawSucceeds(raw: seq<byte>, imgN: nat, x: nat, y: nat, depth: nat)
    requires imgN > 0 && Depth(depth) && RawFailure(raw, imgN, x, y, depth).None?
    ensures Enough(raw, RowBytes(imgN, x, depth), y) && FilterBytes(imgN, depth) > 0
    ensures Rows(FilterBytes(imgN, depth), RowBytes(imgN, x, depth), y, raw).Some?
  {
    hide PackedSize, Off, Rows;
  }

  lemma RawSucceedsIf(raw: seq<byte>, imgN: nat, x: nat, y: nat, depth: nat)
    requires imgN > 0 && Depth(depth)
    ensures RawFailure(raw, imgN, x, y, depth).None? ==>
              Enough(raw, RowBytes(imgN, x, depth), y) && FilterBytes(imgN, depth) > 0
              && Rows(FilterBytes(imgN, depth), RowBytes(imgN, x, depth), y, raw).Some?
  {
    hide PackedSize, Off, Rows;
    if RawFailure(raw, imgN, x, y, depth).None? { RawSucceeds(raw, imgN, x, y, depth); }
  }

  // ---------- interlaced images ----------

  /** How much data pass `p` takes; an empty pass has none, not even filter types. */
  function PassBytes(imgN: nat, w: nat, h: nat, depth: nat, p: nat): nat
    requires p < 7
  {
    var x, y := PassWidth(w, p), PassHeight(h, p);
    if x > 0 && y > 0 then (RowBytes(imgN, x, depth) + 1) * y else 0
  }

  function PassStart(imgN: nat, w: nat, h: nat, depth: nat, p: nat): nat
    requires p <= 7
  {
    if p == 0 then 0 else PassStart(imgN, w, h, depth, p - 1) + PassBytes(imgN, w, h, depth, p - 1)
  }

  /** Why pass `p` is refused, if it is. */
  function PassFailure(data: seq<byte>, imgN: nat, w: nat, h: nat, depth: nat, p: nat): Option<Error>
    requires p < 7 && imgN > 0 && Depth(depth)
  {
    var x, y, start := PassWidth(w, p), PassHeight(h, p), PassStart(imgN, w, h, depth, p);
    if x == 0 || y == 0 then None
    else if start > |data| then Some(NotEnoughPixels)
    else RawFailure(data[start..], imgN, x, y, depth)
  }

  lemma FirstPass(w: nat, h: nat)
    ensures (PassWidth(w, 0) == 0 <==> w == 0) && (PassHeight(h, 0) == 0 <==> h == 0)
  {
  }

  lemma NoPixels(n: nat, w: nat, h: nat)
    requires w == 0 || h == 0
    ensures Off(Off(n, w), h) == 0
  {
    if w == 0 { assert Off(n, w) == 0; }
  }

  /** What an interlaced picture that no buffer was allocated for ends with; its first pass has pixels
      unless the picture has none. */
  function UnbufferedFailure(data: seq<byte>, imgN: nat, outN: nat, w: nat, h: nat, depth: nat): Option<Error>
    requires imgN > 0 && Depth(depth)
  {
    var x, y := PassWidth(w, 0), PassHeight(h, 0);
    if w == 0 || h == 0 then None
    else if !Mad3SizesValid(x, y, outN * SampleBytes(depth), 0) then Some(OutOfMemory)
    else if RawFailure(data, imgN, x, y, depth).Some? then RawFailure(data, imgN, x, y, depth)
    else Some(NoBuffer)
  }

  /** The first failure of the passes before `p`. */
  function PassesFailure(data: seq<byte>, imgN: nat, w: nat, h: nat, depth: nat, p: nat): Option<Error>
    requires p <= 7 && imgN > 0 && Depth(depth)
  {
    if p == 0 then None
    else if PassesFailure(data, imgN, w, h, depth, p - 1).Some? then PassesFailure(data, imgN, w, h, depth, p - 1)
    else PassFailure(data, imgN, w, h, depth, p - 1)
  }

  lemma {:induction false} FirstFailure(data: seq<byte>, imgN: nat, w: nat, h: nat, depth: nat, p: nat, q: nat)
    requires p <= q <= 7 && imgN > 0 && Depth(depth) && PassesFailure(data, imgN, w, h, depth, p).Some?
    ensures PassesFailure(data, imgN, w, h, depth, q) == PassesFailure(data, imgN, w, h, depth, p)
  {
    hide PassFailure;
    if p < q { FirstFailure(data, imgN, w, h, depth, p, q - 1); }
  }

  /** One pass further. */
  lemma PassesNext(data: seq<byte>, imgN: nat, w: nat, h: nat, depth: nat, p: nat)
    requires p < 7 && imgN > 0 && Depth(depth) && PassStart(imgN, w, h, depth, p) <= |data|
    requires PassesFailure(data, imgN, w, h, depth, p).None?
    ensures var x, y, start := PassWidth(w, p), PassHeight(h, p), PassStart(imgN, w, h, depth, p);
            if x > 0 && y > 0 then
              && PassesFailure(data, imgN, w, h, depth, p + 1) == RawFailure(data[start..], imgN, x, y, depth)
              && PassStart(imgN, w, h, depth, p + 1) == start + (RowBytes(imgN, x, depth) + 1) * y
              && (PassesFailure(data, imgN, w, h, depth, p + 1).Some? ==>
                    PassesFailure(data, imgN, w, h, depth, 7) == PassesFailure(data, imgN, w, h, depth, p + 1))
            else
              PassesFailure(data, imgN, w, h, depth, p + 1).None? && PassStart(imgN, w, h, depth, p + 1) == start
  {
    hide PassWidth, PassHeight, RawFailure, RowBytes;
    if PassesFailure(data, imgN, w, h, depth, p + 1).Some? { FirstFailure(data, imgN, w, h, depth, p + 1, 7); }
  }

  /** Pixel (`x`, `y`) of the picture is the pixel at its place in its pass, as the data of that pass has it. */
  ghost predicate PixelShown(out: seq<byte>, data: seq<byte>, imgN: nat, outN: nat, w: nat, h: nat, depth: nat, color: nat,
                             x: nat, y: nat)
    requires Depth(depth) && 0 < imgN <= outN
  {
    var p, i, j := PassOf(x, y), ColumnOf(x, y), LineOf(x, y);
    var pw, ph, start := PassWidth(w, p), PassHeight(h, p), PassStart(imgN, w, h, depth, p);
    && start <= |data| && RawFailure(data[start..], imgN, pw, ph, depth).None?
    && PixelFrom(out, data[start..], imgN, outN, w, pw, ph, depth, color, x, y, i, j)
  }

  ghost predicate PixelFrom(out: seq<byte>, raw: seq<byte>, imgN: nat, outN: nat, w: nat, pw: nat, ph: nat, depth: nat,
                            color: nat, x: nat, y: nat, i: nat, j: nat)
    requires Depth(depth) && 0 < imgN <= outN && RawFailure(raw, imgN, pw, ph, depth).None?
  {
    RawSucceeds(raw, imgN, pw, ph, depth);
    var rows := Rows(FilterBytes(imgN, depth), RowBytes(imgN, pw, depth), ph, raw).value;
    var n, m := imgN * SampleBytes(depth), outN * SampleBytes(depth);
    && n <= m && j < |rows| && i < pw
    && Spot(m, w, x, y) + m <= |out|
    && var samples := RowSamples(rows[j], depth, color, Off(imgN, pw));
       Off(n, i) + n <= |samples| && PixelOf(out, m, w, x, y) == Pixel(samples, n, i) + Opaque(m - n)
  }

  ghost predicate PassesShown(out: seq<byte>, data: seq<byte>, imgN: nat, outN: nat, w: nat, h: nat, depth: nat, color: nat,
                              p: nat)
    requires Depth(depth) && 0 < imgN <= outN
  {
    forall x: nat, y: nat :: x < w && y < h && PassOf(x, y) < p ==>
      PixelShown(out, data, imgN, outN, w, h, depth, color, x, y)
  }

  lemma NoPassShown(out: seq<byte>, data: seq<byte>, imgN: nat, outN: nat, w: nat, h: nat, depth: nat, color: nat)
    requires Depth(depth) && 0 < imgN <= outN
    ensures PassesShown(out, data, imgN, outN, w, h, depth, color, 0)
  {
  }

  lemma EmptyPassShown(out: seq<byte>, data: seq<byte>, imgN: nat, outN: nat, w: nat, h: nat, depth: nat, color: nat, p: nat)
    requires Depth(depth) && 0 < imgN <= outN && p < 7 && (PassWidth(w, p) == 0 || PassHeight(h, p) == 0)
    requires PassesShown(out, data, imgN, outN, w, h, depth, color, p)
    ensures PassesShown(out, data, imgN, outN, w, h, depth, color, p + 1)
  {
    hide PassOf, PassWidth, PassHeight, PixelShown, ColumnOf, LineOf;
    forall x: nat, y: nat | x < w && y < h && PassOf(x, y) < p + 1
      ensures PixelShown(out, data, imgN, outN, w, h, depth, color, x, y)
    {
      PixelIsTarget(w, h, x, y);
    }
  }

  /** A pixel of the pass's own buffer. */
  lemma PixelInPass(image: seq<byte>, raw: seq<byte>, imgN: nat, outN: nat, pw: nat, ph: nat, depth: nat, color: nat,
                    i: nat, j: nat)
    requires Depth(depth) && 0 < imgN <= outN && i < pw && j < ph && RawFailure(raw, imgN, pw, ph, depth).None?
    requires FilterBytes(imgN, depth) > 0 && Enough(raw, RowBytes(imgN, pw, depth), ph)
    requires Rows(FilterBytes(imgN, depth), RowBytes(imgN, pw, depth), ph, raw).Some?
    requires Shown(image, imgN, outN, pw, depth, color,
                   Rows(FilterBytes(imgN, depth), RowBytes(imgN, pw, depth), ph, raw).value)
    ensures PixelFrom(image, raw, imgN, outN, pw, pw, ph, depth, color, i, j, i, j)
  {
    hide Off, PackedSize, RowSamples, FilterBytes, RawFailure, Opaque, Pixel;
    var rows := Rows(FilterBytes(imgN, depth), RowBytes(imgN, pw, depth), ph, raw).value;
    var n, m := imgN * SampleBytes(depth), outN * SampleBytes(depth);
    assert RowShown(image, imgN, outN, pw, depth, color, rows[j], j);
    assert PixelIs(image, Off(Off(m, pw), j), n, m, m - n, RowSamples(rows[j], depth, color, Off(imgN, pw)), i);
  }

  /** The pass that was just copied is shown, and so are the ones before it still. */
  lemma PassShown(was: seq<byte>, out: seq<byte>, image: seq<byte>, data: seq<byte>, imgN: nat, outN: nat, w: nat, h: nat,
                  depth: nat, color: nat, p: nat)
    requires Depth(depth) && 0 < imgN <= outN && p < 7
    requires PassesShown(was, data, imgN, outN, w, h, depth, color, p)
    requires PassStart(imgN, w, h, depth, p) <= |data|
    requires RawFailure(data[PassStart(imgN, w, h, depth, p)..], imgN, PassWidth(w, p), PassHeight(h, p), depth).None?
    requires var raw, pw, ph := data[PassStart(imgN, w, h, depth, p)..], PassWidth(w, p), PassHeight(h, p);
             && FilterBytes(imgN, depth) > 0 && Enough(raw, RowBytes(imgN, pw, depth), ph)
             && Rows(FilterBytes(imgN, depth), RowBytes(imgN, pw, depth), ph, raw).Some?
             && Shown(image, imgN, outN, pw, depth, color,
                      Rows(FilterBytes(imgN, depth), RowBytes(imgN, pw, depth), ph, raw).value)
    requires AllCopied(was, out, image, outN * SampleBytes(depth), w, h, PassWidth(w, p), p, 0, PassHeight(h, p))
    ensures PassesShown(out, data, imgN, outN, w, h, depth, color, p + 1)
  {
    hide PassOf, PassWidth, PassHeight, ColumnOf, LineOf, Off, Shown, PixelFrom, PassStart, RawFailure, Rows, Spot, PixelOf,
      FilterBytes, RowBytes, PixelShown;
    var m, pw, ph, none: nat := outN * SampleBytes(depth), PassWidth(w, p), PassHeight(h, p), 0;
    forall x: nat, y: nat | x < w && y < h && PassOf(x, y) < p + 1
      ensures PixelShown(out, data, imgN, outN, w, h, depth, color, x, y)
    {
      PixelIsTarget(w, h, x, y);
      assert Copied(was, out, image, m, w, pw, p, none, ph, x, y);
      if PassOf(x, y) < p {
        PixelStays(was, out, data, imgN, outN, w, h, depth, color, x, y);
      } else {
        PixelInPass(image, data[PassStart(imgN, w, h, depth, p)..], imgN, outN, pw, ph, depth, color,
                    ColumnOf(x, y), LineOf(x, y));
        PixelArrives(image, out, data, imgN, outN, w, h, depth, color, x, y);
      }
    }
  }

  lemma PixelStays(was: seq<byte>, out: seq<byte>, data: seq<byte>, imgN: nat, outN: nat, w: nat, h: nat, depth: nat,
                   color: nat, x: nat, y: nat)
    requires Depth(depth) && 0 < imgN <= outN && PixelShown(was, data, imgN, outN, w, h, depth, color, x, y)
    requires var m := outN * SampleBytes(depth);
             Spot(m, w, x, y) + m <= |was| == |out| && PixelOf(out, m, w, x, y) == PixelOf(was, m, w, x, y)
    ensures PixelShown(out, data, imgN, outN, w, h, depth, color, x, y)
  {
    hide PassOf, PassWidth, PassHeight, ColumnOf, LineOf, Off, PassStart, RawFailure, Rows, Spot, PixelOf, RowSamples,
      FilterBytes, RowBytes, Opaque, Pixel;
  }

  lemma PixelArrives(image: seq<byte>, out: seq<byte>, data: seq<byte>, imgN: nat, outN: nat, w: nat, h: nat, depth: nat,
                     color: nat, x: nat, y: nat)
    requires Depth(depth) && 0 < imgN <= outN
    requires var p := PassOf(x, y);
             && PassStart(imgN, w, h, depth, p) <= |data|
             && RawFailure(data[PassStart(imgN, w, h, depth, p)..], imgN, PassWidth(w, p), PassHeight(h, p), depth).None?
             && PixelFrom(image, data[PassStart(imgN, w, h, depth, p)..], imgN, outN, PassWidth(w, p), PassWidth(w, p),
                          PassHeight(h, p), depth, color, ColumnOf(x, y), LineOf(x, y), ColumnOf(x, y), LineOf(x, y))
    requires var m, pw := outN * SampleBytes(depth), PassWidth(w, PassOf(x, y));
             && Spot(m, w, x, y) + m <= |out| && Spot(m, pw, ColumnOf(x, y), LineOf(x, y)) + m <= |image|
             && PixelOf(out, m, w, x, y) == PixelOf(image, m, pw, ColumnOf(x, y), LineOf(x, y))
    ensures PixelShown(out, data, imgN, outN, w, h, depth, color, x, y)
  {
    hide PassOf, PassWidth, PassHeight, ColumnOf, LineOf, Off, PassStart, RawFailure, Rows, Spot, PixelOf, RowSamples,
      FilterBytes, RowBytes, Opaque, Pixel;
  }
}
