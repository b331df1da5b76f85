/** What a decoded PNG picture is, byte by byte and in plain terms: the bytes that the filters rebuild, the samples
    in the bits of a byte, where every byte of the picture comes from, and the interlace pattern of the standard. */
module PngPlain {
  import opened Adam7
  import opened Bits
  import opened Png
  import opened PngFilter
  import opened PngNative
  import opened PngRows
  import opened PngScatter
  import opened PngUnpack
  import opened Sizes
  import opened Wrappers

  // ---------- section 6 of RFC 2083: the filters ----------

  /** A rebuilt byte from the byte that was sent and the rebuilt bytes to the left, above, and above to the left,
      which are zero outside the picture.  For filter 4 that is the one closest to left + above - upper left. */
  lemma RebuiltByte(filter: nat, bpp: nat, prior: seq<byte>, bytes: seq<byte>, i: nat)
    requires filter <= 4 && bpp >= 1 && i < |prior| == |bytes|
    ensures var row := UnfilterRow(filter, bpp, prior, bytes);
            var sent: int, up: int := bytes[i], prior[i];
            var left: int := if i < bpp then 0 else row[i - bpp];
            var corner: int := if i < bpp then 0 else prior[i - bpp];
            row[i] == (sent + (if filter == 0 then 0 else if filter == 1 then left else if filter == 2 then up
                               else if filter == 3 then (left + up) / 2 else Closest(left, up, corner))) % 256
  {
    hide UnfilterRow, Paeth;
    UnfilteredAt(filter, bpp, prior, bytes, i);
    var row := UnfilterRow(filter, bpp, prior, bytes);
    var left: byte := if i < bpp then 0 else row[i - bpp];
    var corner: byte := if i < bpp then 0 else prior[i - bpp];
    PaethIsClosest(left, prior[i], corner);
  }

  /** How far apart two numbers are. */
  function Apart(u: int, v: int): (d: nat)
    ensures d == u - v || d == v - u
  {
    if u < v then v - u else u - v
  }

  /** Of three numbers the one that is closest to a + b - c, the earlier one of two that are equally close. */
  function Closest(a: int, b: int, c: int): (r: int)
    ensures r == a || r == b || r == c
    ensures Apart(a + b - c, r) <= Apart(a + b - c, a) && Apart(a + b - c, r) <= Apart(a + b - c, b)
    ensures Apart(a + b - c, r) <= Apart(a + b - c, c)
    ensures Apart(a + b - c, r) == Apart(a + b - c, a) ==> r == a
    ensures Apart(a + b - c, r) == Apart(a + b - c, b) ==> r == a || r == b
  {
    var p := a + b - c;
    if Apart(p, a) <= Apart(p, b) && Apart(p, a) <= Apart(p, c) then a else if Apart(p, b) <= Apart(p, c) then b else c
  }

  lemma PaethIsClosest(a: int, b: int, c: int)
    ensures Paeth(a, b, c) == Closest(a, b, c)
  {
    var p := a + b - c;
    assert Abs(p - a) == Apart(p, a) && Abs(p - b) == Apart(p, b) && Abs(p - c) == Apart(p, c);
  }

  /** Each row of an image is its filter type and `n` bytes, rebuilt from the row before. */
  lemma {:induction false} ImageRow(bpp: nat, n: nat, y: nat, raw: seq<byte>, j: nat)
    requires bpp >= 1 && Enough(raw, n, y) && Rows(bpp, n, y, raw).Some? && j < y
    ensures (n + 1) * j + 1 + n <= |raw| && raw[(n + 1) * j] <= 4
    ensures var rows := Rows(bpp, n, y, raw).value;
            rows[j] == UnfilterRow(raw[(n + 1) * j], bpp, if j == 0 then Zeros(n) else rows[j - 1],
                                   raw[(n + 1) * j + 1..(n + 1) * j + 1 + n])
    decreases y
  {
    hide UnfilterRow, Zeros;
    RowInside(n, y, |raw|);
    if j < y - 1 { ImageRow(bpp, n, y - 1, raw, j); }
  }

  /** A byte of an image from the inflated data; the row begins at `at`. */
  lemma ImageByte(bpp: nat, n: nat, y: nat, raw: seq<byte>, j: nat, i: nat, at: nat)
    requires bpp >= 1 && Enough(raw, n, y) && Rows(bpp, n, y, raw).Some? && j < y && i < n && at == (n + 1) * j
    ensures at + 1 + i < |raw| && raw[at] <= 4
    ensures var rows := Rows(bpp, n, y, raw).value;
            var filter: int, sent: int := raw[at], raw[at + 1 + i];
            var left: int := if i < bpp then 0 else rows[j][i - bpp];
            var up: int := if j == 0 then 0 else rows[j - 1][i];
            var corner: int := if i < bpp || j == 0 then 0 else rows[j - 1][i - bpp];
            rows[j][i] == (sent + (if filter == 0 then 0 else if filter == 1 then left else if filter == 2 then up
                                   else if filter == 3 then (left + up) / 2 else Closest(left, up, corner))) % 256
  {
    hide UnfilterRow, Closest, Rows, Enough, Zeros;
    ImageRow(bpp, n, y, raw, j);
    var rows := Rows(bpp, n, y, raw).value;
    var prior, bytes := if j == 0 then Zeros(n) else rows[j - 1], raw[at + 1..at + 1 + n];
    RebuiltByte(raw[at], bpp, prior, bytes, i);
    ZeroAt(n, i);
    if i >= bpp { ZeroAt(n, i - bpp); }
    assert bytes[i] == raw[at + 1 + i];
  }

  lemma ZeroAt(n: nat, i: nat)
    requires i < n
    ensures Zeros(n)[i] == 0
  {
  }

  // ---------- samples ----------

  /** Sample `i` of a packed row: the `depth` bits from bit `bit` on, with `skip` bits of their byte below them;
      grey samples are scaled so that the largest value becomes 255. */
  lemma UnpackedSample(row: seq<byte>, depth: nat, color: nat, n: nat, i: nat, bit: nat, skip: nat)
    requires Small(depth) && (n * depth + 7) / 8 <= |row| && i < n && bit == i * depth && bit % 8 + depth + skip == 8
    ensures bit / 8 < |row|
    ensures var v := row[bit / 8] / Pow2(skip) % Pow2(depth);
            Unpacked(row, depth, color, n)[i] == if color == 0 then v * 255 / (Pow2(depth) - 1) else v
  {
    hide Pow2, Scale;
    Pow2Values();
    SampleInside(n, depth, i);
    var b := row[bit / 8];
    assert depth * i == bit;
    ShrIsDivision(b, skip);
    Scaled(b / Pow2(skip) % Pow2(depth), depth);
    Unscaled(depth, color);
  }

  lemma Unscaled(depth: nat, color: nat)
    requires Small(depth)
    ensures Scale(depth, color) == if color == 0 then Scale(depth, 0) else 1
  {
  }

  lemma Scaled(v: nat, depth: nat)
    requires Small(depth)
    ensures Scale(depth, 0) * v == v * 255 / (Pow2(depth) - 1)
  {
    hide Pow2;
    Pow2Values();
    if depth == 2 { DivModUnique(v * 255, 3, 85 * v, 0); }
    if depth == 4 { DivModUnique(v * 255, 15, 17 * v, 0); }
  }

  /** A byte of the picture as machines with the more significant byte first have it: on the others the two
      bytes of each 16-bit sample change places. */
  lemma ByteOrder(out: seq<byte>, swap: bool, i: nat)
    requires i < |out| && |out| % 2 == 0
    ensures BigEndian(out, swap)[i] == if !swap then out[i] else if i % 2 == 0 then out[i + 1] else out[i - 1]
  {
  }

  // ---------- pictures ----------

  /** The sizes of a row: bytes of a pixel that filters look back, bytes of a row, bytes of a sample. */
  lemma RowSizes(imgN: nat, x: nat, depth: nat)
    requires Depth(depth)
    ensures depth == 1 || depth == 2 || depth == 4 || depth == 8 || depth == 16
    ensures FilterBytes(imgN, depth) == if depth == 16 then 2 * imgN else if depth == 8 then imgN else 1
    ensures RowBytes(imgN, x, depth) == (imgN * x * depth + 7) / 8
    ensures SampleBytes(depth) == if depth == 16 then 2 else 1
  {
  }

  /** Byte `c` of the pixel in column `q` and row `j`: a byte of the rebuilt row, a sample of it, or full opacity. */
  lemma PictureByte(out: seq<byte>, imgN: nat, outN: nat, x: nat, depth: nat, color: nat, rows: seq<seq<byte>>,
                    j: nat, q: nat, c: nat, m: nat, n: nat, at: nat)
    requires Depth(depth) && imgN <= outN && Shown(out, imgN, outN, x, depth, color, rows)
    requires m == (if depth == 16 then 2 * outN else outN) && n == (if depth == 16 then 2 * imgN else imgN)
    requires j < |rows| && q < x && c < m && at == m * x * j + m * q + c
    ensures at < |out| && n * q + n <= |RowSamples(rows[j], depth, color, imgN * x)|
    ensures out[at] == if c < n then RowSamples(rows[j], depth, color, imgN * x)[n * q + c] else 255
  {
    hide RowSamples, Pixel, Opaque;
    assert RowShown(out, imgN, outN, x, depth, color, rows[j], j);
    var samples := RowSamples(rows[j], depth, color, imgN * x);
    assert PixelIs(out, m * x * j, n, m, m - n, samples, q);
    PixelByte(out, m * x * j, n, m, samples, q, c);
  }

  /** The samples of a row are its bytes, unless it is packed. */
  lemma DeepSamples(row: seq<byte>, depth: nat, color: nat, n: nat)
    requires Depth(depth) && (depth < 8 ==> (n * depth + 7) / 8 <= |row|)
    ensures RowSamples(row, depth, color, n) == if depth < 8 then Unpacked(row, depth, color, n) else row
  {
  }

  lemma PixelByte(out: seq<byte>, base: nat, n: nat, m: nat, samples: seq<byte>, q: nat, c: nat)
    requires n <= m && c < m && PixelIs(out, base, n, m, m - n, samples, q)
    ensures base + m * q + c < |out| && n * q + n <= |samples|
    ensures out[base + m * q + c] == if c < n then samples[n * q + c] else 255
  {
    var at := base + Off(m, q);
    assert out[at..at + m][c] == out[at + c];
  }

  /** A row is too long for the size test exactly if its bits and seven more do not fit 31 bits. */
  lemma WidthInRange(imgN: nat, x: nat, depth: nat)
    requires Depth(depth) && 0 < imgN <= 0x7fff_ffff
    ensures Mad3SizesValid(imgN, x, depth, 7) <==> imgN * x * depth + 7 <= 0x7fff_ffff
  {
    hide Mad3SizesValid;
    var bits := imgN * x;
    MulMonotone(1, depth, bits);
    MulMonotone(1, imgN, x);
    if Mad3SizesValid(imgN, x, depth, 7) {
      Mad3Limits(imgN, x, depth, 7);
    } else if bits * depth + 7 <= 0x7fff_ffff {
      Mad3SizesValidIff(imgN, x, depth, 7);
    }
  }

  /** Why image data is refused, test by test; `n` is the number of bytes of a row. */
  lemma Refusals(raw: seq<byte>, imgN: nat, x: nat, y: nat, depth: nat, n: nat, bits: nat)
    requires Depth(depth) && 0 < imgN <= 0x7fff_ffff && bits == imgN * x * depth && n == (bits + 7) / 8
    ensures RawFailure(raw, imgN, x, y, depth) ==
            if bits + 7 > 0x7fff_ffff then Some(TooLarge)
            else if |raw| < (n + 1) * y then Some(NotEnoughPixels)
            else if y > 0 && depth < 8 && n > x && raw != [] && raw[0] <= 4 then Some(InvalidWidth)
            else if exists j: nat :: j < y && BadFilter(raw, n, j) then Some(InvalidFilter)
            else None
  {
    hide Rows, Mad3SizesValid, BadFilter;
    WidthInRange(imgN, x, depth);
    assert RowBytes(imgN, x, depth) == n;
    if bits + 7 <= 0x7fff_ffff && |raw| >= (n + 1) * y {
      RowsRefused(FilterBytes(imgN, depth), n, y, raw);
      if y > 0 { EnoughForOne(n, y); }
    }
  }

  // ---------- section 2.6 of RFC 2083: the interlace pattern ----------

  /** The pattern of the standard, repeated over the picture: the pass of every pixel, counted from one. */
  lemma Pattern(x: nat, y: nat)
    ensures PassOf(x, y) + 1 ==
            [[1, 6, 4, 6, 2, 6, 4, 6],
             [7, 7, 7, 7, 7, 7, 7, 7],
             [5, 6, 5, 6, 5, 6, 5, 6],
             [7, 7, 7, 7, 7, 7, 7, 7],
             [3, 6, 4, 6, 3, 6, 4, 6],
             [7, 7, 7, 7, 7, 7, 7, 7],
             [5, 6, 5, 6, 5, 6, 5, 6],
             [7, 7, 7, 7, 7, 7, 7, 7]][y % 8][x % 8]
  {
    hide PassOf;
    SamePass(x, y);
    PatternHere(x % 8, y % 8);
  }

  lemma SameGrid(x: nat)
    ensures x % 8 % 8 == x % 8 && x % 8 % 4 == x % 4 && x % 8 % 2 == x % 2
  {
    Residues(x, x / 8, x % 8);
  }

  lemma SamePass(x: nat, y: nat)
    ensures PassOf(x, y) == PassOf(x % 8, y % 8)
  {
    SameGrid(x);
    SameGrid(y);
  }

  lemma PatternHere(x: nat, y: nat)
    requires x < 8 && y < 8
    ensures PassOf(x, y) + 1 ==
            [[1, 6, 4, 6, 2, 6, 4, 6],
             [7, 7, 7, 7, 7, 7, 7, 7],
             [5, 6, 5, 6, 5, 6, 5, 6],
             [7, 7, 7, 7, 7, 7, 7, 7],
             [3, 6, 4, 6, 3, 6, 4, 6],
             [7, 7, 7, 7, 7, 7, 7, 7],
             [5, 6, 5, 6, 5, 6, 5, 6],
             [7, 7, 7, 7, 7, 7, 7, 7]][y][x]
  {
    if y == 0 {} else if y == 1 {} else if y == 2 {} else if y == 3 {} else if y == 4 {} else if y == 5 {} else if y == 6 {}
  }

  /** How many columns and rows each pass has, and which of them a pixel is in. */
  lemma PassGrid(w: nat, h: nat, x: nat, y: nat)
    ensures PassWidth(w, 0) == (w + 7) / 8 && PassWidth(w, 1) == (w + 3) / 8 && PassWidth(w, 2) == (w + 3) / 4
    ensures PassWidth(w, 3) == (w + 1) / 4 && PassWidth(w, 4) == (w + 1) / 2 && PassWidth(w, 5) == w / 2 && PassWidth(w, 6) == w
    ensures PassHeight(h, 0) == (h + 7) / 8 && PassHeight(h, 1) == (h + 7) / 8 && PassHeight(h, 2) == (h + 3) / 8
    ensures PassHeight(h, 3) == (h + 3) / 4 && PassHeight(h, 4) == (h + 1) / 4 && PassHeight(h, 5) == (h + 1) / 2
    ensures PassHeight(h, 6) == h / 2
    ensures ColumnOf(x, y) == x / [8, 8, 4, 4, 2, 2, 1][PassOf(x, y)] && LineOf(x, y) == y / [8, 8, 8, 4, 4, 2, 2][PassOf(x, y)]
  {
  }

  /** The passes follow each other in the data; a pass without pixels has none. */
  lemma PassData(imgN: nat, w: nat, h: nat, depth: nat, p: nat)
    requires p < 7
    ensures PassStart(imgN, w, h, depth, 0) == 0
    ensures var pw, ph := PassWidth(w, p), PassHeight(h, p);
            PassStart(imgN, w, h, depth, p + 1) == PassStart(imgN, w, h, depth, p) +
            if pw == 0 || ph == 0 then 0 else ((imgN * pw * depth + 7) / 8 + 1) * ph
  {
    hide PassWidth, PassHeight;
  }

  /** Byte `c` of pixel (`x`, `y`) of an interlaced picture: from its pass, its row there, and its column. */
  lemma InterlacedByte(out: seq<byte>, data: seq<byte>, imgN: nat, outN: nat, w: nat, h: nat, depth: nat, color: nat,
                       x: nat, y: nat, c: nat, m: nat, n: nat, at: nat) returns (rows: seq<seq<byte>>)
    requires Depth(depth) && 0 < imgN <= outN && PassesShown(out, data, imgN, outN, w, h, depth, color, 7)
    requires m == (if depth == 16 then 2 * outN else outN) && n == (if depth == 16 then 2 * imgN else imgN)
    requires x < w && y < h && c < m && at == m * w * y + m * x + c
    ensures var p := PassOf(x, y);
            var start, pw, ph := PassStart(imgN, w, h, depth, p), PassWidth(w, p), PassHeight(h, p);
            && start <= |data| && Enough(data[start..], RowBytes(imgN, pw, depth), ph)
            && FilterBytes(imgN, depth) >= 1
            && Rows(FilterBytes(imgN, depth), RowBytes(imgN, pw, depth), ph, data[start..]) == Some(rows)
    ensures LineOf(x, y) < |rows| && at < |out|
    ensures var samples := RowSamples(rows[LineOf(x, y)], depth, color, imgN * PassWidth(w, PassOf(x, y)));
            && n * ColumnOf(x, y) + n <= |samples|
            && out[at] == if c < n then samples[n * ColumnOf(x, y) + c] else 255
  {
    hide RowSamples, Pixel, Opaque, PassOf, PassStart, PassWidth, PassHeight, Rows, FilterBytes, ColumnOf, LineOf, RawFailure;
    assert PixelShown(out, data, imgN, outN, w, h, depth, color, x, y);
    var p := PassOf(x, y);
    var raw := data[PassStart(imgN, w, h, depth, p)..];
    RawSucceeds(raw, imgN, PassWidth(w, p), PassHeight(h, p), depth);
    rows := Rows(FilterBytes(imgN, depth), RowBytes(imgN, PassWidth(w, p), depth), PassHeight(h, p), raw).value;
    SpotByte(out, RowSamples(rows[LineOf(x, y)], depth, color, Off(imgN, PassWidth(w, p))), m, n, w, x, y, ColumnOf(x, y), c);
  }

  lemma SpotByte(out: seq<byte>, samples: seq<byte>, m: nat, n: nat, w: nat, x: nat, y: nat, i: nat, c: nat)
    requires n <= m && c < m && Spot(m, w, x, y) + m <= |out| && Off(n, i) + n <= |samples|
    requires PixelOf(out, m, w, x, y) == Pixel(samples, n, i) + Opaque(m - n)
    ensures m * w * y + m * x + c < |out|
    ensures out[m * w * y + m * x + c] == if c < n then samples[n * i + c] else 255
  {
    assert PixelOf(out, m, w, x, y)[c] == out[Spot(m, w, x, y) + c];
  }

  /** Interlaced data is accepted if the data of every pass with pixels is; otherwise the first refusal counts. */
  lemma {:induction false} PassRefusals(data: seq<byte>, imgN: nat, w: nat, h: nat, depth: nat, p: nat)
    requires p < 7 && imgN > 0 && Depth(depth)
    ensures PassesFailure(data, imgN, w, h, depth, 0) == None
    ensures var before, start := PassesFailure(data, imgN, w, h, depth, p), PassStart(imgN, w, h, depth, p);
            PassesFailure(data, imgN, w, h, depth, p + 1) ==
            if before.Some? || PassWidth(w, p) == 0 || PassHeight(h, p) == 0 then before
            else if start > |data| then Some(NotEnoughPixels)
            else RawFailure(data[start..], imgN, PassWidth(w, p), PassHeight(h, p), depth)
  {
    hide RawFailure, PassWidth, PassHeight, PassStart;
  }
}
