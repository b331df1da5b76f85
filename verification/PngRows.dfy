/** Rows of pixels inside the output buffer: rebuilding a filtered row in place, pixel by pixel, and
    putting an alpha channel between the samples. */
module PngRows {
  import opened Bits
  import opened PngFilter

  /** The offset of pixel `q` when a pixel takes `n` bytes. */
  function Off(n: nat, q: nat): nat
  {
    n * q
  }

  lemma OffNext(n: nat, q: nat)
    ensures Off(n, 0) == 0 && Off(n, q + 1) == Off(n, q) + n
  {
  }

  lemma OffMonotone(n: nat, p: nat, q: nat)
    requires p <= q
    ensures Off(n, p) <= Off(n, q)
  {
    MulMonotone(p, q, n);
  }

  lemma OffWider(n: nat, m: nat, q: nat)
    requires n <= m
    ensures Off(n, q) <= Off(m, q)
  {
    MulMonotone(n, m, q);
  }

  function Opaque(n: nat): (alpha: seq<byte>)
    ensures |alpha| == n
  {
    seq(n, _ => 255)
  }

  /** Bytes `n` at a time: the ones of pixel `q`. */
  function Pixel(samples: seq<byte>, n: nat, q: nat): (bytes: seq<byte>)
    requires Off(n, q) + n <= |samples|
    ensures |bytes| == n
  {
    samples[Off(n, q)..Off(n, q) + n]
  }

  lemma PixelInside(len: nat, n: nat, x: nat, q: nat)
    requires q < x && Off(n, x) <= len
    ensures Off(n, q) + n <= len
  {
    OffNext(n, q);
    OffMonotone(n, q + 1, x);
  }

  /** In `out` from `base` on a pixel takes `m` bytes; pixel `q` has its `n` samples and then `a` bytes
      of full opacity. */
  ghost predicate PixelIs(out: seq<byte>, base: nat, n: nat, m: nat, a: nat, samples: seq<byte>, q: nat)
    requires n + a <= m
  {
    && base + Off(m, q) + m <= |out| && Off(n, q) + n <= |samples|
    && out[base + Off(m, q)..base + Off(m, q) + n + a] == Pixel(samples, n, q) + Opaque(a)
  }

  /** The first `x` pixels of a row. */
  ghost predicate RowIs(out: seq<byte>, base: nat, n: nat, m: nat, a: nat, samples: seq<byte>, x: nat)
    requires n + a <= m
  {
    forall q: nat :: q < x ==> PixelIs(out, base, n, m, a, samples, q)
  }

  /** A row is kept by writes elsewhere. */
  lemma RowKept(out: seq<byte>, out': seq<byte>, base: nat, n: nat, m: nat, a: nat, samples: seq<byte>, x: nat)
    requires n + a <= m && |out| == |out'| && base + Off(m, x) <= |out|
    requires RowIs(out, base, n, m, a, samples, x)
    requires out[base..base + Off(m, x)] == out'[base..base + Off(m, x)]
    ensures RowIs(out', base, n, m, a, samples, x)
  {
    hide Off, Opaque, Pixel;
    forall q: nat | q < x
      ensures PixelIs(out', base, n, m, a, samples, q)
    {
      PixelInside(Off(m, x), m, x, q);
      assert PixelIs(out, base, n, m, a, samples, q);
      SliceKept(out, out', base, Off(m, x), Off(m, q), Off(m, q) + n + a);
    }
  }

  lemma SliceKept(s: seq<byte>, t: seq<byte>, base: nat, len: nat, i: nat, j: nat)
    requires i <= j <= len && base + len <= |s| == |t| && s[base..base + len] == t[base..base + len]
    ensures s[base + i..base + j] == t[base + i..base + j]
  {
    var u, v := s[base + i..base + j], t[base + i..base + j];
    forall k | 0 <= k < j - i
      ensures u[k] == v[k]
    {
      assert s[base..base + len][i + k] == t[base..base + len][i + k];
    }
  }

  // ---------- unfiltering in place ----------

  predicate UsesPrior(filter: nat)
  {
    2 <= filter <= 4
  }

  /** The bytes of one pixel, rebuilt from the pixels to the left, above, and above to the left. */
  function Rebuilt(filter: nat, bytes: seq<byte>, left: seq<byte>, above: seq<byte>, aboveLeft: seq<byte>): (pixel: seq<byte>)
    requires |bytes| == |left| == |above| == |aboveLeft|
    ensures |pixel| == |bytes|
  {
    seq(|bytes|, k requires 0 <= k < |bytes| => (bytes[k] + Added(filter, left[k], above[k], aboveLeft[k])) % 256)
  }

  /** One byte of the first pixel: nothing is to its left. */
  method RebuildFirst(out: array<byte>, up: int, k: nat, filter: nat, v: byte) returns (r: byte)
    requires filter <= 6 && (UsesPrior(filter) ==> 0 <= up + k < out.Length)
    ensures r == (v + Added(filter, 0, if UsesPrior(filter) then out[up + k] else 0, 0)) % 256
  {
    if filter == 2 {
      r := (v + out[up + k]) % 256;
    } else if filter == 3 {
      r := (v + out[up + k] / 2) % 256;
    } else if filter == 4 {
      r := (v + Paeth(0, out[up + k], 0)) % 256;
    } else {
      r := v;
    }
  }

  function Average(a: byte, b: byte): byte
  {
    (a + b) / 2
  }

  /** One byte of a later pixel at `c`; the pixel before it begins `dist` bytes earlier. */
  method RebuildNext(out: array<byte>, c: nat, up: int, dist: nat, filter: nat, v: byte) returns (r: byte)
    requires filter <= 6 && dist <= c && c - dist < out.Length
    requires UsesPrior(filter) ==> dist <= up < out.Length
    ensures r == (v + Added(filter, out[c - dist], if UsesPrior(filter) then out[up] else 0,
                            if UsesPrior(filter) then out[up - dist] else 0)) % 256
  {
    hide Paeth;
    var added: byte := 0;
    if filter == 1 {
      added := out[c - dist];
    } else if filter == 2 {
      added := out[up];
    } else if filter == 3 {
      added := Average(out[up], out[c - dist]);
    } else if filter == 4 {
      added := Paeth(out[c - dist], out[up], out[up - dist]);
    } else if filter == AVG_FIRST {
      added := out[c - dist] / 2;
    } else if filter == PAETH_FIRST {
      added := Paeth(out[c - dist], 0, 0);
    }
    r := (v + added) % 256;
  }

  /** The bytes around the pixel at `c` are those of its neighbours; only what the filter reads counts. */
  ghost predicate Neighbours(out: seq<byte>, c: nat, up: int, filter: nat, fb: nat, ob: nat, first: bool,
                             left: seq<byte>, above: seq<byte>, aboveLeft: seq<byte>)
  {
    && 0 < fb <= ob && c + fb <= |out| && |left| == |above| == |aboveLeft| == fb
    && (if first then left == Zeros(fb) && aboveLeft == Zeros(fb) else ob <= c && out[c - ob..c - ob + fb] == left)
    && (if UsesPrior(filter) then
          && 0 <= up && up + fb <= c && out[up..up + fb] == above
          && (!first ==> ob <= up && out[up - ob..up - ob + fb] == aboveLeft)
        else above == aboveLeft == Zeros(fb))
  }

  /** Writing the pixel changes none of its neighbours. */
  lemma NeighboursKept(out: seq<byte>, out': seq<byte>, c: nat, up: int, filter: nat, fb: nat, ob: nat, first: bool,
                       left: seq<byte>, above: seq<byte>, aboveLeft: seq<byte>)
    requires Neighbours(out, c, up, filter, fb, ob, first, left, above, aboveLeft)
    requires |out'| == |out| && out'[..c] == out[..c]
    ensures Neighbours(out', c, up, filter, fb, ob, first, left, above, aboveLeft)
  {
    assert out[0..0 + c] == out'[0..0 + c];
    if !first { SliceKept(out, out', 0, c, c - ob, c - ob + fb); }
    if UsesPrior(filter) {
      SliceKept(out, out', 0, c, up, up + fb);
      if !first { SliceKept(out, out', 0, c, up - ob, up - ob + fb); }
    }
  }

  /** Byte `k` of the pixel at `c`. */
  method RebuildByte(out: array<byte>, c: nat, up: int, k: nat, v: byte, filter: nat, fb: nat, ob: nat, first: bool,
                     ghost left: seq<byte>, ghost above: seq<byte>, ghost aboveLeft: seq<byte>)
    returns (r: byte)
    requires filter <= 6 && Neighbours(out[..], c, up, filter, fb, ob, first, left, above, aboveLeft) && k < fb
    ensures r == (v + Added(filter, left[k], above[k], aboveLeft[k])) % 256
  {
    hide Added;
    ghost var s := out[..];
    if UsesPrior(filter) { assert s[up..up + fb][k] == out[up + k]; }
    if first {
      r := RebuildFirst(out, up, k, filter, v);
    } else {
      assert s[c - ob..c - ob + fb][k] == out[c + k - ob];
      if UsesPrior(filter) { assert s[up - ob..up - ob + fb][k] == out[up + k - ob]; }
      r := RebuildNext(out, c + k, up + k, ob, filter, v);
    }
  }

  /** Rebuilds the pixel at `c` from the raw bytes at `at`. */
  method UnfilterPixel(out: array<byte>, c: nat, up: int, raw: seq<byte>, at: nat, filter: nat, fb: nat, ob: nat, first: bool,
                       ghost left: seq<byte>, ghost above: seq<byte>, ghost aboveLeft: seq<byte>)
    requires filter <= 6 && at + fb <= |raw|
    requires Neighbours(out[..], c, up, filter, fb, ob, first, left, above, aboveLeft)
    modifies out
    ensures out[..] == old(out[..c]) + Rebuilt(filter, raw[at..at + fb], left, above, aboveLeft) + old(out[c + fb..])
  {
    hide Added, Neighbours, Rebuilt;
    ghost var was := out[..];
    NeighbourSizes(was, c, up, filter, fb, ob, first, left, above, aboveLeft);
    ghost var all := Rebuilt(filter, raw[at..at + fb], left, above, aboveLeft);
    var k: nat := 0;
    while k < fb
      invariant k <= fb && out[..] == was[..c] + all[..k] + was[c + k..]
    {
      assert out[..c] == was[..c];
      NeighboursKept(was, out[..], c, up, filter, fb, ob, first, left, above, aboveLeft);
      var r := RebuildByte(out, c, up, k, raw[at + k], filter, fb, ob, first, left, above, aboveLeft);
      RebuiltAt(filter, raw[at..at + fb], left, above, aboveLeft, k);
      ghost var before := out[..];
      out[c + k] := r;
      assert out[..] == before[c + k := all[k]];
      WriteNext(was, all, c, k);
      k := k + 1;
    }
  }

  lemma RebuiltAt(filter: nat, bytes: seq<byte>, left: seq<byte>, above: seq<byte>, aboveLeft: seq<byte>, k: nat)
    requires |bytes| == |left| == |above| == |aboveLeft| && k < |bytes|
    ensures Rebuilt(filter, bytes, left, above, aboveLeft)[k]
            == (bytes[k] + Added(filter, left[k], above[k], aboveLeft[k])) % 256
  {
  }

  lemma NeighbourSizes(out: seq<byte>, c: nat, up: int, filter: nat, fb: nat, ob: nat, first: bool,
                       left: seq<byte>, above: seq<byte>, aboveLeft: seq<byte>)
    requires Neighbours(out, c, up, filter, fb, ob, first, left, above, aboveLeft)
    ensures 0 < fb <= ob && c + fb <= |out| && |left| == |above| == |aboveLeft| == fb
  {
  }

  // ---------- a row ----------

  /** The pixel before pixel `q`; before the first there are zeros. */
  function Previous(samples: seq<byte>, n: nat, q: nat): (bytes: seq<byte>)
    requires q > 0 ==> Off(n, q - 1) + n <= |samples|
    ensures |bytes| == n
  {
    if q == 0 then Zeros(n) else Pixel(samples, n, q - 1)
  }

  /** Pixel `q` of `row` is what `filter` makes of the raw bytes and the pixels around it. */
  ghost predicate PixelRebuilt(filter: nat, fb: nat, bytes: seq<byte>, prior: seq<byte>, row: seq<byte>, q: nat)
  {
    && |bytes| == |prior| == |row| >= Off(fb, q) + fb && (q > 0 ==> Off(fb, q - 1) + fb <= |row|)
    && Pixel(row, fb, q) == Rebuilt(filter, Pixel(bytes, fb, q), Previous(row, fb, q),
                                    Pixel(prior, fb, q), Previous(prior, fb, q))
  }

  /** Every pixel of `row` is; `prior` is zero for filters that do not look at it. */
  ghost predicate RowRebuilt(filter: nat, fb: nat, bytes: seq<byte>, prior: seq<byte>, row: seq<byte>, width: nat)
  {
    && |bytes| == |prior| == |row| == Off(fb, width)
    && (!UsesPrior(filter) ==> prior == Zeros(|prior|))
    && forall q: nat :: q < width ==> PixelRebuilt(filter, fb, bytes, prior, row, q)
  }

  lemma ZeroPixels(len: nat, n: nat, q: nat)
    requires Off(n, q) + n <= len && (q > 0 ==> Off(n, q - 1) + n <= len)
    ensures Pixel(Zeros(len), n, q) == Zeros(n) && Previous(Zeros(len), n, q) == Zeros(n)
  {
  }

  /** The buffer holds the neighbours of pixel `q` where the code looks for them. */
  lemma RowNeighbours(out: seq<byte>, base: nat, up: int, filter: nat, fb: nat, ob: nat, a: nat, b: nat, bytes: seq<byte>,
                      prior: seq<byte>, row: seq<byte>, width: nat, q: nat)
    requires 0 < fb && fb + a <= ob && fb + b <= ob && q < width && base + Off(ob, width) <= |out|
    requires RowRebuilt(filter, fb, bytes, prior, row, width)
    requires RowIs(out, base, fb, ob, a, row, q)
    requires UsesPrior(filter) ==> 0 <= up && up + Off(ob, width) <= base && RowIs(out, up, fb, ob, b, prior, width)
    ensures Off(fb, q) + fb <= |row| == |prior| && (q > 0 ==> Off(fb, q - 1) + fb <= |row|)
    ensures Neighbours(out, base + Off(ob, q), up + Off(ob, q), filter, fb, ob, q == 0,
                       Previous(row, fb, q), Pixel(prior, fb, q), Previous(prior, fb, q))
  {
    hide Off, Opaque, Pixel, Zeros, Previous, RowIs, PixelIs, Added, PixelRebuilt, UsesPrior;
    PixelInside(|row|, fb, width, q);
    PixelInside(Off(ob, width), ob, width, q);
    if q > 0 {
      PixelInside(|row|, fb, width, q - 1);
      OffNext(ob, q - 1);
      PixelBytes(out, base, fb, ob, a, row, q, q - 1);
    }
    PreviousIs(row, fb, q);
    PreviousIs(prior, fb, q);
    if UsesPrior(filter) {
      PixelBytes(out, up, fb, ob, b, prior, width, q);
      if q > 0 { PixelBytes(out, up, fb, ob, b, prior, width, q - 1); }
    } else {
      ZeroPixels(|prior|, fb, q);
    }
  }

  lemma PreviousIs(samples: seq<byte>, n: nat, q: nat)
    requires q > 0 ==> Off(n, q - 1) + n <= |samples|
    ensures Previous(samples, n, q) == if q == 0 then Zeros(n) else Pixel(samples, n, q - 1)
  {
  }

  lemma PixelBytes(out: seq<byte>, base: nat, n: nat, m: nat, a: nat, samples: seq<byte>, x: nat, q: nat)
    requires n + a <= m && RowIs(out, base, n, m, a, samples, x) && q < x
    ensures base + Off(m, q) + m <= |out| && Off(n, q) + n <= |samples|
    ensures out[base + Off(m, q)..base + Off(m, q) + n] == Pixel(samples, n, q)
  {
    hide Off, Pixel, Opaque;
    assert PixelIs(out, base, n, m, a, samples, q);
    var both := out[base + Off(m, q)..base + Off(m, q) + n + a];
    assert out[base + Off(m, q)..base + Off(m, q) + n] == both[..n];
  }

  /** One more pixel of the row. */
  lemma RowGrows(was: seq<byte>, out: seq<byte>, base: nat, n: nat, m: nat, a: nat, samples: seq<byte>, q: nat)
    requires n + a <= m && base + Off(m, q) + m <= |was| && Off(n, q) + n <= |samples|
    requires RowIs(was, base, n, m, a, samples, q)
    requires var c := base + Off(m, q); out == was[..c] + Pixel(samples, n, q) + Opaque(a) + was[c + n + a..]
    ensures RowIs(out, base, n, m, a, samples, q + 1)
  {
    hide Off, Pixel, Opaque, PixelIs;
    var c := base + Off(m, q);
    assert out[base..c] == was[base..c];
    RowKept(was, out, base, n, m, a, samples, q);
    forall p: nat | p < q + 1
      ensures PixelIs(out, base, n, m, a, samples, p)
    {
      if p == q { NewPixel(was, out, base, n, m, a, samples, q); }
    }
  }

  lemma NewPixel(was: seq<byte>, out: seq<byte>, base: nat, n: nat, m: nat, a: nat, samples: seq<byte>, q: nat)
    requires n + a <= m && base + Off(m, q) + m <= |was| && Off(n, q) + n <= |samples|
    requires var c := base + Off(m, q); out == was[..c] + Pixel(samples, n, q) + Opaque(a) + was[c + n + a..]
    ensures PixelIs(out, base, n, m, a, samples, q)
  {
    hide Off, Pixel, Opaque;
  }

  /** Rebuilds pixel `q` of a row and makes it opaque if there is room for an alpha channel. */
  method UnfilterNext(out: array<byte>, base: nat, c: nat, up: int, raw: seq<byte>, at: nat, filter: nat, fb: nat, ob: nat,
                      ghost prior: seq<byte>, ghost row: seq<byte>, ghost bytes: seq<byte>, ghost width: nat, q: nat,
                      ghost b: nat)
    requires filter <= 6 && 0 < fb <= ob && fb + b <= ob && q < width && base + Off(ob, width) <= out.Length
    requires RowRebuilt(filter, fb, bytes, prior, row, width)
    requires at + fb <= |raw| && Off(fb, q) + fb <= |bytes| && raw[at..at + fb] == Pixel(bytes, fb, q)
    requires c == base + Off(ob, q) && c + ob <= out.Length
    requires RowIs(out[..], base, fb, ob, if ob > fb then 1 else 0, row, q)
    requires UsesPrior(filter) ==>
               up >= Off(ob, q) && up - Off(ob, q) + Off(ob, width) <= base
               && RowIs(out[..], up - Off(ob, q), fb, ob, b, prior, width)
    modifies out
    ensures RowIs(out[..], base, fb, ob, if ob > fb then 1 else 0, row, q + 1)
    ensures out[..c] == old(out[..c]) && out[c + fb + (if ob > fb then 1 else 0)..] == old(out[c + fb + (if ob > fb then 1 else 0)..])
  {
    hide Off, Pixel, Opaque, PixelIs, RowIs, RowRebuilt, Neighbours, UsesPrior, Previous, Rebuilt, PixelRebuilt, Zeros;
    ghost var a, was := if ob > fb then 1 else 0, out[..];
    RowNeighbours(was, base, up - Off(ob, q), filter, fb, ob, a, b, bytes, prior, row, width, q);
    RebuiltPixel(filter, fb, bytes, prior, row, width, q);
    PixelInside(Off(ob, width), ob, width, q);
    UnfilterPixel(out, c, up, raw, at, filter, fb, ob, q == 0, Previous(row, fb, q), Pixel(prior, fb, q),
                  Previous(prior, fb, q));
    if ob > fb { out[c + fb] := 255; }
    OpaqueUpToOne();
    assert out[..] == was[..c] + Pixel(row, fb, q) + Opaque(a) + was[c + fb + a..];
    RowGrows(was, out[..], base, fb, ob, a, row, q);
  }

  lemma OpaqueUpToOne()
    ensures Opaque(0) == [] && Opaque(1) == [255]
  {
  }

  lemma RebuiltPixel(filter: nat, fb: nat, bytes: seq<byte>, prior: seq<byte>, row: seq<byte>, width: nat, q: nat)
    requires RowRebuilt(filter, fb, bytes, prior, row, width) && q < width
    ensures |bytes| == |prior| == |row| >= Off(fb, q) + fb && (q > 0 ==> Off(fb, q - 1) + fb <= |row|)
    ensures Pixel(row, fb, q) == Rebuilt(filter, Pixel(bytes, fb, q), Previous(row, fb, q),
                                         Pixel(prior, fb, q), Previous(prior, fb, q))
  {
    hide Off, Pixel, Rebuilt, Previous;
    assert PixelRebuilt(filter, fb, bytes, prior, row, q);
  }

  lemma RawPixel(raw: seq<byte>, at: nat, n: nat, width: nat, q: nat)
    requires at + Off(n, width) <= |raw| && q < width
    ensures Off(n, q) + n <= Off(n, width)
    ensures raw[at + Off(n, q)..at + Off(n, q) + n] == Pixel(raw[at..at + Off(n, width)], n, q)
  {
    hide Off;
    PixelInside(Off(n, width), n, width, q);
    var u, v := raw[at + Off(n, q)..at + Off(n, q) + n], Pixel(raw[at..at + Off(n, width)], n, q);
    forall k | 0 <= k < n
      ensures u[k] == v[k]
    {
      assert v[k] == raw[at..at + Off(n, width)][Off(n, q) + k] == raw[at + (Off(n, q) + k)];
    }
  }

  /** Rebuilds a row in the buffer.  `up` is where the row above begins; the filters of the first row do
      not look there. */
  method UnfilterInPlace(out: array<byte>, base: nat, up: int, raw: seq<byte>, at: nat, filter: nat, fb: nat, ob: nat,
                         width: nat, ghost prior: seq<byte>, ghost row: seq<byte>, ghost b: nat)
    requires filter <= 6 && 0 < fb <= ob && fb + b <= ob && base + Off(ob, width) <= out.Length
    requires at + Off(fb, width) <= |raw| && RowRebuilt(filter, fb, raw[at..at + Off(fb, width)], prior, row, width)
    requires UsesPrior(filter) ==> 0 <= up && up + Off(ob, width) <= base && RowIs(out[..], up, fb, ob, b, prior, width)
    modifies out
    ensures RowIs(out[..], base, fb, ob, if ob > fb then 1 else 0, row, width)
    ensures out[..base] == old(out[..base]) && out[base + Off(ob, width)..] == old(out[base + Off(ob, width)..])
  {
    hide Off, Pixel, Opaque, PixelIs, RowRebuilt, UsesPrior, Zeros;
    ghost var a, was, bytes := if ob > fb then 1 else 0, out[..], raw[at..at + Off(fb, width)];
    var q: nat, c: nat, p: int, r: nat := 0, base, up, at;
    OffNext(ob, 0);
    OffNext(fb, 0);
    while q < width
      invariant q <= width && c == base + Off(ob, q) && p == up + Off(ob, q) && r == at + Off(fb, q)
      invariant RowIs(out[..], base, fb, ob, a, row, q)
      invariant c <= base + Off(ob, width) && out[..base] == was[..base]
      invariant out[base + Off(ob, width)..] == was[base + Off(ob, width)..]
    {
      RawPixel(raw, at, fb, width, q);
      PixelInside(Off(ob, width), ob, width, q);
      if UsesPrior(filter) { RowKept(was, out[..], up, fb, ob, b, prior, width); }
      UnfilterNext(out, base, c, p, raw, r, filter, fb, ob, prior, row, bytes, width, q, b);
      OffNext(ob, q);
      OffNext(fb, q);
      q, c, p, r := q + 1, c + ob, p + ob, r + fb;
    }
  }

  // ---------- the rebuilt row is the unfiltered row ----------

  /** The filter that the code runs for filter type `filter`. */
  function CodeFor(first: bool, filter: nat): (code: nat)
    requires filter <= 4
    ensures code <= 6
  {
    if first then FIRST_ROW_FILTER[filter] else filter
  }

  /** The row above as far as the filter looks at it. */
  function PriorFor(code: nat, prior: seq<byte>): (bytes: seq<byte>)
    ensures |bytes| == |prior|
  {
    if UsesPrior(code) then prior else Zeros(|prior|)
  }

  lemma AddedIs(first: bool, filter: nat, a: byte, b: byte, c: byte)
    requires filter <= 4 && (first ==> b == 0 && c == 0)
    ensures var code := CodeFor(first, filter);
            Added(code, a, if UsesPrior(code) then b else 0, if UsesPrior(code) then c else 0) == Predict(filter, a, b, c)
  {
    FirstRowFilters(filter, a, b, c);
  }

  lemma BeforeIs(samples: seq<byte>, n: nat, q: nat, k: nat)
    requires k < n && Off(n, q) + n <= |samples| && (q > 0 ==> Off(n, q - 1) + n <= |samples|)
    ensures Previous(samples, n, q)[k] == Left(samples, Off(n, q) + k, n)
    ensures Pixel(samples, n, q)[k] == samples[Off(n, q) + k]
  {
    hide Off;
    OffNext(n, 0);
    if q > 0 {
      OffNext(n, q - 1);
      OffMonotone(n, 1, q);
    }
  }

  lemma PriorPixel(code: nat, prior: seq<byte>, n: nat, q: nat, k: nat)
    requires k < n && Off(n, q) + n <= |prior| && (q > 0 ==> Off(n, q - 1) + n <= |prior|)
    ensures Pixel(PriorFor(code, prior), n, q)[k] == if UsesPrior(code) then prior[Off(n, q) + k] else 0
    ensures Previous(PriorFor(code, prior), n, q)[k] == if UsesPrior(code) then Left(prior, Off(n, q) + k, n) else 0
  {
    hide Off, UsesPrior, Left, Pixel, Previous;
    BeforeIs(prior, n, q, k);
    ZeroPixels(|prior|, n, q);
  }

  lemma UnfilteredPixel(first: bool, filter: nat, fb: nat, prior: seq<byte>, bytes: seq<byte>, width: nat, q: nat)
    requires filter <= 4 && fb > 0 && |prior| == |bytes| == Off(fb, width) && q < width
    requires first ==> prior == Zeros(|prior|)
    ensures var code := CodeFor(first, filter);
            PixelRebuilt(code, fb, bytes, PriorFor(code, prior), UnfilterRow(filter, fb, prior, bytes), q)
  {
    hide Off, Added, Predict, UnfilterRow, Pixel, Previous, UsesPrior, PriorFor, CodeFor, Left, Rebuilt;
    var code, row := CodeFor(first, filter), UnfilterRow(filter, fb, prior, bytes);
    PixelInside(|row|, fb, width, q);
    if q > 0 { PixelInside(|row|, fb, width, q - 1); }
    var left, above, aboveLeft := Previous(row, fb, q), Pixel(PriorFor(code, prior), fb, q), Previous(PriorFor(code, prior), fb, q);
    var rebuilt := Rebuilt(code, Pixel(bytes, fb, q), left, above, aboveLeft);
    forall k | 0 <= k < fb
      ensures Pixel(row, fb, q)[k] == rebuilt[k]
    {
      RebuiltAt(code, Pixel(bytes, fb, q), left, above, aboveLeft, k);
      UnfilteredByte(first, filter, fb, prior, bytes, q, k);
    }
    assert Pixel(row, fb, q) == rebuilt;
  }

  lemma UnfilteredByte(first: bool, filter: nat, fb: nat, prior: seq<byte>, bytes: seq<byte>, q: nat, k: nat)
    requires filter <= 4 && k < fb && |prior| == |bytes| && Off(fb, q) + fb <= |bytes|
    requires (q > 0 ==> Off(fb, q - 1) + fb <= |bytes|) && (first ==> prior == Zeros(|prior|))
    ensures var code, row := CodeFor(first, filter), UnfilterRow(filter, fb, prior, bytes);
            Pixel(row, fb, q)[k] == (Pixel(bytes, fb, q)[k] +
              Added(code, Previous(row, fb, q)[k], Pixel(PriorFor(code, prior), fb, q)[k],
                    Previous(PriorFor(code, prior), fb, q)[k])) % 256
  {
    hide Off, Added, Predict, UnfilterRow, Pixel, Previous, UsesPrior, PriorFor, CodeFor;
    var code, row, i := CodeFor(first, filter), UnfilterRow(filter, fb, prior, bytes), Off(fb, q) + k;
    UnfilteredAt(filter, fb, prior, bytes, i);
    BeforeIs(row, fb, q, k);
    BeforeIs(bytes, fb, q, k);
    PriorPixel(code, prior, fb, q, k);
    AddedIs(first, filter, Left(row, i, fb), prior[i], Left(prior, i, fb));
  }

  /** What the code rebuilds, with its filters for the first row and its neglect of rows that it does not
      need, is what the standard says. */
  lemma UnfilteredIsRebuilt(first: bool, filter: nat, fb: nat, prior: seq<byte>, bytes: seq<byte>, width: nat)
    requires filter <= 4 && fb > 0 && |prior| == |bytes| == Off(fb, width)
    requires first ==> prior == Zeros(|prior|)
    ensures var code := CodeFor(first, filter);
            RowRebuilt(code, fb, bytes, PriorFor(code, prior), UnfilterRow(filter, fb, prior, bytes), width)
  {
    hide Off, UnfilterRow, CodeFor, PixelRebuilt, UsesPrior, Zeros;
    var code := CodeFor(first, filter);
    forall q: nat | q < width
      ensures PixelRebuilt(code, fb, bytes, PriorFor(code, prior), UnfilterRow(filter, fb, prior, bytes), q)
    {
      UnfilteredPixel(first, filter, fb, prior, bytes, width, q);
    }
  }
}
