/** Samples of 1, 2 or 4 bits: how a row packs them, the expansion to bytes in place, and the insertion
    of an alpha channel in place. */
module PngUnpack {
  import opened Bits

  predicate Small(depth: nat)
  {
    depth == 1 || depth == 2 || depth == 4
  }

  /** How many bytes `n` samples take. */
  function PackedSize(n: nat, depth: nat): nat
  {
    (n * depth + 7) / 8
  }

  /** Sample `i`, the leftmost one in the high bits of its byte. */
  function SampleOf(b: byte, depth: nat, i: nat): nat
    requires Small(depth)
  {
    Shr(b, 8 - depth - depth * i % 8) % Pow2(depth)
  }

  function Sample(row: seq<byte>, depth: nat, i: nat): nat
    requires Small(depth) && i * depth / 8 < |row|
  {
    SampleOf(row[i * depth / 8], depth, i)
  }

  lemma SampleInside(n: nat, depth: nat, i: nat)
    requires Small(depth) && i < n
    ensures i * depth / 8 < PackedSize(n, depth)
  {
  }

  /** Grey samples are scaled to 0..255, palette indices are not. */
  function Scale(depth: nat, color: nat): nat
    requires Small(depth)
  {
    if color != 0 then 1 else if depth == 1 then 0xff else if depth == 2 then 0x55 else 0x11
  }

  lemma ScaledFits(v: nat, depth: nat, color: nat)
    requires Small(depth) && v < Pow2(depth)
    ensures Scale(depth, color) * v < 256
    ensures color == 0 && v == Pow2(depth) - 1 ==> Scale(depth, color) * v == 255
  {
    Pow2Values();
  }

  function ScaledSample(row: seq<byte>, depth: nat, color: nat, i: nat): byte
    requires Small(depth) && i * depth / 8 < |row|
  {
    ScaledFits(Sample(row, depth, i), depth, color);
    Scale(depth, color) * Sample(row, depth, i)
  }

  // ---------- bytes of samples ----------

  /** How many samples a byte holds. */
  function PerByte(depth: nat): (g: nat)
    requires Small(depth)
    ensures 2 <= g <= 8
  {
    if depth == 1 then 8 else if depth == 2 then 4 else 2
  }

  /** How many samples the first `m` bytes hold. */
  function Before(depth: nat, m: nat): nat
    requires Small(depth)
  {
    PerByte(depth) * m
  }

  lemma BeforeNext(depth: nat, m: nat)
    requires Small(depth)
    ensures Before(depth, 0) == 0 && Before(depth, m + 1) == Before(depth, m) + PerByte(depth)
  {
  }

  lemma GroupSample(depth: nat, m: nat, s: nat)
    requires Small(depth) && s * depth < 8
    ensures (Before(depth, m) + s) * depth / 8 == m
    ensures depth * (Before(depth, m) + s) % 8 == depth * s % 8
  {
  }

  predicate FitsByte(count: nat, depth: nat)
  {
    count * depth <= 8
  }

  // ---------- packing ----------

  ghost predicate Narrow(samples: seq<nat>, depth: nat)
  {
    forall i :: 0 <= i < |samples| ==> samples[i] < Pow2(depth)
  }

  /** Samples one after the other, the first in the high bits. */
  function Joined(samples: seq<nat>, depth: nat): nat
  {
    if samples == [] then 0 else Shl(Joined(samples[..|samples| - 1], depth), depth) + samples[|samples| - 1]
  }

  /** A byte of samples; missing ones leave zeros in the low bits. */
  function PackedByte(samples: seq<nat>, depth: nat): nat
    requires |samples| * depth <= 8
  {
    Shl(Joined(samples, depth), 8 - |samples| * depth)
  }

  lemma {:induction false} ShrAdd(v: nat, m: nat, n: nat)
    ensures Shr(v, m + n) == Shr(Shr(v, m), n)
    decreases m
  {
    if m > 0 { ShrAdd(v / 2, m - 1, n); }
  }

  lemma {:induction false} ShrOfShl(v: nat, m: nat, n: nat)
    ensures Shr(Shl(v, m), m + n) == Shr(v, n)
  {
    if m > 0 { ShrOfShl(v, m - 1, n); }
  }

  lemma ShrPastLow(v: nat, low: nat, m: nat, n: nat)
    requires low < Pow2(m)
    ensures Shr(Shl(v, m) + low, m + n) == Shr(v, n)
  {
    hide Shr, Shl, Pow2;
    ShrAdd(Shl(v, m) + low, m, n);
    ShrIsDivision(Shl(v, m) + low, m);
    ShlValue(v, m);
    DivModUnique(Shl(v, m) + low, Pow2(m), v, low);
  }

  lemma OneLess(k: nat, depth: nat)
    requires k > 0
    ensures k * depth == depth + (k - 1) * depth
  {
  }

  lemma JoinedLast(samples: seq<nat>, depth: nat)
    requires Narrow(samples, depth) && samples != []
    ensures Joined(samples, depth) % Pow2(depth) == samples[|samples| - 1]
  {
    hide Shl, Pow2;
    var n := |samples| - 1;
    ShlValue(Joined(samples[..n], depth), depth);
    DivModUnique(Joined(samples, depth), Pow2(depth), Joined(samples[..n], depth), samples[n]);
  }

  lemma {:induction false} JoinedAt(samples: seq<nat>, depth: nat, s: nat, k: nat)
    requires Narrow(samples, depth) && s + k + 1 == |samples|
    ensures Shr(Joined(samples, depth), k * depth) % Pow2(depth) == samples[s]
    decreases k
  {
    hide Shl, Pow2, Shr, Joined;
    if k > 0 {
      var before := samples[..s + k];
      OneLess(k, depth);
      JoinedAt(before, depth, s, k - 1);
      JoinedStep(samples, depth, (k - 1) * depth);
    } else {
      JoinedLast(samples, depth);
      ShrByNothing(Joined(samples, depth), depth);
    }
  }

  lemma ShrByNothing(v: nat, depth: nat)
    ensures Shr(v, 0 * depth) == v
  {
  }

  lemma JoinedStep(samples: seq<nat>, depth: nat, shift: nat)
    requires Narrow(samples, depth) && samples != []
    ensures Shr(Joined(samples, depth), depth + shift) == Shr(Joined(samples[..|samples| - 1], depth), shift)
  {
    hide Shl, Shr, Pow2;
    ShrPastLow(Joined(samples[..|samples| - 1], depth), samples[|samples| - 1], depth, shift);
  }

  lemma PackedByteAt(samples: seq<nat>, depth: nat, s: nat)
    requires Narrow(samples, depth) && s < |samples| && |samples| * depth <= 8
    ensures Shr(PackedByte(samples, depth), 8 - depth - s * depth) % Pow2(depth) == samples[s]
  {
    hide Joined, Shr, Shl, Narrow;
    var low := 8 - |samples| * depth;
    Distribute(depth, |samples| - 1 - s, s + 1);
    assert 8 - depth - s * depth == low + (|samples| - 1 - s) * depth;
    ShrOfShl(Joined(samples, depth), low, (|samples| - 1 - s) * depth);
    JoinedAt(samples, depth, s, |samples| - 1 - s);
  }

  lemma {:induction false} JoinedBound(samples: seq<nat>, depth: nat)
    requires Narrow(samples, depth)
    ensures Joined(samples, depth) < Pow2(|samples| * depth)
    decreases |samples|
  {
    hide Shl;
    if samples != [] {
      var before := samples[..|samples| - 1];
      JoinedBound(before, depth);
      ShlValue(Joined(before, depth), depth);
      OneLess(|samples|, depth);
      Pow2Add(depth, |before| * depth);
      MulMonotone(Joined(before, depth) + 1, Pow2(|before| * depth), Pow2(depth));
      Distribute(Pow2(depth), Joined(before, depth), 1);
    }
  }

  lemma PackedByteBound(samples: seq<nat>, depth: nat)
    requires Narrow(samples, depth) && |samples| * depth <= 8
    ensures PackedByte(samples, depth) < 256
  {
    hide Joined, Shl;
    var used := |samples| * depth;
    JoinedBound(samples, depth);
    ShlValue(Joined(samples, depth), 8 - used);
    Pow2Add(8 - used, used);
    MulMonotone(Joined(samples, depth) + 1, Pow2(used), Pow2(8 - used));
    Distribute(Pow2(8 - used), Joined(samples, depth), 1);
    assert Pow2(8) == 256;
  }

  /** The samples of byte `m`. */
  function Group(samples: seq<nat>, depth: nat, m: nat): (group: seq<nat>)
    requires Small(depth) && Before(depth, m) < |samples|
    ensures FitsByte(|group|, depth)
  {
    var last := Before(depth, m) + PerByte(depth);
    samples[Before(depth, m)..if last < |samples| then last else |samples|]
  }

  lemma GroupInside(n: nat, depth: nat, m: nat)
    requires Small(depth) && m < PackedSize(n, depth)
    ensures Before(depth, m) < n
  {
  }

  ghost function PackedGroup(samples: seq<nat>, depth: nat, m: nat): byte
    requires Small(depth) && Narrow(samples, depth) && m < PackedSize(|samples|, depth)
  {
    GroupInside(|samples|, depth, m);
    PackedByteBound(Group(samples, depth, m), depth);
    PackedByte(Group(samples, depth, m), depth)
  }

  /** A row of samples as the standard packs it. */
  ghost function PackRow(samples: seq<nat>, depth: nat): (row: seq<byte>)
    requires Small(depth) && Narrow(samples, depth)
    ensures |row| == PackedSize(|samples|, depth)
  {
    seq(PackedSize(|samples|, depth), m requires 0 <= m < PackedSize(|samples|, depth) => PackedGroup(samples, depth, m))
  }

  lemma Located(depth: nat, i: nat)
    requires Small(depth)
    ensures var m, s := i / PerByte(depth), i % PerByte(depth);
            i == Before(depth, m) + s && s < PerByte(depth) && s * depth < 8
            && i * depth / 8 == m && depth * i % 8 == s * depth
  {
    var m, s := i / PerByte(depth), i % PerByte(depth);
    GroupSample(depth, m, s);
  }

  /** Unpacking undoes packing. */
  lemma UnpackUndoesPack(samples: seq<nat>, depth: nat, i: nat)
    requires Small(depth) && Narrow(samples, depth) && i < |samples|
    ensures i * depth / 8 < |PackRow(samples, depth)|
    ensures Sample(PackRow(samples, depth), depth, i) == samples[i]
  {
    hide Shr, PackedByte, Small, Before, PerByte;
    SampleInside(|samples|, depth, i);
    Located(depth, i);
    var m, s := i / PerByte(depth), i % PerByte(depth);
    PackedByteAt(Group(samples, depth, m), depth, s);
  }

  // ---------- unpacking in place ----------

  /** Writing sample `i` from the left never hits a packed byte that a later sample is read from: the
      packed row ends at offset `last`, which is no less than the number of samples. */
  lemma NoClobber(n: nat, depth: nat, last: nat, i: nat, k: nat)
    requires Small(depth) && i < k < n && n <= last
    ensures i < last - PackedSize(n, depth) + k * depth / 8
  {
    if depth == 4 {
      assert k * depth / 8 >= k * 4 / 8;
    }
  }

  /** The first `n` samples of a packed row, one byte each. */
  function Unpacked(row: seq<byte>, depth: nat, color: nat, n: nat): (samples: seq<byte>)
    requires Small(depth) && PackedSize(n, depth) <= |row|
    ensures |samples| == n
  {
    seq(n, i requires 0 <= i < n =>
      SampleInside(n, depth, i);
      ScaledSample(row, depth, color, i))
  }

  /** The first samples of one byte. */
  function ByteSamples(b: byte, depth: nat, color: nat, count: nat): (samples: seq<byte>)
    requires Small(depth) && FitsByte(count, depth)
    ensures |samples| == count
  {
    seq(count, s requires 0 <= s < count =>
      SampleFits(b, depth, color, s);
      Scale(depth, color) * SampleOf(b, depth, s))
  }

  /** One more byte gives the next samples. */
  lemma UnpackedGrows(row: seq<byte>, depth: nat, color: nat, m: nat, count: nat)
    requires Small(depth) && FitsByte(count, depth) && m < |row|
    requires PackedSize(Before(depth, m) + count, depth) <= |row| && PackedSize(Before(depth, m), depth) <= |row|
    ensures Unpacked(row, depth, color, Before(depth, m) + count)
            == Unpacked(row, depth, color, Before(depth, m)) + ByteSamples(row[m], depth, color, count)
  {
    hide Scale, Shr, SampleOf, ScaledSample, Small, Before;
    var done := Before(depth, m);
    forall s | 0 <= s < count
      ensures done + s < done + count && (done + s) * depth / 8 == m
      ensures Unpacked(row, depth, color, done + count)[done + s] == ByteSamples(row[m], depth, color, count)[s]
    {
      GroupSample(depth, m, s);
      SameSample(row, depth, color, done + s, m, s);
    }
  }

  lemma SameSample(row: seq<byte>, depth: nat, color: nat, i: nat, m: nat, s: nat)
    requires Small(depth) && m < |row| && i * depth / 8 == m && depth * i % 8 == depth * s % 8
    ensures ScaledSample(row, depth, color, i) == Scale(depth, color) * SampleOf(row[m], depth, s)
  {
    hide Scale, Shr;
  }

  /** The buffer with the first samples of the byte at `src` written at `cur`. */
  function ByteExpanded(was: seq<byte>, cur: nat, src: nat, count: nat, depth: nat, color: nat): seq<byte>
    requires Small(depth) && FitsByte(count, depth) && cur + count <= src + 1 && src < |was|
  {
    was[..cur] + ByteSamples(was[src], depth, color, count) + was[cur + count..]
  }

  /** Writes the first samples of the byte at `src` from `cur` on.  The byte is read again for each
      sample, and only the last write may hit it. */
  method UnpackByte(out: array<byte>, cur: nat, src: nat, count: nat, depth: nat, color: nat)
    requires Small(depth) && FitsByte(count, depth) && cur + count <= src + 1 && src < out.Length
    modifies out
    ensures out[..] == ByteExpanded(old(out[..]), cur, src, count, depth, color)
  {
    hide ByteSamples, FitsByte, SampleOf, Scale, Small;
    ghost var was, b := out[..], out[..][src];
    ghost var all := ByteSamples(b, depth, color, count);
    var s: nat := 0;
    while s < count
      invariant s <= count && out[..] == was[..cur] + all[..s] + was[cur + s..]
    {
      FirstSamples(b, depth, color, s, count);
      assert out[src] == out[..][src] == was[src];
      ghost var before := out[..];
      out[cur + s] := Scale(depth, color) * SampleOf(out[src], depth, s);
      assert out[..] == before[cur + s := all[s]];
      WriteNext(was, all, cur, s);
      s := s + 1;
    }
  }

  lemma FirstSamples(b: byte, depth: nat, color: nat, s: nat, count: nat)
    requires Small(depth) && FitsByte(count, depth) && s < count
    ensures 0 <= Scale(depth, color) * SampleOf(b, depth, s) < 256
    ensures ByteSamples(b, depth, color, count)[s] == Scale(depth, color) * SampleOf(b, depth, s)
  {
    hide SampleOf, Scale;
    SampleFits(b, depth, color, s);
  }

  lemma SampleFits(b: byte, depth: nat, color: nat, s: nat)
    requires Small(depth)
    ensures 0 <= Scale(depth, color) * SampleOf(b, depth, s) < 256
  {
    ScaledFits(SampleOf(b, depth, s), depth, color);
  }

  /** There is room for the next `count` samples left of what is still to be read. */
  lemma RoomForGroup(n: nat, depth: nat, last: nat, m: nat, count: nat)
    requires Small(depth) && n <= last && PackedSize(n, depth) <= last
    requires 0 < count <= PerByte(depth) && Before(depth, m) + count <= n
    ensures m < PackedSize(n, depth)
    ensures Before(depth, m) + count <= last - PackedSize(n, depth) + m + 1 && FitsByte(count, depth)
    ensures PackedSize(Before(depth, m), depth) <= PackedSize(Before(depth, m) + count, depth) <= PackedSize(n, depth)
  {
    var k := Before(depth, m) + count - 1;
    SizeMonotone(Before(depth, m), Before(depth, m) + count, depth);
    SizeMonotone(Before(depth, m) + count, n, depth);
    GroupSample(depth, m, count - 1);
    SampleInside(n, depth, k);
    if k > 0 { NoClobber(n, depth, last, k - 1, k); }
  }

  lemma SizeMonotone(m: nat, n: nat, depth: nat)
    requires m <= n && Small(depth)
    ensures PackedSize(m, depth) <= PackedSize(n, depth)
  {
  }

  lemma UnpackStep(was: seq<byte>, out: seq<byte>, base: nat, last: nat, n: nat, depth: nat, color: nat, m: nat, count: nat)
    requires Small(depth) && n <= last && PackedSize(n, depth) <= last && base + last <= |was|
    requires 0 < count <= PerByte(depth) && Before(depth, m) + count <= n && PackedSize(Before(depth, m), depth) <= PackedSize(n, depth)
    requires var row, cur := was[base + last - PackedSize(n, depth)..base + last], base + Before(depth, m);
             out == was[..base] + Unpacked(row, depth, color, Before(depth, m)) + was[cur..]
    ensures var src, cur := base + last - PackedSize(n, depth) + m, base + Before(depth, m);
            var row := was[base + last - PackedSize(n, depth)..base + last];
            && src < |out| && cur + count <= src + 1 && FitsByte(count, depth)
            && PackedSize(Before(depth, m) + count, depth) <= |row|
            && out[..cur] + ByteSamples(out[src], depth, color, count) + out[cur + count..]
               == was[..base] + Unpacked(row, depth, color, Before(depth, m) + count) + was[cur + count..]
  {
    hide Unpacked, ByteSamples, PackedSize, PerByte, Before, Small;
    RoomForGroup(n, depth, last, m, count);
    var row, cur := was[base + last - PackedSize(n, depth)..base + last], base + Before(depth, m);
    var src := base + last - PackedSize(n, depth) + m;
    assert out[src] == was[src] == row[m];
    assert out[..cur] == was[..base] + Unpacked(row, depth, color, Before(depth, m));
    assert out[cur + count..] == was[cur + count..];
    UnpackedGrows(row, depth, color, m, count);
  }

  /** The buffer with the packed row expanded. */
  function Expanded(was: seq<byte>, base: nat, last: nat, n: nat, depth: nat, color: nat): seq<byte>
    requires Small(depth) && n <= last && PackedSize(n, depth) <= last && base + last <= |was|
  {
    was[..base] + Unpacked(was[base + last - PackedSize(n, depth)..base + last], depth, color, n) + was[base + n..]
  }

  /** The first `m` bytes of the packed row are expanded. */
  ghost predicate UnpackedTo(was: seq<byte>, out: seq<byte>, base: nat, last: nat, n: nat, depth: nat, color: nat, m: nat)
    requires Small(depth) && PackedSize(n, depth) <= last && base + last <= |was|
  {
    var row, done := was[base + last - PackedSize(n, depth)..base + last], Before(depth, m);
    && base + done <= |was| && PackedSize(done, depth) <= |row|
    && out == was[..base] + Unpacked(row, depth, color, done) + was[base + done..]
  }

  lemma StartUnpacking(was: seq<byte>, base: nat, last: nat, n: nat, depth: nat, color: nat)
    requires Small(depth) && PackedSize(n, depth) <= last && base + last <= |was|
    ensures Before(depth, 0) == 0 && UnpackedTo(was, was, base, last, n, depth, color, 0)
  {
    NothingUnpacked(was[base + last - PackedSize(n, depth)..base + last], depth, color);
  }

  /** `count` samples of the next byte: a whole byte of them, or the last ones. */
  lemma UnpackOne(was: seq<byte>, out: seq<byte>, base: nat, last: nat, n: nat, depth: nat, color: nat, m: nat, count: nat)
    requires Small(depth) && n <= last && PackedSize(n, depth) <= last && base + last <= |was|
    requires UnpackedTo(was, out, base, last, n, depth, color, m)
    requires 0 < count <= PerByte(depth) && Before(depth, m) + count <= n
    ensures var src, cur := base + last - PackedSize(n, depth) + m, base + Before(depth, m);
            && |out| == |was| && src < |out| && cur + count <= src + 1 && FitsByte(count, depth)
            && var out' := ByteExpanded(out, cur, src, count, depth, color);
               && (count == PerByte(depth) ==> UnpackedTo(was, out', base, last, n, depth, color, m + 1))
               && (Before(depth, m) + count == n ==> out' == Expanded(was, base, last, n, depth, color))
  {
    hide Unpacked, ByteSamples, PackedSize, PerByte, Before, Small;
    BeforeNext(depth, m);
    UnpackStep(was, out, base, last, n, depth, color, m, count);
  }

  lemma AllUnpacked(was: seq<byte>, out: seq<byte>, base: nat, last: nat, n: nat, depth: nat, color: nat, m: nat)
    requires Small(depth) && PackedSize(n, depth) <= last && base + last <= |was| && n <= last
    requires UnpackedTo(was, out, base, last, n, depth, color, m) && Before(depth, m) == n
    ensures out == Expanded(was, base, last, n, depth, color)
  {
    hide Unpacked, PackedSize, Before, Small;
  }

  /** Expands the packed row that ends at `base + last` to one byte a sample from `base` on. */
  method Unpack(out: array<byte>, base: nat, last: nat, n: nat, depth: nat, color: nat)
    requires Small(depth) && n <= last && PackedSize(n, depth) <= last && base + last <= out.Length
    modifies out
    ensures out[..] == Expanded(old(out[..]), base, last, n, depth, color)
  {
    hide Unpacked, ByteExpanded, PackedSize, PerByte, Before, Small, UnpackedTo, Expanded, FitsByte;
    ghost var was := out[..];
    var src := base + last - PackedSize(n, depth);
    var cur: nat, k: nat := base, n;
    ghost var m: nat := 0;
    StartUnpacking(was, base, last, n, depth, color);
    while k >= PerByte(depth)
      invariant k <= n && cur == base + n - k && n - k == Before(depth, m) && src == base + last - PackedSize(n, depth) + m
      invariant UnpackedTo(was, out[..], base, last, n, depth, color, m)
    {
      UnpackOne(was, out[..], base, last, n, depth, color, m, PerByte(depth));
      UnpackByte(out, cur, src, PerByte(depth), depth, color);
      BeforeNext(depth, m);
      src, cur, k, m := src + 1, cur + PerByte(depth), k - PerByte(depth), m + 1;
    }
    if k > 0 {
      UnpackOne(was, out[..], base, last, n, depth, color, m, k);
      UnpackByte(out, cur, src, k, depth, color);
    } else {
      AllUnpacked(was, out[..], base, last, n, depth, color, m);
    }
  }

  lemma NothingUnpacked(row: seq<byte>, depth: nat, color: nat)
    requires Small(depth)
    ensures Before(depth, 0) == PackedSize(0, depth) == 0 && Unpacked(row, depth, color, 0) == []
  {
  }
}
