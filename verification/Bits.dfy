/** Bytes, powers of two, bits of natural numbers, and the least-significant-bit-first
    bit stream that section 3.1.1 of RFC 1951 reads out of a byte buffer.

    The C code works on machine words with shifts and masks.  Every word it handles here is
    non-negative and is proved to stay below its width, so a shift is a multiplication or a
    division by a power of two and a mask of low bits is a remainder. */
module Bits {

  type byte = x: int | 0 <= x < 256

  function Pow2(n: nat): (r: nat)
    ensures r >= 1
  {
    if n == 0 then 1 else 2 * Pow2(n - 1)
  }

  lemma {:induction false} Pow2Add(m: nat, n: nat)
    ensures Pow2(m + n) == Pow2(m) * Pow2(n)
  {
    if m != 0 {
      Pow2Add(m - 1, n);
      assert Pow2(m + n) == 2 * Pow2((m - 1) + n);
    }
  }

  lemma {:induction false} Pow2Monotone(m: nat, n: nat)
    requires m <= n
    ensures Pow2(m) <= Pow2(n)
  {
    if m < n { Pow2Monotone(m, n - 1); }
  }

  lemma Pow2Values()
    ensures Pow2(0) == 1 && Pow2(1) == 2 && Pow2(2) == 4 && Pow2(3) == 8 && Pow2(4) == 16
    ensures Pow2(5) == 32 && Pow2(6) == 64 && Pow2(7) == 128 && Pow2(8) == 256 && Pow2(9) == 512
    ensures Pow2(13) == 8192 && Pow2(14) == 16384 && Pow2(15) == 32768 && Pow2(16) == 65536
  {
    assert Pow2(8) == 256;
    assert Pow2(12) == 4096;
  }

  lemma MulAtLeast(m: int, d: int)
    requires m >= 0
    ensures d >= 1 ==> m * d >= m
    ensures d <= -1 ==> m * d <= -m
  {
    if d >= 1 { assert m * d == m + m * (d - 1); }
    if d <= -1 { assert m * d == -m + m * (d + 1); }
  }

  lemma Distribute(m: int, x: int, y: int)
    ensures m * (x - y) == m * x - m * y
    ensures m * (x + y) == m * x + m * y
  {
  }

  /** A quotient and a remainder below the divisor are determined by the number. */
  lemma QuotientUnique(m: nat, q: int, r: int, q': int, r': int)
    requires 0 <= r < m && 0 <= r' < m
    requires m * q + r == m * q' + r'
    ensures q == q' && r == r'
  {
    Distribute(m, q, q');
    MulAtLeast(m, q - q');
  }

  /** A number written as `m * high + low` with `low` below `m` divides back into its parts. */
  lemma DivModUnique(n: nat, m: nat, high: int, low: nat)
    requires n == m * high + low
    requires low < m
    ensures n / m == high
    ensures n % m == low
  {
    assert m * (n / m) + n % m == n;
    QuotientUnique(m, n / m, n % m, high, low);
  }

  /** Remainders by 8, 4 and 2 of the same number. */
  lemma Residues(x: nat, q: nat, r: nat)
    requires x == 8 * q + r && r < 8
    ensures x / 8 == q && x % 8 == r
    ensures x / 4 == 2 * q + r / 4 && x % 4 == r % 4
    ensures x / 2 == 4 * q + r / 2 && x % 2 == r % 2
  {
    DivModUnique(x, 8, q, r);
    DivModUnique(x, 4, 2 * q + r / 4, r % 4);
    DivModUnique(x, 2, 4 * q + r / 2, r % 2);
  }

  // Rounding up halves, quarters and eighths.

  lemma Halves(n: nat)
    ensures (n + 1) / 2 + n / 2 == n
  {
  }

  lemma Quarters(n: nat)
    ensures (n + 3) / 4 + (n + 1) / 4 == (n + 1) / 2
  {
  }

  lemma Eighths(n: nat)
    ensures (n + 7) / 8 + (n + 3) / 8 == (n + 3) / 4
  {
  }

  lemma MulMonotone(x: int, y: int, m: int)
    requires x <= y && m >= 0
    ensures m * x <= m * y
  {
    Distribute(m, y, x);
  }

  lemma SplitStep(bit: int, low: int, half: int, full: int, rest: int)
    requires full == 2 * half
    ensures bit + 2 * (low + half * rest) == (bit + 2 * low) + full * rest
  {
  }

  // ---------- shifts ----------

  function Shr(v: nat, k: nat): nat
    decreases k
  {
    if k == 0 then v else Shr(v / 2, k - 1)
  }

  function Shl(v: nat, k: nat): nat
  {
    if k == 0 then v else 2 * Shl(v, k - 1)
  }

  lemma {:induction false} ShrIsDivision(v: nat, k: nat)
    ensures Shr(v, k) == v / Pow2(k)
    decreases k
  {
    if k != 0 {
      ShrIsDivision(v / 2, k - 1);
      HalveTwice(v, Pow2(k - 1));
    }
  }

  lemma HalveTwice(v: nat, m: nat)
    requires m >= 1
    ensures (v / 2) / m == v / (2 * m)
  {
    var h := v / 2;
    var q, r := h / m, h % m;
    assert h == m * q + r;
    assert v == 2 * h + v % 2;
    assert 2 * (m * q) == (2 * m) * q;
    DivModUnique(v, 2 * m, q, 2 * r + v % 2);
  }

  lemma {:induction false} ShlValue(v: nat, k: nat)
    ensures Shl(v, k) == Pow2(k) * v
  {
    if k != 0 {
      ShlValue(v, k - 1);
      assert Pow2(k) * v == 2 * (Pow2(k - 1) * v);
    }
  }

  // ---------- streams of bits ----------

  /** A stream gives its bit at every position; it never ends. */
  type Stream = nat -> bool

  function Num(b: bool): (n: nat)
  {
    if b then 1 else 0
  }

  /** The `n` bits from position `p` on as a number, first bit least significant. */
  ghost function LsbVal(s: Stream, p: nat, n: nat): nat
    decreases n, p
  {
    if n == 0 then 0 else Num(s(p)) + 2 * LsbVal(s, p + 1, n - 1)
  }

  /** The `n` bits from position `p` on as a number, first bit most significant. */
  ghost function MsbVal(s: Stream, p: nat, n: nat): nat
  {
    if n == 0 then 0 else 2 * MsbVal(s, p, n - 1) + Num(s(p + n - 1))
  }

  lemma {:induction false} LsbBound(s: Stream, p: nat, n: nat)
    ensures LsbVal(s, p, n) < Pow2(n)
    decreases n
  {
    if n != 0 { LsbBound(s, p + 1, n - 1); }
  }

  lemma {:induction false} MsbBound(s: Stream, p: nat, n: nat)
    ensures MsbVal(s, p, n) < Pow2(n)
  {
    if n != 0 { MsbBound(s, p, n - 1); }
  }

  lemma {:induction false} LsbSplit(s: Stream, p: nat, m: nat, n: nat)
    ensures LsbVal(s, p, m + n) == LsbVal(s, p, m) + Pow2(m) * LsbVal(s, p + m, n)
    decreases m
  {
    if m != 0 {
      LsbSplit(s, p + 1, m - 1, n);
      var rest, half, low := LsbVal(s, p + m, n), Pow2(m - 1), LsbVal(s, p + 1, m - 1);
      assert (m + n) - 1 == (m - 1) + n && (p + 1) + (m - 1) == p + m;
      SplitStep(Num(s(p)), low, half, Pow2(m), rest);
    }
  }

  lemma {:induction false} MsbSplit(s: Stream, p: nat, m: nat, n: nat)
    ensures MsbVal(s, p, m + n) == Pow2(n) * MsbVal(s, p, m) + MsbVal(s, p + m, n)
  {
    if n != 0 {
      MsbSplit(s, p, m, n - 1);
      var top, half, low := MsbVal(s, p, m), Pow2(n - 1), MsbVal(s, p + m, n - 1);
      var last := Num(s(p + m + n - 1));
      assert (m + n) - 1 == m + (n - 1) && p + (m + n) - 1 == p + m + n - 1;
      SplitStep(last, low, half, Pow2(n), top);
    }
  }

  /** Taking the low `n` of `m` buffered bits yields the next `n` bits and leaves the rest. */
  lemma LsbTake(s: Stream, p: nat, m: nat, n: nat)
    requires n <= m
    ensures LsbVal(s, p, m) % Pow2(n) == LsbVal(s, p, n)
    ensures LsbVal(s, p, m) / Pow2(n) == LsbVal(s, p + n, m - n)
  {
    LsbSplit(s, p, n, m - n);
    LsbBound(s, p, n);
    DivModUnique(LsbVal(s, p, m), Pow2(n), LsbVal(s, p + n, m - n), LsbVal(s, p, n));
  }

  lemma MsbTake(s: Stream, p: nat, m: nat, n: nat)
    requires n <= m
    ensures MsbVal(s, p, m) / Pow2(m - n) == MsbVal(s, p, n)
  {
    MsbSplit(s, p, n, m - n);
    MsbBound(s, p + n, m - n);
    assert n + (m - n) == m;
    DivModUnique(MsbVal(s, p, m), Pow2(m - n), MsbVal(s, p, n), MsbVal(s, p + n, m - n));
  }

  // ---------- the bit stream of a byte buffer ----------

  /** Bit `i` of `v`, counted from the least significant one. */
  function Bit(v: nat, i: nat): bool
    decreases i
  {
    if i == 0 then v % 2 == 1 else Bit(v / 2, i - 1)
  }

  /** Byte `j` of the buffer; past its end the stream goes on with zero bytes. */
  function ByteAt(data: seq<byte>, j: nat): (b: byte)
  {
    if j < |data| then data[j] else 0
  }

  /** The bits of a byte buffer in the order of section 3.1.1 of RFC 1951, extended with zeros. */
  function StreamOf(data: seq<byte>): Stream
  {
    (p: nat) => Bit(ByteAt(data, p / 8), p % 8)
  }

  /** The bits of `v` from bit `k` of byte `j` on, when `v` is that byte without its low `k` bits. */
  lemma {:induction false} ByteBits(data: seq<byte>, j: nat, k: nat, v: nat)
    requires k <= 8
    requires v < Pow2(8 - k)
    requires forall i: nat :: i < 8 - k ==> Bit(v, i) == Bit(ByteAt(data, j), i + k)
    ensures LsbVal(StreamOf(data), 8 * j + k, 8 - k) == v
    decreases 8 - k
  {
    if k < 8 {
      assert Bit(v, 0) == Bit(ByteAt(data, j), 0 + k);
      forall i: nat | i < 8 - (k + 1)
        ensures Bit(v / 2, i) == Bit(ByteAt(data, j), i + (k + 1))
      {
        assert Bit(v, i + 1) == Bit(ByteAt(data, j), (i + 1) + k);
      }
      ByteBits(data, j, k + 1, v / 2);
      assert (8 * j + k) / 8 == j && (8 * j + k) % 8 == k;
    }
  }

  /** A whole byte is the eight stream bits at its position. */
  lemma ByteIsEightBits(data: seq<byte>, j: nat)
    ensures LsbVal(StreamOf(data), 8 * j, 8) == ByteAt(data, j)
  {
    assert Pow2(8) == 256;
    assert 8 * j + 0 == 8 * j;
    ByteBits(data, j, 0, ByteAt(data, j));
  }

  /** Appending the byte that follows the buffered bits extends them by eight bits. */
  lemma AppendByte(data: seq<byte>, p: nat, n: nat, j: nat)
    requires p + n == 8 * j
    ensures LsbVal(StreamOf(data), p, n + 8) == LsbVal(StreamOf(data), p, n) + Shl(ByteAt(data, j), n)
  {
    hide LsbVal, StreamOf, ByteAt, Shl, Pow2;
    ByteIsEightBits(data, j);
    LsbSplit(StreamOf(data), p, n, 8);
    ShlValue(LsbVal(StreamOf(data), p + n, 8), n);
  }

  /** Writing byte `k` of `bytes` at `c + k` when the ones before it are written. */
  lemma WriteNext(was: seq<byte>, bytes: seq<byte>, c: nat, k: nat)
    requires k < |bytes| && c + |bytes| <= |was|
    ensures (was[..c] + bytes[..k] + was[c + k..])[c + k := bytes[k]] == was[..c] + bytes[..k + 1] + was[c + k + 1..]
  {
  }

  lemma EmptyBits(s: Stream, p: nat)
    ensures LsbVal(s, p, 0) == 0
  {
  }

  lemma TwoBytes(s: Stream, p: nat)
    ensures LsbVal(s, p, 16) == LsbVal(s, p, 8) + 256 * LsbVal(s, p + 8, 8)
  {
    assert Pow2(8) == 256;
    LsbSplit(s, p, 8, 8);
  }

  lemma {:induction false} ZeroTail(data: seq<byte>, p: nat, n: nat)
    requires p >= 8 * |data|
    ensures LsbVal(StreamOf(data), p, n) == 0
    decreases n
  {
    if n != 0 {
      ZeroTail(data, p + 1, n - 1);
      BitOfZero(p % 8);
    }
  }

  lemma {:induction false} BitOfZero(i: nat)
    ensures !Bit(0, i)
  {
    if i != 0 { BitOfZero(i - 1); }
  }
}
