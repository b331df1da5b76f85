/** Canonical Huffman codes as section 3.2.2 of RFC 1951 defines them from a list of code
    lengths, and what makes them decodable: the per-length code ranges tile a 16-bit space. */
module Huffman {
  import opened Bits
  import opened Wrappers

  const MAX_LENGTH: nat := 15

  ghost predicate LengthsOk(lens: seq<nat>)
  {
    forall i :: 0 <= i < |lens| ==> lens[i] <= MAX_LENGTH
  }

  /** How many of the first `n` symbols have length `len`. */
  ghost function Count(lens: seq<nat>, n: nat, len: nat): nat
    requires n <= |lens|
  {
    if n == 0 then 0 else Count(lens, n - 1, len) + (if lens[n - 1] == len then 1 else 0)
  }

  ghost function Total(lens: seq<nat>, len: nat): nat
  {
    Count(lens, |lens|, len)
  }

  /** The smallest code of length `len`. */
  ghost function First(lens: seq<nat>, len: nat): nat
  {
    if len <= 1 then 0 else 2 * (First(lens, len - 1) + Total(lens, len - 1))
  }

  /** One more than the largest code of length `len`. */
  ghost function EndCode(lens: seq<nat>, len: nat): nat
  {
    First(lens, len) + Total(lens, len)
  }

  /** Codes of one length are consecutive in symbol order. */
  ghost function Code(lens: seq<nat>, sym: nat): nat
    requires sym < |lens|
  {
    First(lens, lens[sym]) + Count(lens, sym, lens[sym])
  }

  /** The code of `sym` stands in the stream at position `p`, most significant bit first. */
  ghost predicate CodeAt(lens: seq<nat>, s: Stream, p: nat, sym: nat)
  {
    sym < |lens| && lens[sym] > 0 && MsbVal(s, p, lens[sym]) == Code(lens, sym)
  }

  /** The reference decoder: the symbol whose code is a prefix of the stream at `p`, if any. */
  ghost function Decoded(lens: seq<nat>, s: Stream, p: nat): (r: Option<nat>)
    ensures r.Some? ==> CodeAt(lens, s, p, r.value)
  {
    if sym: nat :| CodeAt(lens, s, p, sym) then Some(sym) else None
  }

  /** The Kraft sum of the first `n` symbols, in units of 2^-15. */
  ghost function KraftSum(lens: seq<nat>, n: nat): nat
    requires n <= |lens| && LengthsOk(lens)
  {
    if n == 0 then 0
    else KraftSum(lens, n - 1) + (if lens[n - 1] == 0 then 0 else Pow2(MAX_LENGTH - lens[n - 1]))
  }

  ghost predicate Kraft(lens: seq<nat>)
  {
    LengthsOk(lens) && KraftSum(lens, |lens|) <= Pow2(MAX_LENGTH)
  }

  // ---------- counting ----------

  lemma {:induction false} CountMonotone(lens: seq<nat>, m: nat, n: nat, len: nat)
    requires m <= n <= |lens|
    ensures Count(lens, m, len) <= Count(lens, n, len)
  {
    if m < n { CountMonotone(lens, m, n - 1, len); }
  }

  /** A symbol's rank within its length is below the number of symbols of that length. */
  lemma RankBelowTotal(lens: seq<nat>, sym: nat)
    requires sym < |lens|
    ensures Count(lens, sym, lens[sym]) < Total(lens, lens[sym])
  {
    CountMonotone(lens, sym + 1, |lens|, lens[sym]);
  }

  lemma RankInjective(lens: seq<nat>, i: nat, j: nat)
    requires i < j < |lens| && lens[i] == lens[j]
    ensures Count(lens, i, lens[i]) < Count(lens, j, lens[j])
  {
    CountMonotone(lens, i + 1, j, lens[i]);
  }

  /** Every rank below the total is taken. */
  lemma {:induction false} NthOfLength(lens: seq<nat>, n: nat, len: nat, rank: nat) returns (sym: nat)
    requires n <= |lens| && rank < Count(lens, n, len)
    ensures sym < n && lens[sym] == len && Count(lens, sym, len) == rank
  {
    if lens[n - 1] == len && rank == Count(lens, n - 1, len) {
      sym := n - 1;
    } else {
      sym := NthOfLength(lens, n - 1, len, rank);
    }
  }

  // ---------- the code ranges in a 16-bit window ----------

  ghost function RangeStart(lens: seq<nat>, len: nat): nat
    requires len <= 16
  {
    Pow2(16 - len) * First(lens, len)
  }

  ghost function RangeEnd(lens: seq<nat>, len: nat): nat
    requires len <= 16
  {
    Pow2(16 - len) * EndCode(lens, len)
  }

  /** Each range starts where the one of the next shorter length ends. */
  lemma RangesTile(lens: seq<nat>, len: nat)
    requires 1 <= len < 16
    ensures RangeStart(lens, len + 1) == RangeEnd(lens, len)
    ensures RangeStart(lens, len) <= RangeEnd(lens, len)
  {
    TileStep(Pow2(16 - len), Pow2(16 - (len + 1)), EndCode(lens, len));
    MulMonotone(First(lens, len), EndCode(lens, len), Pow2(16 - len));
  }

  lemma TileStep(unit: int, half: int, end: int)
    requires unit == 2 * half
    ensures half * (2 * end) == unit * end
  {
  }

  lemma {:induction false} RangeEndMonotone(lens: seq<nat>, a: nat, b: nat)
    requires 1 <= a <= b <= MAX_LENGTH
    ensures RangeEnd(lens, a) <= RangeEnd(lens, b)
  {
    if a < b {
      RangeEndMonotone(lens, a, b - 1);
      RangesTile(lens, b - 1);
      RangesTile(lens, b);
    }
  }

  /** A window that starts with a symbol's code lies in the range of its length. */
  lemma WindowInRange(lens: seq<nat>, s: Stream, p: nat, sym: nat)
    requires LengthsOk(lens) && CodeAt(lens, s, p, sym)
    ensures RangeStart(lens, lens[sym]) <= MsbVal(s, p, 16) < RangeEnd(lens, lens[sym])
  {
    var len := lens[sym];
    var code, unit, window := Code(lens, sym), Pow2(16 - len), MsbVal(s, p, 16);
    MsbTake(s, p, 16, len);
    assert window / unit == code;
    QuotientBounds(window, unit, code);
    RankBelowTotal(lens, sym);
    MulMonotone(First(lens, len), code, unit);
    MulMonotone(code + 1, EndCode(lens, len), unit);
  }

  lemma QuotientBounds(n: nat, m: nat, q: nat)
    requires m > 0 && n / m == q
    ensures m * q <= n < m * (q + 1)
  {
    assert m * (n / m) + n % m == n;
    Distribute(m, q, 1);
  }

  lemma QuotientBetween(n: nat, m: nat, a: nat, b: nat)
    requires m > 0 && m * a <= n < m * b
    ensures a <= n / m < b
  {
    var q := n / m;
    QuotientBounds(n, m, q);
    if q < a { MulMonotone(q + 1, a, m); }
    if q >= b { MulMonotone(b, q, m); }
  }

  /** Canonical codes are prefix-free: no two symbols match at one position. */
  lemma PrefixFree(lens: seq<nat>, s: Stream, p: nat, i: nat, j: nat)
    requires LengthsOk(lens) && CodeAt(lens, s, p, i) && CodeAt(lens, s, p, j)
    ensures i == j
  {
    WindowInRange(lens, s, p, i);
    WindowInRange(lens, s, p, j);
    if lens[i] < lens[j] {
      RangeEndMonotone(lens, lens[i], lens[j] - 1);
      RangesTile(lens, lens[j] - 1);
    } else if lens[j] < lens[i] {
      RangeEndMonotone(lens, lens[j], lens[i] - 1);
      RangesTile(lens, lens[i] - 1);
    } else if i < j {
      RankInjective(lens, i, j);
    } else if j < i {
      RankInjective(lens, j, i);
    }
  }

  /** The reference decoder returns exactly the symbol that matches. */
  lemma DecodedIff(lens: seq<nat>, s: Stream, p: nat, sym: nat)
    requires LengthsOk(lens)
    ensures Decoded(lens, s, p) == Some(sym) <==> CodeAt(lens, s, p, sym)
  {
    if CodeAt(lens, s, p, sym) {
      var found := Decoded(lens, s, p).value;
      PrefixFree(lens, s, p, sym, found);
    }
  }

  /** Every window inside a length's range starts with the code of a symbol of that length. */
  lemma RangeIsCovered(lens: seq<nat>, s: Stream, p: nat, len: nat) returns (sym: nat)
    requires 1 <= len <= MAX_LENGTH
    requires RangeStart(lens, len) <= MsbVal(s, p, 16) < RangeEnd(lens, len)
    ensures First(lens, len) <= MsbVal(s, p, 16) / Pow2(16 - len)
    ensures CodeAt(lens, s, p, sym) && lens[sym] == len
    ensures Count(lens, sym, len) == MsbVal(s, p, 16) / Pow2(16 - len) - First(lens, len)
  {
    var window, unit := MsbVal(s, p, 16), Pow2(16 - len);
    QuotientBetween(window, unit, First(lens, len), EndCode(lens, len));
    sym := NthOfLength(lens, |lens|, len, window / unit - First(lens, len));
    MsbTake(s, p, 16, len);
  }

  // ---------- the Kraft inequality ----------

  /** The number of 15-bit code words used up by the first `n` symbols of lengths 1 to `len`. */
  ghost function Weight(lens: seq<nat>, n: nat, len: nat): nat
    requires n <= |lens| && len <= MAX_LENGTH
    decreases lens, len
  {
    if len == 0 then 0 else Weight(lens, n, len - 1) + Pow2(MAX_LENGTH - len) * Count(lens, n, len)
  }

  lemma {:induction false} WeightStep(lens: seq<nat>, n: nat, len: nat)
    requires 0 < n <= |lens| && len <= MAX_LENGTH && LengthsOk(lens)
    ensures Weight(lens, n, len) == Weight(lens, n - 1, len) +
              (if 1 <= lens[n - 1] <= len then Pow2(MAX_LENGTH - lens[n - 1]) else 0)
    decreases len
  {
    if len != 0 {
      WeightStep(lens, n, len - 1);
      var unit, before := Pow2(MAX_LENGTH - len), Count(lens, n - 1, len);
      Distribute(unit, before, 1);
    }
  }

  lemma {:induction false} KraftSumIsWeight(lens: seq<nat>, n: nat)
    requires n <= |lens| && LengthsOk(lens)
    ensures KraftSum(lens, n) == Weight(lens, n, MAX_LENGTH)
  {
    if n == 0 {
      NoWeight(lens, MAX_LENGTH);
    } else {
      KraftSumIsWeight(lens, n - 1);
      WeightStep(lens, n, MAX_LENGTH);
    }
  }

  lemma {:induction false} NoWeight(lens: seq<nat>, len: nat)
    requires len <= MAX_LENGTH
    ensures Weight(lens, 0, len) == 0
  {
    if len != 0 { NoWeight(lens, len - 1); }
  }

  lemma {:induction false} WeightIsEndCode(lens: seq<nat>, len: nat)
    requires 1 <= len <= MAX_LENGTH
    ensures Weight(lens, |lens|, len) == Pow2(MAX_LENGTH - len) * EndCode(lens, len)
    decreases len
  {
    var unit, total := Pow2(MAX_LENGTH - len), Total(lens, len);
    if len == 1 {
      assert Weight(lens, |lens|, 0) == 0;
    } else {
      WeightIsEndCode(lens, len - 1);
      TileStep(Pow2(MAX_LENGTH - (len - 1)), unit, EndCode(lens, len - 1));
      Distribute(unit, First(lens, len), total);
    }
  }

  lemma {:induction false} WeightMonotone(lens: seq<nat>, a: nat, b: nat)
    requires a <= b <= MAX_LENGTH
    ensures Weight(lens, |lens|, a) <= Weight(lens, |lens|, b)
  {
    hide Pow2, Count;
    if a < b {
      WeightMonotone(lens, a, b - 1);
      MulMonotone(0, Count(lens, |lens|, b), Pow2(MAX_LENGTH - b));
    }
  }

  /** The Kraft inequality says exactly that the codes of every length fit into that many bits. */
  lemma KraftIff(lens: seq<nat>)
    requires LengthsOk(lens)
    ensures Kraft(lens) <==> forall len :: 1 <= len <= MAX_LENGTH ==> EndCode(lens, len) <= Pow2(len)
  {
    KraftSumIsWeight(lens, |lens|);
    WeightIsEndCode(lens, MAX_LENGTH);
    assert Pow2(0) == 1;
    assert Weight(lens, |lens|, MAX_LENGTH) == EndCode(lens, MAX_LENGTH);
    if Kraft(lens) {
      forall len | 1 <= len <= MAX_LENGTH
        ensures EndCode(lens, len) <= Pow2(len)
      {
        WeightMonotone(lens, len, MAX_LENGTH);
        WeightIsEndCode(lens, len);
        Pow2Add(MAX_LENGTH - len, len);
        CancelFactor(Pow2(MAX_LENGTH - len), EndCode(lens, len), Pow2(len));
      }
    }
  }

  lemma CancelFactor(m: int, x: int, y: int)
    requires m > 0 && m * x <= m * y
    ensures x <= y
  {
    if x > y { MulAtLeast(m, x - y); Distribute(m, x, y); }
  }

  /** Under the Kraft inequality every code fits into its length. */
  lemma CodeFits(lens: seq<nat>, sym: nat)
    requires Kraft(lens) && sym < |lens| && lens[sym] > 0
    ensures Code(lens, sym) < Pow2(lens[sym])
  {
    KraftIff(lens);
    RankBelowTotal(lens, sym);
  }
}
