/** Growing an output buffer by doubling: which sizes can be reached. */
module Output {
  import opened Bits

  const UINT_MAX: nat := 0xFFFF_FFFF

  /** Some doubling of `cap` holds `n` bytes and still fits a 32-bit size. */
  ghost predicate Reachable(cap: nat, n: nat)
  {
    exists k: nat :: n <= Shl(cap, k) <= UINT_MAX
  }

  /** `cap'` is the first doubling of `cap` that holds `n` bytes. */
  ghost predicate LeastDoubling(cap: nat, n: nat, cap': nat)
  {
    exists k: nat :: cap' == Shl(cap, k) && n <= cap' && (k > 0 ==> Shl(cap, k - 1) < n)
  }

  /** A buffer of `cap` bytes can end up holding `n`. */
  ghost predicate Room(expandable: bool, cap: nat, n: nat)
  {
    n <= cap || (expandable && Reachable(cap, n))
  }

  lemma {:induction false} ShlMonotone(cap: nat, j: nat, k: nat)
    requires j <= k
    ensures Shl(cap, j) <= Shl(cap, k)
  {
    if j < k { ShlMonotone(cap, j, k - 1); }
  }

  lemma {:induction false} ShlTwice(cap: nat, j: nat, k: nat)
    ensures Shl(Shl(cap, j), k) == Shl(cap, j + k)
  {
    if k != 0 { ShlTwice(cap, j, k - 1); }
  }

  /** A buffer that may grow holds what some doubling within 32 bits holds, any other what it holds now. */
  lemma RoomIff(expandable: bool, cap: nat, n: nat)
    ensures Room(expandable, cap, n) <==>
            n <= cap || (expandable && exists k: nat :: n <= cap * Pow2(k) <= 0xFFFF_FFFF)
  {
    hide Pow2, Shl;
    if Room(expandable, cap, n) && n > cap {
      var k: nat :| n <= Shl(cap, k) <= UINT_MAX;
      ShlValue(cap, k);
      assert n <= cap * Pow2(k) <= 0xFFFF_FFFF;
    }
    if k: nat :| n <= cap * Pow2(k) <= 0xFFFF_FFFF {
      ShlValue(cap, k);
      assert n <= Shl(cap, k) <= UINT_MAX;
    }
  }

  /** Growing step by step reaches every size that growing at once would. */
  lemma RoomAfterGrowth(cap: nat, n: nat, cap': nat, m: nat)
    requires LeastDoubling(cap, n, cap') && cap' <= UINT_MAX
    requires Room(true, cap, m)
    ensures Room(true, cap', m)
  {
    var j: nat :| cap' == Shl(cap, j) && n <= cap' && (j > 0 ==> Shl(cap, j - 1) < n);
    if m <= cap {
      ShlMonotone(cap, 0, j);
    } else {
      var k: nat :| m <= Shl(cap, k) <= UINT_MAX;
      if k <= j {
        ShlMonotone(cap, k, j);
      } else {
        ShlTwice(cap, j, k - j);
        assert m <= Shl(cap', k - j) <= UINT_MAX;
      }
    }
  }

  lemma RoomForLess(expandable: bool, cap: nat, n: nat, m: nat)
    requires m <= n
    ensures Room(expandable, cap, n) ==> Room(expandable, cap, m)
  {
    if Room(expandable, cap, n) && m > cap {
      var k: nat :| n <= Shl(cap, k) <= UINT_MAX;
      assert m <= Shl(cap, k) <= UINT_MAX;
    }
  }

  /** Once doubling passes the 32-bit limit without holding `n` bytes, no doubling will do. */
  lemma NoDoublingFits(cap: nat, n: nat, k: nat)
    requires Shl(cap, k) < n && 2 * Shl(cap, k) > UINT_MAX
    ensures !Reachable(cap, n)
  {
    forall j: nat | n <= Shl(cap, j) <= UINT_MAX
      ensures false
    {
      if j <= k { ShlMonotone(cap, j, k); } else { ShlMonotone(cap, k + 1, j); }
    }
  }
}
