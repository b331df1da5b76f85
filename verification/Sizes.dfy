/** The tests that keep products of sizes within a 32-bit integer. */
module Sizes {
  import opened Bits

  const INT_MAX: nat := 0x7fff_ffff

  /** A 32-bit unsigned number. */
  function Unsigned(n: nat): nat
  {
    n % 0x1_0000_0000
  }

  /** The test divides instead of multiplying; a number above the limit arrives as a negative one. */
  predicate Mul2SizesValid(a: nat, b: nat)
  {
    a <= INT_MAX && b <= INT_MAX && (b == 0 || a <= INT_MAX / b)
  }

  predicate AddSizesValid(a: nat, b: nat)
  {
    b <= INT_MAX && a <= INT_MAX - b
  }

  predicate Mad3SizesValid(a: nat, b: nat, c: nat, add: nat)
  {
    Mul2SizesValid(a, b) && Mul2SizesValid(a * b, c) && AddSizesValid(a * b * c, add)
  }

  /** The division finds exactly the products within the limit. */
  lemma Mul2SizesValidIff(a: nat, b: nat)
    requires a <= INT_MAX && b <= INT_MAX
    ensures Mul2SizesValid(a, b) <==> a * b <= 0x7fff_ffff
  {
    if b > 0 {
      var q := INT_MAX / b;
      assert b * q + INT_MAX % b == INT_MAX;
      Distribute(b, q, 1);
      if a <= q { MulMonotone(a, q, b); } else { MulMonotone(q + 1, a, b); }
    }
  }

  /** Sizes that pass the test multiply without overflow, and so do smaller ones. */
  lemma Mad3SizesValidIff(a: nat, b: nat, c: nat, add: nat)
    requires a <= INT_MAX && b <= INT_MAX && c <= INT_MAX && add <= INT_MAX
    ensures Mad3SizesValid(a, b, c, add) <==> a * b <= 0x7fff_ffff && a * b * c + add <= 0x7fff_ffff
  {
    hide Mul2SizesValid;
    Mul2SizesValidIff(a, b);
    if a * b <= INT_MAX { Mul2SizesValidIff(a * b, c); }
  }

  lemma Mad3Limits(a: nat, b: nat, c: nat, add: nat)
    requires Mad3SizesValid(a, b, c, add)
    ensures a <= INT_MAX && b <= INT_MAX && c <= INT_MAX && add <= INT_MAX
    ensures a * b <= INT_MAX && a * b * c + add <= INT_MAX
  {
    hide Mul2SizesValid;
    MulLimits(a, b);
    MulLimits(a * b, c);
  }

  lemma MulLimits(a: nat, b: nat)
    requires Mul2SizesValid(a, b)
    ensures a <= INT_MAX && b <= INT_MAX && a * b <= INT_MAX
  {
    Mul2SizesValidIff(a, b);
  }

  lemma Mad3Smaller(a: nat, b: nat, a': nat, b': nat, c: nat, add: nat)
    requires Mad3SizesValid(a, b, c, add) && a' <= a && b' <= b
    ensures Mad3SizesValid(a', b', c, add)
  {
    hide Mad3SizesValid;
    Mad3Limits(a, b, c, add);
    MulMonotone(b', b, a');
    MulMonotone(a', a, b);
    assert a' * b' <= a * b by { assert a' * b == b * a' && a * b == b * a; }
    MulMonotone(a' * b', a * b, c);
    Mad3SizesValidIff(a', b', c, add);
  }
}
