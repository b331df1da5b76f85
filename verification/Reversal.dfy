/** The 16-bit reversal by swapping ever larger groups of bits, and what it computes.
    DEFLATE packs Huffman codes starting with their most significant bit into a stream that is
    otherwise read least significant bit first, so a code is looked up by its reversal. */
module Reversal {
  import opened Bits

  // ---------- the bitwise operations of the C expression ----------

  function BitAnd(a: nat, b: nat): nat
  {
    if a == 0 || b == 0 then 0 else (a % 2) * (b % 2) + 2 * BitAnd(a / 2, b / 2)
  }

  function BitOr(a: nat, b: nat): nat
    decreases a + b
  {
    if a == 0 then b
    else if b == 0 then a
    else (if a % 2 == 1 || b % 2 == 1 then 1 else 0) + 2 * BitOr(a / 2, b / 2)
  }

  function SwapGroups(n: nat, high: nat, low: nat, k: nat): nat
  {
    BitOr(Shr(BitAnd(n, high), k), Shl(BitAnd(n, low), k))
  }

  function BitReverse16(n: nat): nat
  {
    var n1 := SwapGroups(n, 0xAAAA, 0x5555, 1);
    var n2 := SwapGroups(n1, 0xCCCC, 0x3333, 2);
    var n3 := SwapGroups(n2, 0xF0F0, 0x0F0F, 4);
    SwapGroups(n3, 0xFF00, 0x00FF, 8)
  }

  function BitReverse(v: nat, bits: nat): nat
    requires bits <= 16
  {
    Shr(BitReverse16(v), 16 - bits)
  }

  // ---------- the reference: the low `n` bits of a number in reverse order ----------

  function Rev(v: nat, n: nat): nat
    decreases n
  {
    if n == 0 then 0 else Pow2(n - 1) * (v % 2) + Rev(v / 2, n - 1)
  }

  // ---------- single bits of the operations ----------

  lemma {:induction false} BitAndBit(a: nat, b: nat, i: nat)
    ensures Bit(BitAnd(a, b), i) == (Bit(a, i) && Bit(b, i))
  {
    if a == 0 || b == 0 {
      BitOfZero(i);
    } else if i != 0 {
      BitAndBit(a / 2, b / 2, i - 1);
    }
  }

  lemma {:induction false} BitOrBit(a: nat, b: nat, i: nat)
    ensures Bit(BitOr(a, b), i) == (Bit(a, i) || Bit(b, i))
    decreases i
  {
    if a == 0 || b == 0 {
      BitOfZero(i);
    } else if i != 0 {
      BitOrBit(a / 2, b / 2, i - 1);
    }
  }

  lemma {:induction false} ShrBit(v: nat, k: nat, i: nat)
    ensures Bit(Shr(v, k), i) == Bit(v, i + k)
    decreases k
  {
    if k != 0 { ShrBit(v / 2, k - 1, i); }
  }

  lemma {:induction false} ShlBit(v: nat, k: nat, i: nat)
    ensures Bit(Shl(v, k), i) == (i >= k && Bit(v, i - k))
    decreases k
  {
    if k != 0 && i != 0 { ShlBit(v, k - 1, i - 1); }
  }

  lemma {:induction false} BitAndBound(a: nat, b: nat)
    ensures BitAnd(a, b) <= b
  {
    if a != 0 && b != 0 { BitAndBound(a / 2, b / 2); }
  }

  lemma {:induction false} BitOrBound(a: nat, b: nat)
    ensures BitOr(a, b) <= a + b
    decreases a + b
  {
    if a != 0 && b != 0 { BitOrBound(a / 2, b / 2); }
  }

  /** Numbers below 2^n are equal when their low n bits are. */
  lemma {:induction false} BitsDetermine(a: nat, b: nat, n: nat)
    requires a < Pow2(n) && b < Pow2(n)
    requires forall i: nat :: i < n ==> Bit(a, i) == Bit(b, i)
    ensures a == b
  {
    if n != 0 {
      assert Bit(a, 0) == Bit(b, 0);
      forall i: nat | i < n - 1
        ensures Bit(a / 2, i) == Bit(b / 2, i)
      {
        assert Bit(a, i + 1) == Bit(b, i + 1);
      }
      BitsDetermine(a / 2, b / 2, n - 1);
    }
  }

  /** Bits at or beyond the width of a number are clear. */
  lemma {:induction false} BitBeyond(v: nat, n: nat, i: nat)
    requires v < Pow2(n) && n <= i
    ensures !Bit(v, i)
    decreases n
  {
    if n == 0 { BitOfZero(i); } else { BitBeyond(v / 2, n - 1, i - 1); }
  }

  /** The bits of a swap, before the masks are looked at. */
  lemma SwapGroupsBit(n: nat, high: nat, low: nat, k: nat, i: nat)
    ensures Bit(SwapGroups(n, high, low, k), i) ==
            ((Bit(n, i + k) && Bit(high, i + k)) || (i >= k && Bit(n, i - k) && Bit(low, i - k)))
  {
    BitOrBit(Shr(BitAnd(n, high), k), Shl(BitAnd(n, low), k), i);
    ShrBit(BitAnd(n, high), k, i);
    ShlBit(BitAnd(n, low), k, i);
    BitAndBit(n, high, i + k);
    if i >= k { BitAndBit(n, low, i - k); }
  }

  // ---------- the masks, bit by bit ----------

  /** Binary digit `d` of a bit number below sixteen. */
  predicate Digit(i: nat, d: nat)
  {
    if d == 0 then i % 2 == 1 else if d == 1 then i / 2 % 2 == 1 else if d == 2 then i / 4 % 2 == 1 else i / 8 % 2 == 1
  }

  function DigitWeight(d: nat): nat
  {
    if d == 0 then 1 else if d == 1 then 2 else if d == 2 then 4 else 8
  }

  /** `n` bits, numbered from `from` on; set are those whose number has digit `d` set, or clear. */
  function Mask(d: nat, set_: bool, from: nat, n: nat): nat
    decreases n
  {
    if n == 0 then 0 else Num(Digit(from, d) == set_) + 2 * Mask(d, set_, from + 1, n - 1)
  }

  lemma {:induction false} MaskBit(d: nat, set_: bool, from: nat, n: nat, i: nat)
    requires i < n
    ensures Bit(Mask(d, set_, from, n), i) == (Digit(from + i, d) == set_)
    decreases i
  {
    hide Digit;
    if i > 0 {
      MaskBit(d, set_, from + 1, n - 1, i - 1);
      assert from + i == (from + 1) + (i - 1);
    }
  }

  function Nibble(d: nat, set_: bool, from: nat): nat
  {
    Num(Digit(from, d) == set_) + 2 * Num(Digit(from + 1, d) == set_)
    + 4 * Num(Digit(from + 2, d) == set_) + 8 * Num(Digit(from + 3, d) == set_)
  }

  lemma MaskNibble(d: nat, set_: bool, from: nat, n: nat)
    ensures Mask(d, set_, from, n + 4) == Nibble(d, set_, from) + 16 * Mask(d, set_, from + 4, n)
  {
    hide Digit;
    assert Mask(d, set_, from, n + 4) == Num(Digit(from, d) == set_) + 2 * Mask(d, set_, from + 1, n + 3);
    assert Mask(d, set_, from + 2, n + 2) == Num(Digit(from + 2, d) == set_) + 2 * Mask(d, set_, from + 3, n + 1);
  }

  lemma MaskFromNibbles(d: nat, set_: bool)
    ensures Mask(d, set_, 0, 16) == Nibble(d, set_, 0) + 16 * Nibble(d, set_, 4) + 256 * Nibble(d, set_, 8)
                                    + 4096 * Nibble(d, set_, 12)
  {
    hide Nibble, Mask;
    MaskNibble(d, set_, 0, 12);
    MaskNibble(d, set_, 4, 8);
    MaskNibble(d, set_, 8, 4);
    MaskNibble(d, set_, 12, 0);
    NoMask(d, set_, 16);
  }

  lemma NoMask(d: nat, set_: bool, from: nat)
    ensures Mask(d, set_, from, 0) == 0
  {
  }

  /** The constants in the code are the masks of the four digits. */
  lemma Masks(set_: bool)
    ensures Mask(0, set_, 0, 16) == (if set_ then 0xAAAA else 0x5555)
    ensures Mask(1, set_, 0, 16) == (if set_ then 0xCCCC else 0x3333)
    ensures Mask(2, set_, 0, 16) == (if set_ then 0xF0F0 else 0x0F0F)
    ensures Mask(3, set_, 0, 16) == (if set_ then 0xFF00 else 0x00FF)
  {
    hide Mask;
    MaskFromNibbles(0, set_);
    MaskFromNibbles(1, set_);
    MaskFromNibbles(2, set_);
    MaskFromNibbles(3, set_);
  }

  /** Where a swap of groups takes bit `i` from: its number with digit `d` flipped. */
  function Partner(i: nat, d: nat): nat
    requires i < 16
  {
    if Digit(i, d) && i >= DigitWeight(d) then i - DigitWeight(d) else i + DigitWeight(d)
  }

  lemma DigitFlipsUp(i: nat, d: nat)
    requires i < 16 && d < 4
    ensures if i + DigitWeight(d) < 16 then Digit(i + DigitWeight(d), d) == !Digit(i, d) else Digit(i, d)
  {
  }

  lemma DigitFlipsDown(i: nat, d: nat)
    requires i < 16 && d < 4
    ensures if i >= DigitWeight(d) then Digit(i - DigitWeight(d), d) == !Digit(i, d) else !Digit(i, d)
  {
    if i >= DigitWeight(d) { DigitFlipsUp(i - DigitWeight(d), d); }
  }

  lemma SwapBit(n: nat, high: nat, low: nat, d: nat, i: nat)
    requires i < 16 && d < 4 && high < Pow2(16)
    requires high == Mask(d, true, 0, 16) && low == Mask(d, false, 0, 16)
    ensures Bit(SwapGroups(n, high, low, DigitWeight(d)), i) == Bit(n, Partner(i, d))
  {
    hide Bit, Mask, Pow2, SwapGroups, Digit, DigitWeight;
    var k := DigitWeight(d);
    SwapGroupsBit(n, high, low, k, i);
    DigitFlipsUp(i, d);
    DigitFlipsDown(i, d);
    if i >= k { MaskBit(d, false, 0, 16, i - k); }
    if i + k < 16 { MaskBit(d, true, 0, 16, i + k); } else { BitBeyond(high, 16, i + k); }
  }

  lemma SwapBits(n: nat, i: nat)
    requires i < 16
    ensures Bit(SwapGroups(n, 0xAAAA, 0x5555, 1), i) == Bit(n, Partner(i, 0))
    ensures Bit(SwapGroups(n, 0xCCCC, 0x3333, 2), i) == Bit(n, Partner(i, 1))
    ensures Bit(SwapGroups(n, 0xF0F0, 0x0F0F, 4), i) == Bit(n, Partner(i, 2))
    ensures Bit(SwapGroups(n, 0xFF00, 0x00FF, 8), i) == Bit(n, Partner(i, 3))
  {
    hide Bit, Mask, Pow2, SwapGroups, Partner;
    Pow2Values();
    Masks(true);
    Masks(false);
    SwapBit(n, 0xAAAA, 0x5555, 0, i);
    SwapBit(n, 0xCCCC, 0x3333, 1, i);
    SwapBit(n, 0xF0F0, 0x0F0F, 2, i);
    SwapBit(n, 0xFF00, 0x00FF, 3, i);
  }

  lemma PartnerFlips(b3: nat, b2: nat, b1: nat, b0: nat)
    requires b3 <= 1 && b2 <= 1 && b1 <= 1 && b0 <= 1
    ensures var i := 8 * b3 + 4 * b2 + 2 * b1 + b0;
            && Partner(i, 3) == 8 * (1 - b3) + 4 * b2 + 2 * b1 + b0
            && Partner(i, 2) == 8 * b3 + 4 * (1 - b2) + 2 * b1 + b0
            && Partner(i, 1) == 8 * b3 + 4 * b2 + 2 * (1 - b1) + b0
            && Partner(i, 0) == 8 * b3 + 4 * b2 + 2 * b1 + (1 - b0)
  {
  }

  /** Flipping all four digits of a bit number mirrors it. */
  lemma Partners(i: nat) returns (i3: nat, i2: nat, i1: nat)
    requires i < 16
    ensures i3 < 16 && i2 < 16 && i1 < 16
    ensures i3 == Partner(i, 3) && i2 == Partner(i3, 2) && i1 == Partner(i2, 1)
    ensures Partner(i1, 0) == 15 - i
  {
    hide Partner;
    var b3, b2, b1, b0 := i / 8, i / 4 % 2, i / 2 % 2, i % 2;
    PartnerFlips(b3, b2, b1, b0);
    PartnerFlips(1 - b3, b2, b1, b0);
    PartnerFlips(1 - b3, 1 - b2, b1, b0);
    PartnerFlips(1 - b3, 1 - b2, 1 - b1, b0);
    i3 := Partner(i, 3);
    i2 := Partner(i3, 2);
    i1 := Partner(i2, 1);
  }

  lemma BitReverse16Bit(v: nat, i: nat)
    requires i < 16
    ensures Bit(BitReverse16(v), i) == Bit(v, 15 - i)
  {
    var n1 := SwapGroups(v, 0xAAAA, 0x5555, 1);
    var n2 := SwapGroups(n1, 0xCCCC, 0x3333, 2);
    var n3 := SwapGroups(n2, 0xF0F0, 0x0F0F, 4);
    var i3, i2, i1 := Partners(i);
    hide Bit, SwapGroups, Partner;
    SwapBits(n3, i);
    SwapBits(n2, i3);
    SwapBits(n1, i2);
    SwapBits(v, i1);
  }

  lemma BitReverse16Bound(v: nat)
    ensures BitReverse16(v) < 65536
  {
    var n1 := SwapGroups(v, 0xAAAA, 0x5555, 1);
    var n2 := SwapGroups(n1, 0xCCCC, 0x3333, 2);
    var n3 := SwapGroups(n2, 0xF0F0, 0x0F0F, 4);
    var top, bottom := BitAnd(n3, 0xFF00), BitAnd(n3, 0x00FF);
    BitAndBound(n3, 0xFF00);
    BitAndBound(n3, 0x00FF);
    ShrIsDivision(top, 8);
    assert Pow2(8) == 256;
    ShlValue(bottom, 8);
    BitOrBound(Shr(top, 8), Shl(bottom, 8));
  }

  // ---------- the reference reversal ----------

  lemma {:induction false} RevBound(v: nat, n: nat)
    ensures Rev(v, n) < Pow2(n)
    decreases n
  {
    if n != 0 { RevBound(v / 2, n - 1); }
  }

  /** The bits of a number with one more bit set on top. */
  lemma {:induction false} TopBit(top: nat, low: nat, n: nat, i: nat)
    requires top < 2 && low < Pow2(n) && i <= n
    ensures Bit(Pow2(n) * top + low, i) == (if i == n then top == 1 else Bit(low, i))
    decreases n
  {
    if n != 0 {
      var v := Pow2(n) * top + low;
      assert v == 2 * (Pow2(n - 1) * top) + low;
      if i != 0 { TopBit(top, low / 2, n - 1, i - 1); }
    }
  }

  lemma {:induction false} RevBit(v: nat, n: nat, i: nat)
    requires i < n
    ensures Bit(Rev(v, n), i) == Bit(v, n - 1 - i)
    decreases n
  {
    RevBound(v / 2, n - 1);
    TopBit(v % 2, Rev(v / 2, n - 1), n - 1, i);
    if i < n - 1 { RevBit(v / 2, n - 1, i); }
  }

  lemma RevInvolution(v: nat, n: nat)
    requires v < Pow2(n)
    ensures Rev(Rev(v, n), n) == v
  {
    RevBound(Rev(v, n), n);
    forall i: nat | i < n
      ensures Bit(Rev(Rev(v, n), n), i) == Bit(v, i)
    {
      RevBit(Rev(v, n), n, i);
      RevBit(v, n, n - 1 - i);
    }
    BitsDetermine(Rev(Rev(v, n), n), v, n);
  }

  /** Reversing in a wider word only shifts the result up. */
  lemma {:induction false} RevPad(v: nat, n: nat, t: nat)
    requires v < Pow2(n)
    ensures Rev(v, n + t) == Pow2(t) * Rev(v, n)
    decreases n
  {
    if n == 0 {
      RevZero(t);
    } else {
      RevPad(v / 2, n - 1, t);
      Pow2Add(t, n - 1);
      assert (n + t) - 1 == (n - 1) + t == t + (n - 1);
      PadStep(Pow2(t), Pow2(n - 1), Pow2(t + (n - 1)), v % 2, Rev(v / 2, n - 1));
    }
  }

  lemma PadStep(pad: int, unit: int, product: int, bit: int, rest: int)
    requires product == pad * unit
    ensures product * bit + pad * rest == pad * (unit * bit + rest)
  {
    assert product * bit == pad * (unit * bit);
  }

  lemma {:induction false} RevZero(n: nat)
    ensures Rev(0, n) == 0
  {
    if n != 0 { RevZero(n - 1); }
  }

  // ---------- main results ----------

  /** The four swaps reverse the low sixteen bits, whatever lies above them. */
  lemma BitReverse16IsRev(v: nat)
    ensures BitReverse16(v) == Rev(v, 16)
  {
    Pow2Values();
    BitReverse16Bound(v);
    RevBound(v, 16);
    forall i: nat | i < 16
      ensures Bit(BitReverse16(v), i) == Bit(Rev(v, 16), i)
    {
      BitReverse16Bit(v, i);
      RevBit(v, 16, i);
    }
    BitsDetermine(BitReverse16(v), Rev(v, 16), 16);
  }

  /** Reversing sixteen bits and shifting reverses any narrower field. */
  lemma BitReverseIsRev(v: nat, bits: nat)
    requires bits <= 16 && v < Pow2(bits)
    ensures BitReverse(v, bits) == Rev(v, bits)
  {
    BitReverse16IsRev(v);
    RevPad(v, bits, 16 - bits);
    ShrIsDivision(BitReverse16(v), 16 - bits);
    DivModUnique(BitReverse16(v), Pow2(16 - bits), Rev(v, bits), 0);
  }

  /** Reversing bits read least significant first gives the bits read most significant first,
      however many more bits are buffered above them. */
  lemma {:induction false} RevOfLsb(s: Stream, p: nat, m: nat, n: nat)
    requires n <= m
    ensures Rev(LsbVal(s, p, m), n) == MsbVal(s, p, n)
    decreases n
  {
    if n != 0 {
      RevOfLsb(s, p + 1, m - 1, n - 1);
      MsbSplit(s, p, 1, n - 1);
      assert MsbVal(s, p, 1) == 2 * MsbVal(s, p, 0) + Num(s(p + 1 - 1));
    }
  }
}
