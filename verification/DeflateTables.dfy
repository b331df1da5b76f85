/** The tables and rules of RFC 1951 in closed form: what every symbol stands for and which bits it is written
    with.  The tables of the source are compared with these formulas, entry by entry. */
module DeflateTables {
  import opened BitPacking
  import opened Bits
  import opened Deflate
  import opened Huffman
  import opened Inflate
  import opened RoundTrip
  import opened Wrappers

  // ---------- section 3.2.7: the transmission order ----------

  /** The runs first, then zero, then from eight outwards. */
  lemma TransmissionOrder(i: nat)
    requires i < 19
    ensures OrderAt(i) == if i < 3 then 16 + i else if i == 3 then 0 else if i % 2 == 0 then 6 + i / 2 else 7 - (i - 5) / 2
  {
  }

  // ---------- section 3.2.5: lengths and distances ----------

  /** Four symbols for each number of extra bits, from 265 to 284. */
  lemma LengthTable(sym: nat)
    requires 257 <= sym <= 285
    ensures sym < 265 ==> LengthBase(sym) == sym - 254 && LengthExtra(sym) == 0
    ensures 265 <= sym < 285 ==>
              var e := (sym - 261) / 4;
              LengthBase(sym) == 3 + (4 + (sym - 261) % 4) * Pow2(e) && LengthExtra(sym) == e
    ensures sym == 285 ==> LengthBase(sym) == 258 && LengthExtra(sym) == 0
  {
    hide Pow2, LengthBase, LengthExtra;
    if sym < 265 || sym == 285 { LengthEnds(sym); } else if sym < 273 { ShortLengths(sym); } else { LongLengths(sym); }
  }

  lemma ShortLengths(sym: nat)
    requires 265 <= sym < 273
    ensures var e := (sym - 261) / 4;
            LengthBase(sym) == 3 + (4 + (sym - 261) % 4) * Pow2(e) && LengthExtra(sym) == e
  {
    hide Pow2;
    Pow2Values();
  }

  lemma LongLengths(sym: nat)
    requires 273 <= sym < 285
    ensures var e := (sym - 261) / 4;
            LengthBase(sym) == 3 + (4 + (sym - 261) % 4) * Pow2(e) && LengthExtra(sym) == e
  {
    hide Pow2;
    Pow2Values();
  }

  lemma LengthEnds(sym: nat)
    requires 257 <= sym < 265 || sym == 285
    ensures LengthBase(sym) == (if sym < 265 then sym - 254 else 258) && LengthExtra(sym) == 0
  {
  }

  /** Two symbols for each number of extra bits, from 4 to 29. */
  lemma DistanceTable(d: nat)
    requires d <= 29
    ensures d < 4 ==> DistBase(d) == d + 1 && DistExtra(d) == 0
    ensures d >= 4 ==> var e := d / 2 - 1; DistBase(d) == 1 + (2 + d % 2) * Pow2(e) && DistExtra(d) == e
  {
    hide Pow2, DistBase, DistExtra;
    if d < 4 { DistanceStart(d); } else if d < 16 { ShortDistances(d); } else { LongDistances(d); }
  }

  lemma ShortDistances(d: nat)
    requires 4 <= d < 16
    ensures var e := d / 2 - 1; DistBase(d) == 1 + (2 + d % 2) * Pow2(e) && DistExtra(d) == e
  {
    hide Pow2;
    Pow2Values();
    MorePow2();
  }

  lemma LongDistances(d: nat)
    requires 16 <= d <= 29
    ensures var e := d / 2 - 1; DistBase(d) == 1 + (2 + d % 2) * Pow2(e) && DistExtra(d) == e
  {
    hide Pow2;
    Pow2Values();
    MorePow2();
  }

  lemma DistanceStart(d: nat)
    requires d < 4
    ensures DistBase(d) == d + 1 && DistExtra(d) == 0
  {
  }

  /** Symbols up to 255 are bytes, 256 is the end of the block. */
  lemma LiteralMeaning(ll: seq<nat>, dd: seq<nat>, s: Stream, p: nat, sym: nat)
    requires Decoded(ll, s, p) == Some(sym)
    ensures sym < 256 ==> NextItem(ll, dd, s, p) == Emit(Literal(sym), p + ll[sym])
    ensures sym == 256 ==> NextItem(ll, dd, s, p) == EndOfBlock(p + ll[sym])
    ensures sym > 285 ==> NextItem(ll, dd, s, p) == Malformed
  {
    hide Decoded;
  }

  /** The other symbols start a match: the length `len` and `e` extra bits, then the distance `dist` and `f`. */
  lemma CopyMeaning(ll: seq<nat>, dd: seq<nat>, s: Stream, p: nat, sym: nat, e: nat, len: nat, d: nat, f: nat, dist: nat)
    requires Decoded(ll, s, p) == Some(sym) && 257 <= sym <= 285 && Decoded(dd, s, p + ll[sym] + e) == Some(d)
    requires e == if 265 <= sym < 285 then (sym - 261) / 4 else 0
    requires len == if sym < 265 then sym - 254 else if sym == 285 then 258 else 3 + (4 + (sym - 261) % 4) * Pow2(e)
    requires f == if d < 4 then 0 else d / 2 - 1
    requires dist == if d < 4 then d + 1 else 1 + (2 + d % 2) * Pow2(f)
    ensures var after := p + ll[sym] + e;
            NextItem(ll, dd, s, p) ==
            if d <= 29 then Emit(Copy(len + LsbVal(s, p + ll[sym], e), dist + LsbVal(s, after + dd[d], f)), after + dd[d] + f)
            else Malformed
  {
    hide Decoded, Pow2, LengthBase, LengthExtra, DistBase, DistExtra, LsbVal;
    LengthTable(sym);
    if d <= 29 { DistanceTable(d); }
  }

  /** What an item does to the output: a byte is added, or the bytes from `dist` back are repeated; reaching back
      beyond the first byte is an error. */
  lemma ItemEffect(out: seq<byte>, b: byte, len: nat, dist: nat)
    ensures Perform(out, Literal(b)) == Some(out + [b])
    ensures Perform(out, Copy(len, dist)).Some? <==> 1 <= dist <= |out|
    ensures 1 <= dist <= |out| ==>
              var o := Perform(out, Copy(len, dist)).value;
              |o| == |out| + len && out <= o && forall k: nat :: k < len ==> o[|out| + k] == out[|out| - dist + k % dist]
  {
    if 1 <= dist <= |out| {
      forall k: nat | k < len
        ensures CopyFrom(out, dist, len)[|out| + k] == out[|out| - dist + k % dist]
      {
        CopyIsPeriodic(out, dist, len, k);
      }
    }
  }

  // ---------- section 3.2.2: canonical codes ----------

  /** Codes of one length follow each other in the order of their symbols, and shorter codes come before longer
      ones: the next length starts after twice the last code. */
  lemma CanonicalOrder(lens: seq<nat>, a: nat, b: nat)
    requires LengthsOk(lens) && a < |lens| && b < |lens| && lens[a] > 0 && lens[b] > 0
    ensures lens[a] == lens[b] && a < b ==> Code(lens, a) < Code(lens, b)
    ensures lens[a] == lens[b] && a < b && (forall c :: a < c < b ==> lens[c] != lens[a]) ==>
              Code(lens, b) == Code(lens, a) + 1
    ensures (lens[a] + 1 == lens[b] && (forall c :: a < c < |lens| ==> lens[c] != lens[a])
             && (forall c :: 0 <= c < b ==> lens[c] != lens[b])) ==>
              Code(lens, b) == 2 * (Code(lens, a) + 1)
  {
    if lens[a] == lens[b] && a < b {
      RankInjective(lens, a, b);
      if forall c :: a < c < b ==> lens[c] != lens[a] { CountBetween(lens, a + 1, b, lens[a]); }
    }
    if lens[a] + 1 == lens[b] && (forall c :: a < c < |lens| ==> lens[c] != lens[a])
       && (forall c :: 0 <= c < b ==> lens[c] != lens[b]) {
      CountBetween(lens, a + 1, |lens|, lens[a]);
      CountBetween(lens, 0, b, lens[b]);
    }
  }

  lemma {:induction false} CountBetween(lens: seq<nat>, m: nat, n: nat, len: nat)
    requires m <= n <= |lens| && forall c :: m <= c < n ==> lens[c] != len
    ensures Count(lens, n, len) == Count(lens, m, len)
  {
    if m < n { CountBetween(lens, m, n - 1, len); }
  }

  /** The example of section 3.2.2: the lengths 3, 3, 3, 3, 3, 2, 4, 4. */
  lemma StandardExample()
    ensures var lens := [3, 3, 3, 3, 3, 2, 4, 4];
            && Code(lens, 0) == 2 && Code(lens, 1) == 3 && Code(lens, 2) == 4 && Code(lens, 3) == 5 && Code(lens, 4) == 6
            && Code(lens, 5) == 0 && Code(lens, 6) == 14 && Code(lens, 7) == 15
  {
    var lens: seq<nat> := [3, 3, 3, 3, 3, 2, 4, 4];
    CountBetween(lens, 0, 8, 1);
    CountBetween(lens, 0, 5, 2);
    CountBetween(lens, 6, 8, 2);
    FirstThrees(lens, 5);
    CountBetween(lens, 5, 8, 3);
    CountBetween(lens, 0, 6, 4);
  }

  lemma {:induction false} FirstThrees(lens: seq<nat>, n: nat)
    requires n <= 5 && lens == [3, 3, 3, 3, 3, 2, 4, 4]
    ensures forall k: nat :: k <= n ==> Count(lens, k, 3) == k
  {
    if n > 0 { FirstThrees(lens, n - 1); }
  }

  // ---------- section 3.2.6: the fixed codes ----------

  lemma {:induction false} FixedCounts(n: nat)
    requires n <= 288
    ensures var lens := FixedLiterals();
            && |lens| == 288 && Count(lens, n, 7) == (if n <= 256 then 0 else if n <= 280 then n - 256 else 24)
            && Count(lens, n, 8) == (if n <= 144 then n else if n <= 280 then 144 else n - 136)
            && Count(lens, n, 9) == (if n <= 144 then 0 else if n <= 256 then n - 144 else 112)
    ensures forall len :: 1 <= len <= 6 ==> Count(FixedLiterals(), n, len) == 0
    decreases n
  {
    if n > 0 { FixedCounts(n - 1); }
  }

  lemma FixedFirsts()
    ensures var lens := FixedLiterals(); First(lens, 7) == 0 && First(lens, 8) == 48 && First(lens, 9) == 400
  {
    var lens := FixedLiterals();
    FixedCounts(288);
    assert First(lens, 2) == 0;
    assert First(lens, 4) == 0;
    assert First(lens, 6) == 0;
  }

  /** The code words of the fixed literal/length code. */
  lemma FixedWords(sym: nat)
    requires sym < 288
    ensures var lens := FixedLiterals();
            && |lens| == 288
            && (sym < 144 ==> lens[sym] == 8 && Code(lens, sym) == 0x30 + sym)
            && (144 <= sym < 256 ==> lens[sym] == 9 && Code(lens, sym) == 0x190 + (sym - 144))
            && (256 <= sym < 280 ==> lens[sym] == 7 && Code(lens, sym) == sym - 256)
            && (280 <= sym ==> lens[sym] == 8 && Code(lens, sym) == 0xC0 + (sym - 280))
  {
    hide First;
    FixedCounts(sym);
    FixedFirsts();
  }

  lemma {:induction false} FiveBits(n: nat)
    requires n <= 32
    ensures |FixedDistances()| == 32 && Count(FixedDistances(), n, 5) == n
    ensures forall len :: 1 <= len <= 4 ==> Count(FixedDistances(), n, len) == 0
    decreases n
  {
    if n > 0 { FiveBits(n - 1); }
  }

  /** Distance symbols are written as five-bit numbers. */
  lemma FixedDistanceWords(d: nat)
    requires d < 32
    ensures |FixedDistances()| == 32 && FixedDistances()[d] == 5 && Code(FixedDistances(), d) == d
  {
    FiveBits(d);
    FiveBits(32);
    assert First(FixedDistances(), 3) == 0;
    assert First(FixedDistances(), 5) == 0;
  }

  // ---------- section 3.2.3: block headers ----------

  /** The header of a block: a bit that marks the last one, then its kind, the low bit first. */
  lemma LastBlock(s: Stream, p: nat, block: Block, q: nat)
    requires s(p)
    requires !s(p + 1) && !s(p + 2) ==> block.Stored? && StoredAt(s, p + 3, block.bytes, q)
    requires s(p + 1) && !s(p + 2) ==>
               block.Compressed? && Body(FixedLiterals(), FixedDistances(), s, p + 3, block.items, q)
    requires !s(p + 1) && s(p + 2) ==>
               var c := DynamicCodes(s, p + 3);
               block.Compressed? && c.Codes? && Body(c.literals, c.distances, s, c.next, block.items, q)
    ensures StreamAt(s, p, [block], [q]) <==> !(s(p + 1) && s(p + 2))
  {
    hide Body, DynamicCodes, StoredAt, FixedLiterals, FixedDistances;
    HeaderValue(s, p);
  }

  lemma HeaderValue(s: Stream, p: nat)
    ensures LsbVal(s, p, 1) == Num(s(p)) && LsbVal(s, p + 1, 2) == Num(s(p + 1)) + 2 * Num(s(p + 2))
  {
    assert LsbVal(s, p + 2, 1) == Num(s(p + 2));
  }

  /** A block that is not the last one is followed by the rest of the stream. */
  lemma EarlierBlock(s: Stream, p: nat, block: Block, q: nat, rest: seq<Block>, ends: seq<nat>)
    requires !s(p) && BlockAt(s, LsbVal(s, p + 1, 2), p + 3, block, q) && StreamAt(s, q, rest, ends)
    ensures StreamAt(s, p, [block] + rest, [q] + ends)
  {
    hide BlockAt, LsbVal;
    HeaderValue(s, p);
    assert ([block] + rest)[1..] == rest && ([q] + ends)[1..] == ends;
  }

  /** Section 2.2 of RFC 1950: method 8, no preset dictionary, and a check value. */
  lemma ZlibHeaderIff(cmf: byte, flg: byte, rest: seq<byte>)
    ensures ZlibHeader([cmf, flg] + rest, 0) <==>
            rest != [] && (256 * cmf + flg) % 31 == 0 && cmf % 16 == 8 && (flg / 32) % 2 == 0
    ensures FirstBit(true) == 16 && FirstBit(false) == 0
  {
  }

  // ---------- one stream, byte by byte ----------

  /** The raw stream that compressors write for the letter a. */
  lemma LetterA(tail: seq<byte>)
    requires |tail| >= 2
    ensures StandsForWithMargin([0x4B, 0x04, 0x00] + tail, 0, [97])
  {
    hide StandsForWithMargin, FixedStream, Pack;
    var items: seq<Item> := [Literal(97)];
    var none: seq<byte> := [];
    assert none + [97] == [97];
    ApplyOne([], Literal(97));
    LetterBits();
    LetterPacked();
    EncodedStandsFor(items, tail, [97]);
  }

  function LetterStream(): seq<bool>
  {
    [true, true, false] + [true, false, false, true, false, false, false, true] + [false, false, false, false, false, false, false]
  }

  /** A fixed block: 0x91 in eight bits and zero in seven, both high bit first. */
  lemma LetterBits()
    ensures FixedStream([Literal(97)]) == LetterStream()
  {
    hide Code, FixedLiterals, FixedDistances;
    var items: seq<Item> := [Literal(97)];
    FixedSays(items);
    FixedWords(97);
    FixedWords(256);
    EightBits();
    SevenZeros();
    assert items[1..] == [];
    assert BodyBits(FixedLiterals(), FixedDistances(), items[1..]) == SymbolBits(FixedLiterals(), 256);
  }

  lemma EightBits()
    ensures CodeBits(0x91, 8) == [true, false, false, true, false, false, false, true]
  {
    assert CodeBits(4, 3) == [true, false, false];
    assert CodeBits(9, 4) == [true, false, false, true];
    assert CodeBits(36, 6) == [true, false, false, true, false, false];
    assert CodeBits(72, 7) == [true, false, false, true, false, false, false];
  }

  lemma SevenZeros()
    ensures CodeBits(0, 7) == [false, false, false, false, false, false, false]
  {
    assert CodeBits(0, 2) == [false, false];
    assert CodeBits(0, 4) == [false, false, false, false];
    assert CodeBits(0, 6) == [false, false, false, false, false, false];
  }

  lemma LetterPacked()
    ensures Pack(LetterStream()) == [0x4B, 0x04, 0x00]
  {
    hide ByteValue;
    var bits := LetterStream();
    var first, second, third := [true, true, false, true, false, false, true, false],
                                [false, false, true, false, false, false, false, false], [false, false];
    assert bits[..8] == first && bits[8..][..8] == second && bits[8..][8..] == third;
    EightValue(true, true, false, true, false, false, true, false);
    EightValue(false, false, true, false, false, false, false, false);
    assert Pack(third) == [PackByte(third)];
    TwoValue();
  }

  lemma TwoValue()
    ensures ByteValue([false, false]) == 0
  {
    assert [false, false][1..] == [false];
    assert ByteValue([false]) == 0;
  }
}
