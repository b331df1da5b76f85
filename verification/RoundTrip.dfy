/** An encoder as the other end of the decoder: whatever is written with canonical codes, packed
    into bytes and followed by two more bytes is read back. */
module RoundTrip {
  import opened BitPacking
  import opened Bits
  import opened Huffman
  import opened HuffmanTable
  import opened Deflate
  import opened Inflate
  import opened Output
  import opened Wrappers

  // ---------- symbols ----------

  ghost predicate Coded(lens: seq<nat>, syms: seq<nat>)
  {
    forall i :: 0 <= i < |syms| ==> syms[i] < |lens| && lens[syms[i]] > 0
  }

  ghost function SymbolBits(lens: seq<nat>, sym: nat): seq<bool>
    requires sym < |lens|
  {
    CodeBits(Code(lens, sym), lens[sym])
  }

  ghost function Encode(lens: seq<nat>, syms: seq<nat>): seq<bool>
    requires Coded(lens, syms)
    decreases |syms|
  {
    if syms == [] then [] else SymbolBits(lens, syms[0]) + Encode(lens, syms[1..])
  }

  lemma SymbolRead(lens: seq<nat>, s: Stream, p: nat, sym: nat)
    requires Kraft(lens) && sym < |lens| && lens[sym] > 0 && BitsAt(s, p, SymbolBits(lens, sym))
    ensures Decoded(lens, s, p) == Some(sym)
  {
    CodeFits(lens, sym);
    CodeBitsRead(s, p, Code(lens, sym), lens[sym]);
    DecodedIff(lens, s, p, sym);
  }

  /** From `p` to `q` repeated decoding yields `syms`. */
  ghost predicate Spells(lens: seq<nat>, s: Stream, p: nat, syms: seq<nat>, q: nat)
    decreases |syms|
  {
    if syms == [] then p == q
    else Decoded(lens, s, p) == Some(syms[0]) && Spells(lens, s, p + lens[syms[0]], syms[1..], q)
  }

  /** Written codes spell the symbols they were written for. */
  lemma {:induction false} EncodedSpells(lens: seq<nat>, s: Stream, p: nat, syms: seq<nat>)
    requires Kraft(lens) && Coded(lens, syms) && BitsAt(s, p, Encode(lens, syms))
    ensures Spells(lens, s, p, syms, p + |Encode(lens, syms)|)
    decreases |syms|
  {
    hide Kraft, SymbolBits, BitsAt;
    if syms != [] {
      var bits := SymbolBits(lens, syms[0]);
      BitsAtConcat(s, p, bits, Encode(lens, syms[1..]));
      SymbolRead(lens, s, p, syms[0]);
      SymbolBitsLength(lens, syms[0]);
      EncodedSpells(lens, s, p + lens[syms[0]], syms[1..]);
    }
  }

  lemma SymbolBitsLength(lens: seq<nat>, sym: nat)
    requires sym < |lens|
    ensures |SymbolBits(lens, sym)| == lens[sym]
  {
  }

  lemma {:induction false} SpellsForward(lens: seq<nat>, s: Stream, p: nat, syms: seq<nat>, q: nat)
    requires Spells(lens, s, p, syms, q)
    ensures p <= q
    decreases |syms|
  {
    if syms != [] { SpellsForward(lens, s, p + lens[syms[0]], syms[1..], q); }
  }

  /** Repeated decoding reads back any sequence of symbols whose last code ends two bytes before the
      end of the input, across every refill of the code buffer. */
  method ReadSymbols(a: ZBuf, z: ZHuffman, ghost expected: seq<nat>, ghost q: nat, n: nat) returns (syms: seq<int>)
    requires a.ReaderOk() && z.Ready() && n == |expected|
    requires Spells(z.lens, a.Input(), a.Pos(), expected, q) && q + 16 <= 8 * |a.zdata|
    modifies a`zbuffer, a`numBits, a`codeBuffer, a`fetched
    ensures a.ReaderOk() && a.Pos() == q
    ensures |syms| == n && forall i :: 0 <= i < n ==> syms[i] == expected[i]
  {
    hide LsbVal, StreamOf, CodeAt, TableOk, Decoded;
    syms := [];
    while |syms| < n
      invariant a.ReaderOk() && z.Ready() && |syms| <= n
      invariant forall i :: 0 <= i < |syms| ==> syms[i] == expected[i]
      invariant Spells(z.lens, a.Input(), a.Pos(), expected[|syms|..], q)
    {
      SpellsForward(z.lens, a.Input(), a.Pos(), expected[|syms|..], q);
      var sym := a.HuffmanDecode(z);
      syms := syms + [sym];
    }
  }

  // ---------- lengths and distances ----------

  lemma FirstBases()
    ensures LengthBase(FIRST_LENGTH) == 3 && DistBase(0) == 1
    ensures LengthBase(LAST_LENGTH) == 258 && DistBase(LAST_DIST) == 24577 && DistExtra(LAST_DIST) == 13
  {
  }

  predicate LengthReaches(sym: nat, len: nat)
  {
    FIRST_LENGTH <= sym <= LAST_LENGTH && LengthBase(sym) <= len
  }

  predicate DistReaches(sym: nat, dist: nat)
  {
    sym <= LAST_DIST && DistBase(sym) <= dist
  }

  lemma FirstReaches(n: nat)
    ensures n >= 3 ==> LengthReaches(FIRST_LENGTH, n)
    ensures n >= 1 ==> DistReaches(0, n)
  {
    FirstBases();
  }

  /** The symbol of a match length: the last one whose base does not exceed it. */
  function LengthSymbol(len: nat, sym: nat): (r: nat)
    requires FIRST_LENGTH <= sym <= LAST_LENGTH && len >= 3
    ensures FIRST_LENGTH <= r <= sym && LengthReaches(r, len) && (r < sym ==> !LengthReaches(r + 1, len))
  {
    hide LengthReaches;
    FirstReaches(len);
    if LengthReaches(sym, len) then sym else LengthSymbol(len, sym - 1)
  }

  function DistSymbol(dist: nat, sym: nat): (r: nat)
    requires sym <= LAST_DIST && dist >= 1
    ensures r <= sym && DistReaches(r, dist) && (r < sym ==> !DistReaches(r + 1, dist))
  {
    hide DistReaches;
    FirstReaches(dist);
    if DistReaches(sym, dist) then sym else DistSymbol(dist, sym - 1)
  }

  /** The ranges of consecutive length symbols leave no gap. */
  lemma LengthRanges(sym: nat)
    requires FIRST_LENGTH <= sym < LAST_LENGTH
    ensures LengthBase(sym + 1) <= LengthBase(sym) + Pow2(LengthExtra(sym))
  {
    Pow2Values();
  }

  lemma DistRanges(sym: nat)
    requires sym < LAST_DIST
    ensures DistBase(sym + 1) <= DistBase(sym) + Pow2(DistExtra(sym))
  {
    hide Pow2;
    Pow2Values();
    MorePow2();
  }

  lemma MorePow2()
    ensures Pow2(10) == 1024 && Pow2(11) == 2048 && Pow2(12) == 4096 && Pow2(13) == 8192
  {
    assert Pow2(9) == 512;
  }

  /** What the extra bits of a length and of a distance have to say fits into them. */
  lemma LengthExtraFits(len: nat)
    requires 3 <= len <= 258
    ensures len - LengthBase(LengthSymbol(len, LAST_LENGTH)) < Pow2(LengthExtra(LengthSymbol(len, LAST_LENGTH)))
  {
    hide LengthBase, LengthExtra, Pow2;
    FirstBases();
    var sym := LengthSymbol(len, LAST_LENGTH);
    if sym < LAST_LENGTH { LengthRanges(sym); }
  }

  lemma DistExtraFits(dist: nat)
    requires 1 <= dist <= 32768
    ensures dist - DistBase(DistSymbol(dist, LAST_DIST)) < Pow2(DistExtra(DistSymbol(dist, LAST_DIST)))
  {
    hide DistBase, DistExtra, Pow2;
    FirstBases();
    MorePow2();
    var sym := DistSymbol(dist, LAST_DIST);
    if sym < LAST_DIST { DistRanges(sym); }
  }

  // ---------- items ----------

  ghost predicate Encodable(item: Item)
  {
    match item
    case Literal(b) => true
    case Copy(len, dist) => 3 <= len <= 258 && 1 <= dist <= 32768
  }

  ghost predicate HasCode(lens: seq<nat>, sym: nat)
  {
    sym < |lens| && lens[sym] > 0
  }

  /** The two codes have code words for what the item needs. */
  ghost predicate Sayable(ll: seq<nat>, dd: seq<nat>, item: Item)
  {
    && Encodable(item)
    && match item
       case Literal(b) => HasCode(ll, b)
       case Copy(len, dist) => HasCode(ll, LengthSymbol(len, LAST_LENGTH)) && HasCode(dd, DistSymbol(dist, LAST_DIST))
  }

  /** Prefix codes in which these items and the end of the block can be said. */
  ghost predicate Says(ll: seq<nat>, dd: seq<nat>, items: seq<Item>)
  {
    Kraft(ll) && Kraft(dd) && HasCode(ll, END_OF_BLOCK) && forall i :: 0 <= i < |items| ==> Sayable(ll, dd, items[i])
  }

  lemma SaysRest(ll: seq<nat>, dd: seq<nat>, items: seq<Item>)
    requires Says(ll, dd, items) && items != []
    ensures Says(ll, dd, items[1..]) && Sayable(ll, dd, items[0]) && Kraft(ll) && Kraft(dd)
  {
    hide Kraft, HasCode, Sayable;
  }

  ghost function DistanceBits(dd: seq<nat>, dist: nat): seq<bool>
    requires 1 <= dist <= 32768 && HasCode(dd, DistSymbol(dist, LAST_DIST))
  {
    var d := DistSymbol(dist, LAST_DIST);
    SymbolBits(dd, d) + NumberBits(dist - DistBase(d), DistExtra(d))
  }

  ghost function CopyBits(ll: seq<nat>, dd: seq<nat>, len: nat, dist: nat): seq<bool>
    requires Sayable(ll, dd, Copy(len, dist))
  {
    var sym := LengthSymbol(len, LAST_LENGTH);
    SymbolBits(ll, sym) + (NumberBits(len - LengthBase(sym), LengthExtra(sym)) + DistanceBits(dd, dist))
  }

  ghost function ItemBits(ll: seq<nat>, dd: seq<nat>, item: Item): seq<bool>
    requires Sayable(ll, dd, item)
  {
    match item
    case Literal(b) => SymbolBits(ll, b)
    case Copy(len, dist) => CopyBits(ll, dd, len, dist)
  }

  /** All items, then the end of the block. */
  ghost function BodyBits(ll: seq<nat>, dd: seq<nat>, items: seq<Item>): seq<bool>
    requires Says(ll, dd, items)
    decreases |items|
  {
    if items == [] then SymbolBits(ll, END_OF_BLOCK)
    else
      SaysRest(ll, dd, items);
      ItemBits(ll, dd, items[0]) + BodyBits(ll, dd, items[1..])
  }

  lemma DistanceRead(dd: seq<nat>, s: Stream, p: nat, dist: nat)
    requires Kraft(dd) && 1 <= dist <= 32768 && HasCode(dd, DistSymbol(dist, LAST_DIST))
    requires BitsAt(s, p, DistanceBits(dd, dist))
    ensures NextDistance(dd, s, p) == Distance(dist, p + |DistanceBits(dd, dist)|)
  {
    hide DistBase, DistExtra, Pow2, Decoded, LsbVal, SymbolBits, Kraft, NumberBits, BitsAt;
    var d := DistSymbol(dist, LAST_DIST);
    var extra := NumberBits(dist - DistBase(d), DistExtra(d));
    BitsAtConcat(s, p, SymbolBits(dd, d), extra);
    SymbolBitsLength(dd, d);
    SymbolRead(dd, s, p, d);
    DistExtraFits(dist);
    NumberBitsRead(s, p + dd[d], dist - DistBase(d), DistExtra(d));
  }

  lemma CopyRead(ll: seq<nat>, dd: seq<nat>, s: Stream, p: nat, len: nat, dist: nat)
    requires Kraft(ll) && Kraft(dd) && Sayable(ll, dd, Copy(len, dist))
    requires BitsAt(s, p, CopyBits(ll, dd, len, dist))
    ensures NextItem(ll, dd, s, p) == Emit(Copy(len, dist), p + |CopyBits(ll, dd, len, dist)|)
  {
    hide LengthBase, LengthExtra, Pow2, Decoded, LsbVal, SymbolBits, Kraft, NumberBits, BitsAt, DistanceBits, NextDistance;
    var sym := LengthSymbol(len, LAST_LENGTH);
    var extra := NumberBits(len - LengthBase(sym), LengthExtra(sym));
    BitsAtConcat(s, p, SymbolBits(ll, sym), extra + DistanceBits(dd, dist));
    SymbolBitsLength(ll, sym);
    SymbolRead(ll, s, p, sym);
    BitsAtConcat(s, p + ll[sym], extra, DistanceBits(dd, dist));
    LengthExtraFits(len);
    NumberBitsRead(s, p + ll[sym], len - LengthBase(sym), LengthExtra(sym));
    DistanceRead(dd, s, p + ll[sym] + LengthExtra(sym), dist);
  }

  lemma ItemRead(ll: seq<nat>, dd: seq<nat>, s: Stream, p: nat, item: Item)
    requires Kraft(ll) && Kraft(dd) && Sayable(ll, dd, item) && BitsAt(s, p, ItemBits(ll, dd, item))
    ensures NextItem(ll, dd, s, p) == Emit(item, p + |ItemBits(ll, dd, item)|)
  {
    hide Decoded, SymbolBits, CopyBits, Kraft, BitsAt, NextCopy;
    match item
    case Literal(b) =>
      SymbolRead(ll, s, p, b);
      SymbolBitsLength(ll, b);
    case Copy(len, dist) => CopyRead(ll, dd, s, p, len, dist);
  }

  /** Written items are the body that is read at the same place. */
  lemma {:induction false} BodyRead(ll: seq<nat>, dd: seq<nat>, s: Stream, p: nat, items: seq<Item>)
    requires Says(ll, dd, items) && BitsAt(s, p, BodyBits(ll, dd, items))
    ensures Body(ll, dd, s, p, items, p + |BodyBits(ll, dd, items)|)
    decreases |items|
  {
    hide Says, Sayable, Kraft, BitsAt, ItemBits, NextItem, SymbolBits;
    if items == [] {
      EndRead(ll, dd, s, p, items);
    } else {
      SaysRest(ll, dd, items);
      var bits := ItemBits(ll, dd, items[0]);
      BitsAtConcat(s, p, bits, BodyBits(ll, dd, items[1..]));
      ItemRead(ll, dd, s, p, items[0]);
      BodyRead(ll, dd, s, p + |bits|, items[1..]);
    }
  }

  lemma EndRead(ll: seq<nat>, dd: seq<nat>, s: Stream, p: nat, items: seq<Item>)
    requires Says(ll, dd, items) && BitsAt(s, p, SymbolBits(ll, END_OF_BLOCK))
    ensures NextItem(ll, dd, s, p) == EndOfBlock(p + |SymbolBits(ll, END_OF_BLOCK)|)
  {
    hide Decoded, SymbolBits, Kraft, BitsAt, Sayable;
    SymbolRead(ll, s, p, END_OF_BLOCK);
    SymbolBitsLength(ll, END_OF_BLOCK);
  }

  lemma FixedHas(sym: nat)
    ensures sym < 288 ==> HasCode(FixedLiterals(), sym)
    ensures sym < 32 ==> HasCode(FixedDistances(), sym)
  {
  }

  lemma FixedSayable(item: Item)
    requires Encodable(item)
    ensures Sayable(FixedLiterals(), FixedDistances(), item)
  {
    hide FixedLiterals, FixedDistances, HasCode;
    match item
    case Literal(b) => FixedHas(b);
    case Copy(len, dist) =>
      FixedHas(LengthSymbol(len, LAST_LENGTH));
      FixedHas(DistSymbol(dist, LAST_DIST));
  }

  /** In the fixed codes everything can be said. */
  lemma FixedSays(items: seq<Item>)
    requires forall i :: 0 <= i < |items| ==> Encodable(items[i])
    ensures Says(FixedLiterals(), FixedDistances(), items)
  {
    hide Kraft, Sayable, Encodable, HasCode, FixedLiterals, FixedDistances;
    FixedLiteralsKraft();
    FixedDistancesKraft();
    FixedHas(END_OF_BLOCK);
    forall i | 0 <= i < |items|
      ensures Sayable(FixedLiterals(), FixedDistances(), items[i])
    {
      FixedSayable(items[i]);
    }
  }

  // ---------- whole streams ----------

  /** One final block in the fixed codes. */
  ghost function FixedStream(items: seq<Item>): seq<bool>
    requires forall i :: 0 <= i < |items| ==> Encodable(items[i])
  {
    FixedSays(items);
    [true] + ([true, false] + BodyBits(FixedLiterals(), FixedDistances(), items))
  }

  lemma FixedStreamAt(s: Stream, items: seq<Item>)
    requires forall i :: 0 <= i < |items| ==> Encodable(items[i])
    requires BitsAt(s, 0, FixedStream(items))
    ensures StreamAt(s, 0, [Compressed(items)], [|FixedStream(items)|])
  {
    hide Encodable, BitsAt, BodyBits, Body, Says, FixedLiterals, FixedDistances;
    FixedSays(items);
    var body := BodyBits(FixedLiterals(), FixedDistances(), items);
    BitsAtConcat(s, 0, [true], [true, false] + body);
    BitsAtConcat(s, 1, [true, false], body);
    BodyRead(FixedLiterals(), FixedDistances(), s, 3, items);
    HeaderBits(s);
  }

  lemma HeaderBits(s: Stream)
    requires BitsAt(s, 0, [true]) && BitsAt(s, 1, [true, false])
    ensures LsbVal(s, 0, 1) == 1 && LsbVal(s, 1, 2) == 1
  {
    OneBit(s, 0, true);
    var i: nat := 0;
    assert s(1 + i) == [true, false][i];
    i := 1;
    assert s(1 + i) == [true, false][i];
    assert LsbVal(s, 2, 1) == 0;
  }

  /** Any list of literals and matches, written with the fixed codes and packed into bytes with at
      least two bytes after it, is well formed and stands for the output of the items. */
  lemma EncodedStandsFor(items: seq<Item>, tail: seq<byte>, out: seq<byte>)
    requires forall i :: 0 <= i < |items| ==> Encodable(items[i])
    requires Apply([], items) == Some(out) && |tail| >= 2
    ensures StandsForWithMargin(Pack(FixedStream(items)) + tail, 0, out)
  {
    hide Encodable, BitsAt, FixedStream, StreamAt, Pack, StreamOf, Apply, StandsForWithMargin;
    var bits := FixedStream(items);
    var data := Pack(bits) + tail;
    PackRead(bits, tail);
    FixedStreamAt(StreamOf(data), items);
    OneBlock(data, items, |bits|, out);
  }

  lemma OneBlock(data: seq<byte>, items: seq<Item>, q: nat, out: seq<byte>)
    requires StreamAt(StreamOf(data), 0, [Compressed(items)], [q]) && Apply([], items) == Some(out)
    requires q + 16 <= 8 * |data|
    ensures StandsForWithMargin(data, 0, out)
  {
    hide StreamAt, StreamOf, Apply;
    ApplyBlocksOne([], Compressed(items));
    var blocks, ends: seq<nat> := [Compressed(items)], [q];
    assert InflatesInTime(data, 0, out, blocks, ends);
  }

  /** Decompressing what the encoder wrote returns what it stood for, in any buffer it fits. */
  method DecodeEncoded(data: seq<byte>, ghost items: seq<Item>, ghost tail: seq<byte>, ghost message: seq<byte>, olen: nat,
                       exp: bool) returns (st: Status, out: seq<byte>)
    requires olen <= UINT_MAX && (exp ==> 1 <= olen) && Room(exp, olen, |message|)
    requires forall i :: 0 <= i < |items| ==> Encodable(items[i])
    requires Apply([], items) == Some(message) && |tail| >= 2
    requires data == Pack(FixedStream(items)) + tail
    ensures st == Done && out == message
  {
    hide Encodable, FixedStream, Pack, Apply, Room, StandsForWithMargin;
    EncodedStandsFor(items, tail, message);
    st, out := DoZlib(data, olen, exp, false);
  }

  // ---------- stored blocks ----------

  /** One final stored block: its kind, its length, the complement of that, the bytes. */
  function StoredStream(bytes: seq<byte>): (data: seq<byte>)
    requires |bytes| <= 0xFFFF
    ensures |data| == |bytes| + 5
  {
    [1, |bytes| % 256, |bytes| / 256, 255 - |bytes| % 256, 255 - |bytes| / 256] + bytes
  }

  lemma StoredKind(bytes: seq<byte>)
    requires |bytes| <= 0xFFFF
    ensures LsbVal(StreamOf(StoredStream(bytes)), 0, 1) == 1 && LsbVal(StreamOf(StoredStream(bytes)), 1, 2) == 0
  {
    hide LsbVal, StreamOf;
    var s := StreamOf(StoredStream(bytes));
    Pow2Values();
    ByteIsEightBits(StoredStream(bytes), 0);
    LsbTake(s, 0, 8, 1);
    LsbTake(s, 1, 7, 2);
  }

  lemma StoredLength(bytes: seq<byte>)
    requires |bytes| <= 0xFFFF
    ensures LsbVal(StreamOf(StoredStream(bytes)), 8, 16) == |bytes|
    ensures |bytes| + LsbVal(StreamOf(StoredStream(bytes)), 24, 16) == 0xFFFF
  {
    hide LsbVal, StreamOf;
    var data := StoredStream(bytes);
    ByteIsEightBits(data, 1);
    ByteIsEightBits(data, 2);
    ByteIsEightBits(data, 3);
    ByteIsEightBits(data, 4);
    TwoBytes(StreamOf(data), 8);
    TwoBytes(StreamOf(data), 24);
  }

  /** A stored block needs nothing behind it. */
  lemma StoredStandsFor(bytes: seq<byte>)
    requires |bytes| <= 0xFFFF
    ensures StoredStream(bytes) ==
            [1, |bytes| % 256, |bytes| / 256, 255 - |bytes| % 256, 255 - |bytes| / 256] + bytes
    ensures StandsForWithMargin(StoredStream(bytes), 0, bytes)
  {
    hide LsbVal, StreamOf;
    var data := StoredStream(bytes);
    var s, q := StreamOf(data), 8 * |data|;
    StoredKind(bytes);
    StoredLength(bytes);
    forall i | 0 <= i < |bytes|
      ensures bytes[i] == LsbVal(s, 40 + 8 * i, 8)
    {
      StoredByte(bytes, i);
    }
    assert StoredAt(s, 3, bytes, q);
    ApplyBlocksOne([], Stored(bytes));
    assert [] + bytes == bytes;
    var blocks, ends: seq<nat> := [Stored(bytes)], [q];
    assert InflatesInTime(data, 0, bytes, blocks, ends);
  }

  lemma StoredByte(bytes: seq<byte>, i: nat)
    requires |bytes| <= 0xFFFF && i < |bytes|
    ensures LsbVal(StreamOf(StoredStream(bytes)), 40 + 8 * i, 8) == bytes[i]
  {
    hide LsbVal, StreamOf;
    ByteIsEightBits(StoredStream(bytes), 5 + i);
  }
}
