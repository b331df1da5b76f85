/** The encoder's blocks with dynamic codes: the code lengths are sent in front of the block as
    section 3.2.7 of RFC 1951 describes, and come back together with the items. */
module DynamicTrip {
  import opened BitPacking
  import opened Bits
  import opened Huffman
  import opened Deflate
  import opened Inflate
  import opened Output
  import opened RoundTrip
  import opened Wrappers

  // ---------- operations on the list of code lengths ----------

  /** A code length code: three bits for each length. */
  ghost predicate LengthCode(cl: seq<nat>)
  {
    |cl| == 19 && Kraft(cl) && forall v :: 0 <= v < 19 ==> cl[v] <= 7
  }

  /** A word and the extra bits after it. */
  lemma WordAndExtra(cl: seq<nat>, s: Stream, p: nat, sym: nat, v: nat, n: nat)
    requires LengthCode(cl) && sym < 19 && cl[sym] > 0 && v < Pow2(n)
    requires BitsAt(s, p, SymbolBits(cl, sym) + NumberBits(v, n))
    ensures Decoded(cl, s, p) == Some(sym) && LsbVal(s, p + cl[sym], n) == v
  {
    hide BitsAt, SymbolBits, NumberBits, Decoded, LsbVal, Kraft;
    SymbolBitsLength(cl, sym);
    BitsAtConcat(s, p, SymbolBits(cl, sym), NumberBits(v, n));
    SymbolRead(cl, s, p, sym);
    NumberBitsRead(s, p + cl[sym], v, n);
  }

  /** A symbol below 16 adds that length. */
  lemma LengthAdded(cl: seq<nat>, s: Stream, p: nat, done: seq<nat>, len: nat, total: nat)
    requires LengthCode(cl) && len < 16 && cl[len] > 0 && |done| < total
    requires BitsAt(s, p, SymbolBits(cl, len))
    ensures ReadLengths(cl, s, p, done, total) == ReadLengths(cl, s, p + cl[len], done + [len], total)
  {
    hide BitsAt, SymbolBits, Decoded, Kraft, ReadLengths;
    SymbolRead(cl, s, p, len);
    ReadLengthsStep(cl, s, p, done, total);
  }

  /** Symbol 16 and two bits add three to six times the last length; without one there is no list, nor if
      they are more than the list has room for. */
  lemma LastRepeated(cl: seq<nat>, s: Stream, p: nat, done: seq<nat>, count: nat, total: nat)
    requires LengthCode(cl) && cl[16] > 0 && 3 <= count <= 6 && |done| < total
    requires BitsAt(s, p, SymbolBits(cl, 16) + NumberBits(count - 3, 2))
    ensures done != [] && |done| + count <= total ==>
              ReadLengths(cl, s, p, done, total) ==
              ReadLengths(cl, s, p + cl[16] + 2, done + seq(count, _ => done[|done| - 1]), total)
    ensures done == [] || |done| + count > total ==> ReadLengths(cl, s, p, done, total) == NoLengths
  {
    hide BitsAt, SymbolBits, NumberBits, Decoded, LsbVal, LengthCode, ReadLengths;
    SymbolsIn(cl);
    Pow2Values();
    WordAndExtra(cl, s, p, 16, count - 3, 2);
    ReadLengthsStep(cl, s, p, done, total);
    if done != [] { RunIs(done[|done| - 1], count); }
  }

  /** Symbol 17 and three bits add three to ten zeros, if the list has room for them. */
  lemma FewZerosAdded(cl: seq<nat>, s: Stream, p: nat, done: seq<nat>, count: nat, total: nat)
    requires LengthCode(cl) && cl[17] > 0 && 3 <= count <= 10 && |done| < total
    requires BitsAt(s, p, SymbolBits(cl, 17) + NumberBits(count - 3, 3))
    ensures |done| + count <= total ==>
              ReadLengths(cl, s, p, done, total) == ReadLengths(cl, s, p + cl[17] + 3, done + seq(count, _ => 0), total)
    ensures |done| + count > total ==> ReadLengths(cl, s, p, done, total) == NoLengths
  {
    hide BitsAt, SymbolBits, NumberBits, Decoded, LsbVal, LengthCode, ReadLengths;
    SymbolsIn(cl);
    Pow2Values();
    WordAndExtra(cl, s, p, 17, count - 3, 3);
    ReadLengthsStep(cl, s, p, done, total);
    RunIs(0, count);
  }

  /** Symbol 18 and seven bits add eleven to 138 zeros, if the list has room for them. */
  lemma ManyZerosAdded(cl: seq<nat>, s: Stream, p: nat, done: seq<nat>, count: nat, total: nat)
    requires LengthCode(cl) && cl[18] > 0 && 11 <= count <= 138 && |done| < total
    requires BitsAt(s, p, SymbolBits(cl, 18) + NumberBits(count - 11, 7))
    ensures |done| + count <= total ==>
              ReadLengths(cl, s, p, done, total) == ReadLengths(cl, s, p + cl[18] + 7, done + seq(count, _ => 0), total)
    ensures |done| + count > total ==> ReadLengths(cl, s, p, done, total) == NoLengths
  {
    hide BitsAt, SymbolBits, NumberBits, Decoded, LsbVal, LengthCode, ReadLengths;
    SymbolsIn(cl);
    Pow2Values();
    WordAndExtra(cl, s, p, 18, count - 11, 7);
    ReadLengthsStep(cl, s, p, done, total);
    RunIs(0, count);
  }

  lemma SymbolsIn(cl: seq<nat>)
    requires LengthCode(cl)
    ensures |cl| == 19
  {
  }

  lemma RunIs(len: nat, count: nat)
    ensures Fill(len, count) == seq(count, _ => len)
  {
  }

  // ---------- a list of code lengths, cut into operations ----------

  /** The operations, after `done`, give the lengths `rest`. */
  ghost predicate CutInto(done: seq<nat>, rest: seq<nat>, ops: seq<Op>)
    decreases |ops|
  {
    if ops == [] then rest == []
    else
      var n := Covers(ops[0]);
      && n <= |rest| && CutOne(done, rest[..n], ops[0])
      && CutInto(done + rest[..n], rest[n..], ops[1..])
  }

  function Covers(op: Op): nat
  {
    match op
    case Len(_) => 1
    case Repeat(count) => count
    case Zeros(count) => count
  }

  /** Every length of the part is the one that the operation stands for. */
  ghost predicate CutOne(done: seq<nat>, part: seq<nat>, op: Op)
  {
    match op
    case Len(len) => len < 16 && part == [len]
    case Repeat(count) => 3 <= count <= 6 && done != [] && part == seq(count, _ => done[|done| - 1])
    case Zeros(count) => 3 <= count <= 138 && part == seq(count, _ => 0)
  }

  function OpSymbol(op: Op): nat
  {
    match op
    case Len(len) => len
    case Repeat(_) => 16
    case Zeros(count) => if count <= 10 then 17 else 18
  }

  /** The code has words for the operations. */
  ghost predicate Words(cl: seq<nat>, ops: seq<Op>)
  {
    |cl| == 19 && forall i :: 0 <= i < |ops| ==> OpSymbol(ops[i]) < 19 && cl[OpSymbol(ops[i])] > 0
  }

  ghost function OpBits(cl: seq<nat>, op: Op): seq<bool>
    requires OpSymbol(op) < |cl|
  {
    SymbolBits(cl, OpSymbol(op)) +
    match op
    case Len(_) => []
    case Repeat(count) => NumberBits(if count >= 3 then count - 3 else 0, 2)
    case Zeros(count) =>
      if count <= 10 then NumberBits(if count >= 3 then count - 3 else 0, 3) else NumberBits(count - 11, 7)
  }

  ghost function OpsBits(cl: seq<nat>, ops: seq<Op>): seq<bool>
    requires Words(cl, ops)
    decreases |ops|
  {
    if ops == [] then [] else OpBits(cl, ops[0]) + OpsBits(cl, ops[1..])
  }

  lemma OpRead(cl: seq<nat>, s: Stream, p: nat, done: seq<nat>, part: seq<nat>, op: Op, total: nat)
    requires LengthCode(cl) && OpSymbol(op) < 19 && cl[OpSymbol(op)] > 0 && CutOne(done, part, op)
    requires |done| + |part| <= total && BitsAt(s, p, OpBits(cl, op))
    ensures ReadLengths(cl, s, p, done, total) == ReadLengths(cl, s, p + |OpBits(cl, op)|, done + part, total)
  {
    hide BitsAt, SymbolBits, NumberBits, LengthCode, ReadLengths;
    SymbolsIn(cl);
    SymbolBitsLength(cl, OpSymbol(op));
    match op
    case Len(len) =>
      assert SymbolBits(cl, len) + [] == SymbolBits(cl, len);
      LengthAdded(cl, s, p, done, len, total);
    case Repeat(count) => LastRepeated(cl, s, p, done, count, total);
    case Zeros(count) =>
      if count <= 10 { FewZerosAdded(cl, s, p, done, count, total); } else { ManyZerosAdded(cl, s, p, done, count, total); }
  }

  /** Lengths that are written by any operations complete the list that has been read before them. */
  lemma {:induction false} OpsRead(cl: seq<nat>, s: Stream, p: nat, done: seq<nat>, rest: seq<nat>, ops: seq<Op>)
    requires LengthCode(cl) && Words(cl, ops) && CutInto(done, rest, ops) && BitsAt(s, p, OpsBits(cl, ops))
    ensures ReadLengths(cl, s, p, done, |done| + |rest|) == LengthList(done + rest, p + |OpsBits(cl, ops)|)
    decreases |ops|
  {
    hide BitsAt, OpBits, ReadLengths, LengthCode, CutOne, OpSymbol;
    if ops == [] {
      assert done + rest == done;
      AllRead(cl, s, p, done);
    } else {
      var n := Covers(ops[0]);
      BitsAtConcat(s, p, OpBits(cl, ops[0]), OpsBits(cl, ops[1..]));
      OpRead(cl, s, p, done, rest[..n], ops[0], |done| + |rest|);
      OpsRead(cl, s, p + |OpBits(cl, ops[0])|, done + rest[..n], rest[n..], ops[1..]);
      assert (done + rest[..n]) + rest[n..] == done + rest;
    }
  }

  lemma AllRead(cl: seq<nat>, s: Stream, p: nat, done: seq<nat>)
    ensures ReadLengths(cl, s, p, done, |done|) == LengthList(done, p)
  {
  }

  // ---------- the header ----------

  /** How an encoder sends two codes: the code length code, how many of its lengths it sends, and the
      operations on the list. */
  datatype Header = Header(cl: seq<nat>, sent: nat, ops: seq<Op>)

  /** Prefix codes whose numbers of lengths fit into the header. */
  ghost predicate Sendable(ll: seq<nat>, dd: seq<nat>)
  {
    Kraft(ll) && Kraft(dd) && 257 <= |ll| <= 288 && 1 <= |dd| <= 32
  }

  /** Lengths that are not sent are zero, and the operations give the lengths of the two codes. */
  ghost predicate Announces(h: Header, ll: seq<nat>, dd: seq<nat>)
  {
    && LengthCode(h.cl) && 4 <= h.sent <= 19 && (forall v :: 0 <= v < 19 && ORDER_INDEX[v] >= h.sent ==> h.cl[v] == 0)
    && Words(h.cl, h.ops) && CutInto([], ll + dd, h.ops)
  }

  lemma AnnouncesIs(h: Header, ll: seq<nat>, dd: seq<nat>)
    requires Announces(h, ll, dd)
    ensures LengthCode(h.cl) && Kraft(h.cl) && |h.cl| == 19 && 4 <= h.sent <= 19 && Words(h.cl, h.ops)
    ensures CutInto([], ll + dd, h.ops)
  {
  }

  ghost function CountBits(hlit: nat, hdist: nat, sent: nat): (bits: seq<bool>)
    requires 257 <= hlit && 1 <= hdist && 4 <= sent
    ensures |bits| == 14
  {
    NumberBits(hlit - 257, 5) + (NumberBits(hdist - 1, 5) + NumberBits(sent - 4, 4))
  }

  lemma CountsRead(s: Stream, p: nat, hlit: nat, hdist: nat, sent: nat)
    requires 257 <= hlit <= 288 && 1 <= hdist <= 32 && 4 <= sent <= 19 && BitsAt(s, p, CountBits(hlit, hdist, sent))
    ensures LsbVal(s, p, 5) == hlit - 257 && LsbVal(s, p + 5, 5) == hdist - 1 && LsbVal(s, p + 10, 4) == sent - 4
  {
    hide BitsAt, NumberBits, LsbVal, Pow2;
    Pow2Values();
    var lit, dist, len := NumberBits(hlit - 257, 5), NumberBits(hdist - 1, 5), NumberBits(sent - 4, 4);
    BitsAtConcat(s, p, lit, dist + len);
    BitsAtConcat(s, p + 5, dist, len);
    NumberBitsRead(s, p, hlit - 257, 5);
    NumberBitsRead(s, p + 5, hdist - 1, 5);
    NumberBitsRead(s, p + 10, sent - 4, 4);
  }

  /** The lengths of the code length code from place `i` of the transmission order on. */
  ghost function SentBits(cl: seq<nat>, i: nat, sent: nat): (bits: seq<bool>)
    requires i <= sent <= 19 == |cl|
    ensures |bits| == 3 * (sent - i)
    decreases sent - i
  {
    if i == sent then [] else NumberBits(cl[OrderAt(i)], 3) + SentBits(cl, i + 1, sent)
  }

  lemma {:induction false} SentRead(cl: seq<nat>, s: Stream, p: nat, i: nat, j: nat, sent: nat)
    requires i <= j < sent <= 19 && LengthCode(cl) && |cl| == 19 && BitsAt(s, p, SentBits(cl, i, sent))
    ensures LsbVal(s, p + 3 * (j - i), 3) == cl[OrderAt(j)]
    decreases sent - i
  {
    hide BitsAt, NumberBits, OrderAt, LsbVal, Pow2, Kraft;
    Pow2Values();
    var bits := NumberBits(cl[OrderAt(i)], 3);
    BitsAtConcat(s, p, bits, SentBits(cl, i + 1, sent));
    if i == j {
      NumberBitsRead(s, p, cl[OrderAt(i)], 3);
    } else {
      SentRead(cl, s, p + 3, i + 1, j, sent);
      assert p + 3 + 3 * (j - (i + 1)) == p + 3 * (j - i);
    }
  }

  lemma LengthCodeRead(h: Header, ll: seq<nat>, dd: seq<nat>, s: Stream, p: nat)
    requires Announces(h, ll, dd) && |h.cl| == 19 && h.sent <= 19 && BitsAt(s, p, SentBits(h.cl, 0, h.sent))
    ensures CodeLengthLengths(s, p, h.sent) == h.cl
  {
    hide BitsAt, SentBits, LsbVal, LengthCode, Words, CutInto;
    forall v: nat | v < 19
      ensures CodeLengthLength(s, p, h.sent, v) == h.cl[v]
    {
      OrderInvertsIndex(v);
      if ORDER_INDEX[v] < h.sent { SentRead(h.cl, s, p, 0, ORDER_INDEX[v], h.sent); }
    }
  }

  ghost function CodesBits(h: Header, ll: seq<nat>, dd: seq<nat>): seq<bool>
    requires Sendable(ll, dd) && Announces(h, ll, dd)
  {
    CountBits(|ll|, |dd|, h.sent) + (SentBits(h.cl, 0, h.sent) + OpsBits(h.cl, h.ops))
  }

  /** Codes that are sent are the codes that are read; the header has their sizes and the lengths of the code
      length code where section 3.2.7 of RFC 1951 has them. */
  lemma CodesRead(h: Header, s: Stream, p: nat, ll: seq<nat>, dd: seq<nat>)
    requires Sendable(ll, dd) && Announces(h, ll, dd) && BitsAt(s, p, CodesBits(h, ll, dd))
    ensures DynamicCodes(s, p) == Codes(ll, dd, p + |CodesBits(h, ll, dd)|)
    ensures LsbVal(s, p, 5) == |ll| - 257 && LsbVal(s, p + 5, 5) == |dd| - 1 && LsbVal(s, p + 10, 4) == h.sent - 4
    ensures forall j: nat :: j < h.sent ==> LsbVal(s, p + 14 + 3 * j, 3) == h.cl[OrderAt(j)]
  {
    hide BitsAt, SentBits, OpsBits, LsbVal, CodeLengthLengths, Kraft, CodesFrom, CountBits, Announces, OrderAt, LengthCode,
      CutInto, Words;
    AnnouncesIs(h, ll, dd);
    var counts, sent, lens := CountBits(|ll|, |dd|, h.sent), SentBits(h.cl, 0, h.sent), OpsBits(h.cl, h.ops);
    BitsAtConcat(s, p, counts, sent + lens);
    BitsAtConcat(s, p + 14, sent, lens);
    CountsRead(s, p, |ll|, |dd|, h.sent);
    LengthCodeRead(h, ll, dd, s, p + 14);
    CodesFromRead(h, s, p + 14 + 3 * h.sent, ll, dd);
    forall j: nat | j < h.sent
      ensures LsbVal(s, p + 14 + 3 * j, 3) == h.cl[OrderAt(j)]
    {
      SentRead(h.cl, s, p + 14, 0, j, h.sent);
    }
  }

  lemma CodesFromRead(h: Header, s: Stream, p: nat, ll: seq<nat>, dd: seq<nat>)
    requires Kraft(ll) && Kraft(dd) && Announces(h, ll, dd) && Words(h.cl, h.ops) && BitsAt(s, p, OpsBits(h.cl, h.ops))
    ensures CodesFrom(h.cl, s, p, |ll|, |dd|) == Codes(ll, dd, p + |OpsBits(h.cl, h.ops)|)
  {
    hide BitsAt, OpsBits, ReadLengths, Kraft, LengthCode, CutInto, Words;
    OpsRead(h.cl, s, p, [], ll + dd, h.ops);
    assert [] + (ll + dd) == ll + dd;
    assert (ll + dd)[..|ll|] == ll && (ll + dd)[|ll|..] == dd;
  }

  // ---------- every two codes have a header ----------

  function FlatLength(sym: int): nat
  {
    if sym < 16 then 4 else 0
  }

  /** Four bits for each of the sixteen lengths and no code for the runs. */
  function FlatCode(): seq<nat>
  {
    seq(19, v => FlatLength(v))
  }

  lemma KraftSkip(lens: seq<nat>, n: nat)
    requires n < |lens| && LengthsOk(lens) && lens[n] == 0
    ensures KraftSum(lens, n + 1) == KraftSum(lens, n)
  {
  }

  lemma FlatCodeKraft()
    ensures LengthCode(FlatCode()) && |FlatCode()| == 19 && forall v :: 0 <= v < 16 ==> FlatCode()[v] == 4
  {
    hide KraftSum;
    var lens := FlatCode();
    Pow2Values();
    assert Pow2(11) == 2048;
    KraftNone(lens);
    KraftRun(lens, 0, 16, 4);
    KraftSkip(lens, 16);
    KraftSkip(lens, 17);
    KraftSkip(lens, 18);
  }

  ghost function Singly(lens: seq<nat>): seq<Op>
  {
    seq(|lens|, i requires 0 <= i < |lens| => Len(lens[i]))
  }

  lemma {:induction false} CutSingly(done: seq<nat>, lens: seq<nat>)
    requires LengthsOk(lens)
    ensures CutInto(done, lens, Singly(lens))
    decreases |lens|
  {
    if lens != [] {
      assert Singly(lens)[1..] == Singly(lens[1..]);
      assert lens[..1] == [lens[0]];
      CutSingly(done + lens[..1], lens[1..]);
    }
  }

  ghost function FlatHeader(ll: seq<nat>, dd: seq<nat>): Header
  {
    Header(FlatCode(), 19, Singly(ll + dd))
  }

  lemma FlatAnnounces(ll: seq<nat>, dd: seq<nat>)
    requires Sendable(ll, dd)
    ensures Announces(FlatHeader(ll, dd), ll, dd)
  {
    hide FlatCode, CutInto, LengthCode;
    FlatCodeKraft();
    CutSingly([], ll + dd);
    forall v | 0 <= v < 19
      ensures ORDER_INDEX[v] < 19
    {
      OrderInvertsIndex(v);
    }
  }

  // ---------- whole streams ----------

  /** One final block in the codes `ll` and `dd`, which are sent with it. */
  ghost function DynamicStream(h: Header, ll: seq<nat>, dd: seq<nat>, items: seq<Item>): seq<bool>
    requires Sendable(ll, dd) && Announces(h, ll, dd) && Says(ll, dd, items)
  {
    [true] + ([false, true] + (CodesBits(h, ll, dd) + BodyBits(ll, dd, items)))
  }

  lemma DynamicHeader(s: Stream)
    requires BitsAt(s, 0, [true]) && BitsAt(s, 1, [false, true])
    ensures LsbVal(s, 0, 1) == 1 && LsbVal(s, 1, 2) == 2
  {
    OneBit(s, 0, true);
    var i: nat := 0;
    assert s(1 + i) == [false, true][i];
    i := 1;
    assert s(1 + i) == [false, true][i];
    assert LsbVal(s, 2, 1) == 1;
  }

  lemma DynamicStreamAt(h: Header, s: Stream, ll: seq<nat>, dd: seq<nat>, items: seq<Item>)
    requires Sendable(ll, dd) && Announces(h, ll, dd) && Says(ll, dd, items)
    requires BitsAt(s, 0, DynamicStream(h, ll, dd, items))
    ensures StreamAt(s, 0, [Compressed(items)], [|DynamicStream(h, ll, dd, items)|])
    ensures HeadersOk(s, 0, [|DynamicStream(h, ll, dd, items)|]) <==> |ll| <= 286
  {
    hide Says, BitsAt, BodyBits, Body, CodesBits, DynamicCodes, LsbVal, Announces, OrderAt;
    var codes, body := CodesBits(h, ll, dd), BodyBits(ll, dd, items);
    BitsAtConcat(s, 0, [true], [false, true] + (codes + body));
    BitsAtConcat(s, 1, [false, true], codes + body);
    BitsAtConcat(s, 3, codes, body);
    CodesRead(h, s, 3, ll, dd);
    BodyRead(ll, dd, s, 3 + |codes|, items);
    DynamicHeader(s);
  }

  /** Any items, written with any codes that have words for them and are sent with the block by any header,
      with runs or without, are read back.  With 287 or 288 literal/length codes the stream has this meaning for the
      decoder but none by the letter of RFC 1951. */
  lemma DynamicStandsFor(h: Header, ll: seq<nat>, dd: seq<nat>, items: seq<Item>, tail: seq<byte>, out: seq<byte>)
    requires Sendable(ll, dd) && Announces(h, ll, dd) && Says(ll, dd, items)
    requires Apply([], items) == Some(out) && |tail| >= 2
    ensures var data := Pack(DynamicStream(h, ll, dd, items)) + tail;
            && StandsForWithMargin(data, 0, out)
            && (StandardMeaning(data, 0, out) <==> |ll| <= 286)
            && forall o: seq<byte> :: StandardMeaning(data, 0, o) ==> o == out
  {
    hide Sendable, Announces, Says, BitsAt, DynamicStream, StreamAt, Pack, StreamOf, Apply, StandsForWithMargin, StandardMeaning, HeadersOk;
    var bits := DynamicStream(h, ll, dd, items);
    var data := Pack(bits) + tail;
    PackRead(bits, tail);
    DynamicStreamAt(h, StreamOf(data), ll, dd, items);
    OneBlock(data, items, |bits|, out);
    OneHeader(data, items, |bits|, out);
  }

  /** Decompressing what the encoder wrote returns what it stood for, in any buffer it fits. */
  method DecodeDynamic(data: seq<byte>, ghost h: Header, ghost ll: seq<nat>, ghost dd: seq<nat>, ghost items: seq<Item>,
                       ghost tail: seq<byte>, ghost message: seq<byte>, olen: nat, exp: bool)
    returns (st: Status, out: seq<byte>)
    requires olen <= UINT_MAX && (exp ==> 1 <= olen) && Room(exp, olen, |message|)
    requires Sendable(ll, dd) && Announces(h, ll, dd) && Says(ll, dd, items)
    requires Apply([], items) == Some(message) && |tail| >= 2
    requires data == Pack(DynamicStream(h, ll, dd, items)) + tail
    ensures st == Done && out == message
  {
    hide Sendable, Announces, Says, DynamicStream, Pack, Apply, Room, StandsForWithMargin, StandardMeaning;
    DynamicStandsFor(h, ll, dd, items, tail, message);
    st, out := DoZlib(data, olen, exp, false);
  }

  /** A stream of one block has its meaning by the standard if the header of that block is the standard's. */
  lemma OneHeader(data: seq<byte>, items: seq<Item>, q: nat, out: seq<byte>)
    requires StreamAt(StreamOf(data), 0, [Compressed(items)], [q]) && StandsForWithMargin(data, 0, out)
    ensures StandardMeaning(data, 0, out) <==> HeadersOk(StreamOf(data), 0, [q])
    ensures forall o: seq<byte> :: StandardMeaning(data, 0, o) ==> o == out
  {
    hide StreamAt, StreamOf, Inflates, InflatesInTime, StandardMeaning, HeadersOk;
    var limit := InTimeStands(data, 0, out);
    StandardMeaningIff(data, 0, out);
    forall blocks: seq<Block>, ends: seq<nat> | StreamAt(StreamOf(data), 0, blocks, ends)
      ensures ends == [q]
    {
      StreamUnique(StreamOf(data), 0, blocks, ends, [Compressed(items)], [q]);
    }
  }

  /** The fixed lengths, sent with an empty block: 288 literal/length codes, two more than the
      standard has.  The decoder reads the block; by the letter of the standard it says nothing. */
  lemma TooManyLiterals(tail: seq<byte>)
    requires |tail| >= 2
    ensures Sendable(FixedLiterals(), FixedDistances()) && Says(FixedLiterals(), FixedDistances(), [])
    ensures |FixedLiterals()| == 288
    ensures Announces(FlatHeader(FixedLiterals(), FixedDistances()), FixedLiterals(), FixedDistances())
    ensures var data := Pack(DynamicStream(FlatHeader(FixedLiterals(), FixedDistances()), FixedLiterals(), FixedDistances(), [])) + tail;
            StandsForWithMargin(data, 0, []) && forall out: seq<byte> :: !StandardMeaning(data, 0, out)
  {
    hide DynamicStream, Pack, StandsForWithMargin, StandardMeaning, Says, Kraft, FixedLiterals, FixedDistances, Announces,
      FlatHeader;
    FixedSays([]);
    FixedLiteralsKraft();
    FixedDistancesKraft();
    FlatAnnounces(FixedLiterals(), FixedDistances());
    DynamicStandsFor(FlatHeader(FixedLiterals(), FixedDistances()), FixedLiterals(), FixedDistances(), [], tail, []);
  }
}
