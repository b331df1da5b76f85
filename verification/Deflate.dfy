/** The DEFLATE format as RFC 1951 describes it: what a bit stream says, independent of how it is read.
    Single codes, code length lists and items are read by functions; whole blocks and streams, which
    end only where their data says so, are relations between positions. */
module Deflate {
  import opened Bits
  import opened Huffman
  import opened Wrappers

  // ---------- section 3.2.5: lengths and distances ----------

  const LENGTH_BASE: seq<nat> := [
    3, 4, 5, 6, 7, 8, 9, 10, 11, 13, 15, 17, 19, 23, 27, 31,
    35, 43, 51, 59, 67, 83, 99, 115, 131, 163, 195, 227, 258, 0, 0]

  const LENGTH_EXTRA: seq<nat> := [
    0, 0, 0, 0, 0, 0, 0, 0, 1, 1, 1, 1, 2, 2, 2, 2, 3, 3, 3, 3, 4, 4, 4, 4, 5, 5, 5, 5, 0, 0, 0]

  const DIST_BASE: seq<nat> := [
    1, 2, 3, 4, 5, 7, 9, 13, 17, 25, 33, 49, 65, 97, 129, 193, 257, 385, 513, 769, 1025, 1537,
    2049, 3073, 4097, 6145, 8193, 12289, 16385, 24577, 0, 0]

  const DIST_EXTRA: seq<nat> := [
    0, 0, 0, 0, 1, 1, 2, 2, 3, 3, 4, 4, 5, 5, 6, 6, 7, 7, 8, 8, 9, 9, 10, 10, 11, 11, 12, 12, 13, 13, 0, 0]

  const END_OF_BLOCK: nat := 256
  const FIRST_LENGTH: nat := 257
  const LAST_LENGTH: nat := 285
  const LAST_DIST: nat := 29

  function LengthBase(sym: nat): (n: nat)
    requires FIRST_LENGTH <= sym <= LAST_LENGTH
    ensures 3 <= n <= 258
  {
    LENGTH_BASE[sym - FIRST_LENGTH]
  }

  function LengthExtra(sym: nat): (n: nat)
    requires FIRST_LENGTH <= sym <= LAST_LENGTH
    ensures n <= 5
  {
    LENGTH_EXTRA[sym - FIRST_LENGTH]
  }

  function DistBase(sym: nat): (n: nat)
    requires sym <= LAST_DIST
    ensures 1 <= n <= 24577
  {
    DIST_BASE[sym]
  }

  function DistExtra(sym: nat): (n: nat)
    requires sym <= LAST_DIST
    ensures n <= 13
  {
    DIST_EXTRA[sym]
  }

  datatype Item = Literal(b: byte) | Copy(len: nat, dist: nat)

  /** What stands at a position: an item, the end of the block, or nothing the format defines. */
  datatype Step = Emit(item: Item, next: nat) | EndOfBlock(next: nat) | Malformed

  ghost function NextItem(ll: seq<nat>, dd: seq<nat>, s: Stream, p: nat): Step
  {
    match Decoded(ll, s, p)
    case None => Malformed
    case Some(sym) =>
      if sym < END_OF_BLOCK then Emit(Literal(sym), p + ll[sym])
      else if sym == END_OF_BLOCK then EndOfBlock(p + ll[sym])
      else if sym <= LAST_LENGTH then NextCopy(dd, s, p + ll[sym], sym)
      else Malformed
  }

  /** The rest of a match after its length symbol: extra bits, then the distance. */
  ghost function NextCopy(dd: seq<nat>, s: Stream, p: nat, sym: nat): Step
    requires FIRST_LENGTH <= sym <= LAST_LENGTH
  {
    var bits := LengthExtra(sym);
    match NextDistance(dd, s, p + bits)
    case NoDistance => Malformed
    case Distance(dist, next) => Emit(Copy(LengthBase(sym) + LsbVal(s, p, bits), dist), next)
  }

  datatype DistanceStep = NoDistance | Distance(dist: nat, next: nat)

  /** A distance symbol and its extra bits. */
  ghost function NextDistance(dd: seq<nat>, s: Stream, p: nat): DistanceStep
  {
    match Decoded(dd, s, p)
    case None => NoDistance
    case Some(d) =>
      if d <= LAST_DIST then
        Distance(DistBase(d) + LsbVal(s, p + dd[d], DistExtra(d)), p + dd[d] + DistExtra(d))
      else NoDistance
  }

  // ---------- the body of a compressed block ----------

  /** From `p` to `q` the stream spells exactly `items`. */
  ghost predicate Items(ll: seq<nat>, dd: seq<nat>, s: Stream, p: nat, items: seq<Item>, q: nat)
    decreases |items|
  {
    if items == [] then p == q
    else
      var step := NextItem(ll, dd, s, p);
      step.Emit? && step.item == items[0] && Items(ll, dd, s, step.next, items[1..], q)
  }

  /** From `p` to `q` the stream spells `items` and then the end of the block. */
  ghost predicate Body(ll: seq<nat>, dd: seq<nat>, s: Stream, p: nat, items: seq<Item>, q: nat)
    decreases |items|
  {
    var step := NextItem(ll, dd, s, p);
    if items == [] then step == EndOfBlock(q)
    else step.Emit? && step.item == items[0] && Body(ll, dd, s, step.next, items[1..], q)
  }

  lemma {:induction false} ItemsSnoc(ll: seq<nat>, dd: seq<nat>, s: Stream, p: nat, items: seq<Item>, m: nat, item: Item, q: nat)
    requires Items(ll, dd, s, p, items, m) && NextItem(ll, dd, s, m) == Emit(item, q)
    ensures Items(ll, dd, s, p, items + [item], q)
    decreases |items|
  {
    if items == [] {
      assert Items(ll, dd, s, q, [], q);
      assert (items + [item])[1..] == [];
    } else {
      ItemsSnoc(ll, dd, s, NextItem(ll, dd, s, p).next, items[1..], m, item, q);
      assert (items + [item])[1..] == items[1..] + [item];
    }
  }

  lemma {:induction false} ItemsThenEnd(ll: seq<nat>, dd: seq<nat>, s: Stream, p: nat, items: seq<Item>, m: nat, q: nat)
    requires Items(ll, dd, s, p, items, m) && NextItem(ll, dd, s, m) == EndOfBlock(q)
    ensures Body(ll, dd, s, p, items, q)
    decreases |items|
  {
    if items != [] { ItemsThenEnd(ll, dd, s, NextItem(ll, dd, s, p).next, items[1..], m, q); }
  }

  /** Items read so far are a prefix of any complete body at the same position. */
  lemma {:induction false} BodyAfterItems(ll: seq<nat>, dd: seq<nat>, s: Stream, p: nat, done: seq<Item>, m: nat,
                                         items: seq<Item>, q: nat)
    requires Items(ll, dd, s, p, done, m) && Body(ll, dd, s, p, items, q)
    ensures done <= items && Body(ll, dd, s, m, items[|done|..], q)
    decreases |done|
  {
    if done == [] {
      assert items[|done|..] == items;
    } else {
      BodyAfterItems(ll, dd, s, NextItem(ll, dd, s, p).next, done[1..], m, items[1..], q);
      assert items[1..][|done[1..]|..] == items[|done|..];
    }
  }

  /** A position determines its body and where that ends. */
  lemma {:induction false} BodyUnique(ll: seq<nat>, dd: seq<nat>, s: Stream, p: nat,
                                     items: seq<Item>, q: nat, items': seq<Item>, q': nat)
    requires Body(ll, dd, s, p, items, q) && Body(ll, dd, s, p, items', q')
    ensures items == items' && q == q'
    decreases |items|
  {
    if items != [] {
      BodyUnique(ll, dd, s, NextItem(ll, dd, s, p).next, items[1..], q, items'[1..], q');
      SameHeadAndTail(items, items');
    }
  }

  lemma DistanceForward(dd: seq<nat>, s: Stream, p: nat)
    ensures NextDistance(dd, s, p).Distance? ==> p < NextDistance(dd, s, p).next
    ensures NextDistance(dd, s, p).Distance? ==> 1 <= NextDistance(dd, s, p).dist
  {
  }

  lemma StepForward(ll: seq<nat>, dd: seq<nat>, s: Stream, p: nat)
    ensures !NextItem(ll, dd, s, p).Malformed? ==> p < NextItem(ll, dd, s, p).next
  {
  }

  lemma {:induction false} BodyForward(ll: seq<nat>, dd: seq<nat>, s: Stream, p: nat, items: seq<Item>, q: nat)
    requires Body(ll, dd, s, p, items, q)
    ensures !NextItem(ll, dd, s, p).Malformed? && p < NextItem(ll, dd, s, p).next <= q
    decreases |items|
  {
    StepForward(ll, dd, s, p);
    if items != [] { BodyForward(ll, dd, s, NextItem(ll, dd, s, p).next, items[1..], q); }
  }

  // ---------- the bytes that items stand for ----------

  /** Copying byte by byte from `dist` back; a copy may run into the bytes it has just produced. */
  ghost function CopyFrom(out: seq<byte>, dist: nat, len: nat): (r: seq<byte>)
    requires 1 <= dist <= |out|
    ensures |r| == |out| + len && out <= r
  {
    if len == 0 then out else
      var before := CopyFrom(out, dist, len - 1);
      before + [before[|before| - dist]]
  }

  /** Where byte `k` of a copy comes from, counted from the first of the last `dist` bytes. */
  ghost function Source(dist: nat, k: nat): nat
    requires dist > 0
  {
    if k < dist then k else Source(dist, k - dist)
  }

  lemma {:induction false} SourceIsRemainder(dist: nat, k: nat)
    requires dist > 0
    ensures Source(dist, k) == k % dist
    decreases k
  {
    if k < dist {
      DivModUnique(k, dist, 0, k);
    } else {
      SourceIsRemainder(dist, k - dist);
      SameRemainder(k, dist);
    }
  }

  lemma {:induction false} CopiedFrom(out: seq<byte>, dist: nat, len: nat, k: nat)
    requires 1 <= dist <= |out| && k < len
    ensures Source(dist, k) < dist && CopyFrom(out, dist, len)[|out| + k] == out[|out| - dist + Source(dist, k)]
    decreases len
  {
    var before := CopyFrom(out, dist, len - 1);
    if k < len - 1 {
      CopiedFrom(out, dist, len - 1, k);
    } else if k >= dist {
      CopiedFrom(out, dist, len - 1, k - dist);
    }
  }

  /** A copy appends the periodic extension of the last `dist` bytes. */
  lemma CopyIsPeriodic(out: seq<byte>, dist: nat, len: nat, k: nat)
    requires 1 <= dist <= |out| && k < len
    ensures CopyFrom(out, dist, len)[|out| + k] == out[|out| - dist + k % dist]
  {
    CopiedFrom(out, dist, len, k);
    SourceIsRemainder(dist, k);
  }

  lemma SameRemainder(k: nat, m: nat)
    requires 1 <= m <= k
    ensures (k - m) % m == k % m
  {
    var q, r := (k - m) / m, (k - m) % m;
    Distribute(m, q, 1);
    DivModUnique(k, m, q + 1, r);
  }

  /** The output after one item, or None if a match reaches back beyond the start. */
  ghost function Perform(out: seq<byte>, item: Item): Option<seq<byte>>
  {
    match item
    case Literal(b) => Some(out + [b])
    case Copy(len, dist) => if 1 <= dist <= |out| then Some(CopyFrom(out, dist, len)) else None
  }

  ghost function Apply(out: seq<byte>, items: seq<Item>): Option<seq<byte>>
    decreases |items|
  {
    if items == [] then Some(out)
    else match Perform(out, items[0])
      case None => None
      case Some(o) => Apply(o, items[1..])
  }

  lemma {:induction false} ApplyConcat(out: seq<byte>, a: seq<Item>, b: seq<Item>)
    ensures Apply(out, a).None? ==> Apply(out, a + b).None?
    ensures Apply(out, a).Some? ==> Apply(out, a + b) == Apply(Apply(out, a).value, b)
    decreases |a|
  {
    if a == [] {
      assert a + b == b;
    } else {
      assert (a + b)[1..] == a[1..] + b;
      if Perform(out, a[0]).Some? { ApplyConcat(Perform(out, a[0]).value, a[1..], b); }
    }
  }

  lemma ApplyOne(out: seq<byte>, item: Item)
    ensures Apply(out, [item]) == Perform(out, item)
  {
    assert [item][1..] == [];
  }

  lemma {:induction false} ApplyGrows(out: seq<byte>, items: seq<Item>)
    ensures Apply(out, items).Some? ==> out <= Apply(out, items).value
    decreases |items|
  {
    if items != [] && Perform(out, items[0]).Some? {
      ApplyGrows(Perform(out, items[0]).value, items[1..]);
    }
  }

  /** What is left of a complete body, and of its output, after the items read so far. */
  lemma RestOfBody(ll: seq<nat>, dd: seq<nat>, s: Stream, p: nat, done: seq<Item>, m: nat, items: seq<Item>, q: nat,
                   out: seq<byte>)
    requires Items(ll, dd, s, p, done, m) && Body(ll, dd, s, p, items, q) && Apply(out, done).Some?
    ensures done <= items && Body(ll, dd, s, m, items[|done|..], q)
    ensures Apply(out, items) == Apply(Apply(out, done).value, items[|done|..])
  {
    BodyAfterItems(ll, dd, s, p, done, m, items, q);
    assert items == done + items[|done|..];
    ApplyConcat(out, done, items[|done|..]);
  }

  // ---------- section 3.2.6: the fixed codes ----------

  function FixedLiteralLength(sym: int): nat
  {
    if sym <= 143 then 8 else if sym <= 255 then 9 else if sym <= 279 then 7 else 8
  }

  function FixedLiterals(): seq<nat>
  {
    seq(288, i => FixedLiteralLength(i))
  }

  function FixedDistances(): seq<nat>
  {
    seq(32, i => 5)
  }

  // ---------- section 3.2.7: dynamic codes ----------

  /** The order in which the lengths of the code length code are sent. */
  const ORDER: seq<nat> := [16, 17, 18, 0, 8, 7, 9, 6, 10, 5, 11, 4, 12, 3, 13, 2, 14, 1, 15]

  /** Where in that order each symbol comes. */
  const ORDER_INDEX: seq<nat> := [3, 17, 15, 13, 11, 9, 7, 5, 4, 6, 8, 10, 12, 14, 16, 18, 0, 1, 2]

  datatype Op = Len(len: nat) | Repeat(count: nat) | Zeros(count: nat)

  datatype OpStep = NoOp | OpStep(op: Op, next: nat)

  ghost function NextOp(cl: seq<nat>, s: Stream, p: nat): OpStep
  {
    match Decoded(cl, s, p)
    case None => NoOp
    case Some(sym) =>
      var p1 := p + cl[sym];
      if sym < 16 then OpStep(Len(sym), p1)
      else if sym == 16 then OpStep(Repeat(3 + LsbVal(s, p1, 2)), p1 + 2)
      else if sym == 17 then OpStep(Zeros(3 + LsbVal(s, p1, 3)), p1 + 3)
      else if sym == 18 then OpStep(Zeros(11 + LsbVal(s, p1, 7)), p1 + 7)
      else NoOp
  }

  ghost function Fill(len: nat, count: nat): seq<nat>
  {
    seq(count, i => len)
  }

  /** The list of lengths after one more operation; a repetition needs a length to repeat. */
  ghost function ApplyOp(lens: seq<nat>, op: Op): Option<seq<nat>>
  {
    match op
    case Len(len) => Some(lens + [len])
    case Repeat(count) => if lens == [] then None else Some(lens + Fill(lens[|lens| - 1], count))
    case Zeros(count) => Some(lens + Fill(0, count))
  }

  datatype LengthList = NoLengths | LengthList(lens: seq<nat>, next: nat)

  /** Completes the list `lens` to exactly `total` lengths. */
  ghost function ReadLengths(cl: seq<nat>, s: Stream, p: nat, lens: seq<nat>, total: nat): LengthList
    decreases total - |lens|
  {
    if |lens| >= total then LengthList(lens, p)
    else match NextOp(cl, s, p)
      case NoOp => NoLengths
      case OpStep(op, next) =>
        match ApplyOp(lens, op)
        case None => NoLengths
        case Some(lens') =>
          if |lens| < |lens'| <= total then ReadLengths(cl, s, next, lens', total) else NoLengths
  }

  /** One operation of the list, carried out or found impossible. */
  lemma ReadLengthsStep(cl: seq<nat>, s: Stream, p: nat, lens: seq<nat>, total: nat)
    requires |lens| < total
    ensures var step := NextOp(cl, s, p);
            if step.OpStep? && ApplyOp(lens, step.op).Some? && |lens| < |ApplyOp(lens, step.op).value| <= total
            then ReadLengths(cl, s, p, lens, total) ==
                 ReadLengths(cl, s, step.next, ApplyOp(lens, step.op).value, total)
            else ReadLengths(cl, s, p, lens, total) == NoLengths
  {
  }

  lemma {:induction false} ReadLengthsForward(cl: seq<nat>, s: Stream, p: nat, lens: seq<nat>, total: nat)
    ensures ReadLengths(cl, s, p, lens, total).LengthList? ==> p <= ReadLengths(cl, s, p, lens, total).next
    decreases total - |lens|
  {
    if |lens| < total && NextOp(cl, s, p).OpStep? {
      var lens' := ApplyOp(lens, NextOp(cl, s, p).op);
      if lens'.Some? && |lens| < |lens'.value| <= total {
        ReadLengthsForward(cl, s, NextOp(cl, s, p).next, lens'.value, total);
      }
    }
  }

  /** The length sent for symbol `v` of the code length code; zero if the list stops before it. */
  ghost function CodeLengthLength(s: Stream, p: nat, count: nat, v: int): nat
  {
    if 0 <= v < 19 && ORDER_INDEX[v] < count then LsbVal(s, p + 3 * ORDER_INDEX[v], 3) else 0
  }

  /** The lengths of the code length code, three bits each; those not sent are zero. */
  ghost function CodeLengthLengths(s: Stream, p: nat, count: nat): seq<nat>
  {
    seq(19, v => CodeLengthLength(s, p, count, v))
  }

  lemma OrderIndexInverts(i: nat)
    requires i < 19
    ensures ORDER[i] < 19 && ORDER_INDEX[ORDER[i]] == i
  {
  }

  lemma OrderInvertsIndex(v: nat)
    requires v < 19
    ensures ORDER_INDEX[v] < 19 && ORDER[ORDER_INDEX[v]] == v
  {
  }

  function OrderAt(i: nat): (v: nat)
    requires i < 19
    ensures v < 19
  {
    OrderIndexInverts(i);
    ORDER[i]
  }

  lemma NoneSent(s: Stream, p: nat)
    ensures CodeLengthLengths(s, p, 0) == seq(19, _ => 0)
  {
  }

  /** Sending one more length sets the entry that comes next in the transmission order. */
  lemma OneMoreLength(s: Stream, p: nat, i: nat)
    requires i < 19
    ensures CodeLengthLengths(s, p, i + 1) == CodeLengthLengths(s, p, i)[OrderAt(i) := LsbVal(s, p + 3 * i, 3)]
  {
    OrderIndexInverts(i);
    forall v: nat | v < 19 && v != ORDER[i]
      ensures ORDER_INDEX[v] != i
    {
      OrderInvertsIndex(v);
    }
  }

  lemma CodeLengthsSmall(s: Stream, p: nat, count: nat)
    ensures LengthsOk(CodeLengthLengths(s, p, count))
  {
    forall v | 0 <= v < 19
      ensures CodeLengthLength(s, p, count, v) <= 7
    {
      if ORDER_INDEX[v] < count { LsbBound(s, p + 3 * ORDER_INDEX[v], 3); }
    }
  }

  datatype Codes = NoCodes | Codes(literals: seq<nat>, distances: seq<nat>, next: nat)

  ghost function DynamicCodes(s: Stream, p: nat): Codes
  {
    var hlit := 257 + LsbVal(s, p, 5);
    var hdist := 1 + LsbVal(s, p + 5, 5);
    var hclen := 4 + LsbVal(s, p + 10, 4);
    var cl := CodeLengthLengths(s, p + 14, hclen);
    if Kraft(cl) then CodesFrom(cl, s, p + 14 + 3 * hclen, hlit, hdist) else NoCodes
  }

  /** The two codes whose lengths are sent, as one list, in the code length code `cl`. */
  ghost function CodesFrom(cl: seq<nat>, s: Stream, p: nat, hlit: nat, hdist: nat): Codes
  {
    match ReadLengths(cl, s, p, [], hlit + hdist)
    case NoLengths => NoCodes
    case LengthList(lens, next) =>
      if |lens| == hlit + hdist && Kraft(lens[..hlit]) && Kraft(lens[hlit..])
      then Codes(lens[..hlit], lens[hlit..], next) else NoCodes
  }

  lemma HeaderBounds(s: Stream, p: nat)
    ensures LsbVal(s, p, 5) < 32 && LsbVal(s, p + 5, 5) < 32 && LsbVal(s, p + 10, 4) < 16
  {
    LsbBound(s, p, 5);
    LsbBound(s, p + 5, 5);
    LsbBound(s, p + 10, 4);
  }

  lemma LengthsOkSlice(lens: seq<nat>, n: nat)
    requires LengthsOk(lens) && n <= |lens|
    ensures LengthsOk(lens[..n]) && LengthsOk(lens[n..])
  {
  }

  // ---------- section 3.2.3: blocks and streams ----------

  datatype Block = Stored(bytes: seq<byte>) | Compressed(items: seq<Item>)

  /** The first byte boundary at or after `p`. */
  function AlignUp(p: nat): (a: nat)
    ensures a % 8 == 0 && p <= a < p + 8
  {
    8 * ((p + 7) / 8)
  }

  ghost predicate StoredAt(s: Stream, p: nat, bytes: seq<byte>, q: nat)
  {
    StoredFrom(s, AlignUp(p), bytes, q)
  }

  /** A stored block from its byte boundary on: its length, the complement of that, its bytes. */
  ghost predicate StoredFrom(s: Stream, start: nat, bytes: seq<byte>, q: nat)
  {
    && |bytes| == LsbVal(s, start, 16)
    && |bytes| + LsbVal(s, start + 16, 16) == 0xFFFF
    && (forall i :: 0 <= i < |bytes| ==> bytes[i] == LsbVal(s, start + 32 + 8 * i, 8))
    && q == start + 32 + 8 * |bytes|
  }

  /** From `p`, just after the three header bits, to `q` the stream holds a block of this kind. */
  ghost predicate BlockAt(s: Stream, kind: nat, p: nat, block: Block, q: nat)
  {
    match kind
    case 0 => block.Stored? && StoredAt(s, p, block.bytes, q)
    case 1 => block.Compressed? && Body(FixedLiterals(), FixedDistances(), s, p, block.items, q)
    case 2 =>
      block.Compressed? && DynamicCodes(s, p).Codes? &&
      Body(DynamicCodes(s, p).literals, DynamicCodes(s, p).distances, s, DynamicCodes(s, p).next, block.items, q)
    case _ => false
  }

  /** From `p` on the stream holds these blocks, ending at these positions; the last and only the
      last is marked final. */
  ghost predicate StreamAt(s: Stream, p: nat, blocks: seq<Block>, ends: seq<nat>)
    decreases |blocks|
  {
    && |blocks| == |ends| > 0
    && BlockAt(s, LsbVal(s, p + 1, 2), p + 3, blocks[0], ends[0])
    && LsbVal(s, p, 1) == (if |blocks| == 1 then 1 else 0)
    && (|blocks| > 1 ==> StreamAt(s, ends[0], blocks[1..], ends[1..]))
  }

  // ---------- the limit on literal/length codes ----------

  /** Section 3.2.7 of RFC 1951 has at most 286 literal/length codes; the code takes up to 288. */
  ghost predicate StandardHeader(s: Stream, p: nat)
  {
    LsbVal(s, p, 5) <= 29
  }

  ghost predicate StandardBlockAt(s: Stream, kind: nat, p: nat, block: Block, q: nat)
  {
    BlockAt(s, kind, p, block, q) && (kind == 2 ==> StandardHeader(s, p))
  }

  /** A stream as RFC 1951 has it. */
  ghost predicate StandardStreamAt(s: Stream, p: nat, blocks: seq<Block>, ends: seq<nat>)
    decreases |blocks|
  {
    && |blocks| == |ends| > 0
    && StandardBlockAt(s, LsbVal(s, p + 1, 2), p + 3, blocks[0], ends[0])
    && LsbVal(s, p, 1) == (if |blocks| == 1 then 1 else 0)
    && (|blocks| > 1 ==> StandardStreamAt(s, ends[0], blocks[1..], ends[1..]))
  }

  /** The headers of the dynamic blocks, the first at `p` and the others where blocks end, keep to the limit. */
  ghost predicate HeadersOk(s: Stream, p: nat, ends: seq<nat>)
    decreases |ends|
  {
    && (LsbVal(s, p + 1, 2) == 2 ==> StandardHeader(s, p + 3))
    && (|ends| > 1 ==> HeadersOk(s, ends[0], ends[1..]))
  }

  /** What is read is what the standard says exactly if every dynamic header keeps to the limit. */
  lemma {:induction false} StandardIff(s: Stream, p: nat, blocks: seq<Block>, ends: seq<nat>)
    ensures StandardStreamAt(s, p, blocks, ends) <==> StreamAt(s, p, blocks, ends) && HeadersOk(s, p, ends)
    decreases |blocks|
  {
    hide BlockAt, StandardHeader, LsbVal;
    if |blocks| == |ends| > 1 { StandardIff(s, ends[0], blocks[1..], ends[1..]); }
  }

  ghost function ApplyBlock(out: seq<byte>, block: Block): Option<seq<byte>>
  {
    match block
    case Stored(bytes) => Some(out + bytes)
    case Compressed(items) => Apply(out, items)
  }

  ghost function ApplyBlocks(out: seq<byte>, blocks: seq<Block>): Option<seq<byte>>
    decreases |blocks|
  {
    if blocks == [] then Some(out)
    else match ApplyBlock(out, blocks[0])
      case None => None
      case Some(o) => ApplyBlocks(o, blocks[1..])
  }

  lemma StoredUnique(s: Stream, p: nat, bytes: seq<byte>, q: nat, bytes': seq<byte>, q': nat)
    requires StoredAt(s, p, bytes, q) && StoredAt(s, p, bytes', q')
    ensures bytes == bytes' && q == q'
  {
  }

  lemma BlockUnique(s: Stream, kind: nat, p: nat, block: Block, q: nat, block': Block, q': nat)
    requires BlockAt(s, kind, p, block, q) && BlockAt(s, kind, p, block', q')
    ensures block == block' && q == q'
  {
    match kind
    case 0 => StoredUnique(s, p, block.bytes, q, block'.bytes, q');
    case 1 => BodyUnique(FixedLiterals(), FixedDistances(), s, p, block.items, q, block'.items, q');
    case _ =>
      var c := DynamicCodes(s, p);
      BodyUnique(c.literals, c.distances, s, c.next, block.items, q, block'.items, q');
  }

  lemma SameHeadAndTail<T>(a: seq<T>, b: seq<T>)
    requires |a| > 0 && |b| > 0 && a[0] == b[0] && a[1..] == b[1..]
    ensures a == b
  {
    assert a == [a[0]] + a[1..] && b == [b[0]] + b[1..];
  }

  /** The bits alone determine the blocks, hence the bytes they stand for. */
  lemma {:induction false} StreamUnique(s: Stream, p: nat, blocks: seq<Block>, ends: seq<nat>,
                                       blocks': seq<Block>, ends': seq<nat>)
    requires StreamAt(s, p, blocks, ends) && StreamAt(s, p, blocks', ends')
    ensures blocks == blocks' && ends == ends'
    decreases |blocks|
  {
    BlockUnique(s, LsbVal(s, p + 1, 2), p + 3, blocks[0], ends[0], blocks'[0], ends'[0]);
    if |blocks| > 1 {
      StreamUnique(s, ends[0], blocks[1..], ends[1..], blocks'[1..], ends'[1..]);
    }
    SameHeadAndTail(blocks, blocks');
    SameHeadAndTail(ends, ends');
  }

  // ---------- the fixed codes are complete prefix codes ----------

  lemma {:induction false} KraftRun(lens: seq<nat>, a: nat, b: nat, len: nat)
    requires a <= b <= |lens| && LengthsOk(lens) && 1 <= len <= MAX_LENGTH
    requires forall i :: a <= i < b ==> lens[i] == len
    ensures KraftSum(lens, b) == KraftSum(lens, a) + Pow2(MAX_LENGTH - len) * (b - a)
  {
    hide Pow2;
    var unit := Pow2(MAX_LENGTH - len);
    if a < b {
      KraftRun(lens, a, b - 1, len);
      Distribute(unit, b - 1 - a, 1);
      assert (b - 1 - a) + 1 == b - a;
    }
  }

  lemma KraftNone(lens: seq<nat>)
    requires LengthsOk(lens)
    ensures KraftSum(lens, 0) == 0
  {
  }

  lemma FixedLiteralsKraft()
    ensures Kraft(FixedLiterals()) && LengthsOk(FixedLiterals()) && |FixedLiterals()| == 288
    ensures KraftSum(FixedLiterals(), 288) == Pow2(MAX_LENGTH)
  {
    hide Pow2, KraftSum;
    var lens := FixedLiterals();
    Pow2Values();
    KraftNone(lens);
    KraftRun(lens, 0, 144, 8);
    KraftRun(lens, 144, 256, 9);
    KraftRun(lens, 256, 280, 7);
    KraftRun(lens, 280, 288, 8);
  }

  lemma FixedDistancesKraft()
    ensures Kraft(FixedDistances()) && LengthsOk(FixedDistances()) && |FixedDistances()| == 32
    ensures KraftSum(FixedDistances(), 32) == Pow2(MAX_LENGTH)
  {
    hide KraftSum;
    var lens := FixedDistances();
    Pow2Values();
    assert Pow2(10) == 1024;
    KraftNone(lens);
    KraftRun(lens, 0, 32, 5);
  }

  // ---------- positions ----------

  lemma CodesForward(s: Stream, p: nat)
    ensures DynamicCodes(s, p).Codes? ==> p < DynamicCodes(s, p).next
  {
    hide LsbVal, Kraft, ReadLengths, CodeLengthLengths;
    var hlit := 257 + LsbVal(s, p, 5);
    var hdist := 1 + LsbVal(s, p + 5, 5);
    var hclen := 4 + LsbVal(s, p + 10, 4);
    var cl := CodeLengthLengths(s, p + 14, hclen);
    ReadLengthsForward(cl, s, p + 14 + 3 * hclen, [], hlit + hdist);
  }

  lemma BlockForward(s: Stream, kind: nat, p: nat, block: Block, q: nat)
    requires BlockAt(s, kind, p, block, q)
    ensures p < q
  {
    match kind
    case 0 =>
    case 1 => BodyForward(FixedLiterals(), FixedDistances(), s, p, block.items, q);
    case _ =>
      CodesForward(s, p);
      var c := DynamicCodes(s, p);
      BodyForward(c.literals, c.distances, s, c.next, block.items, q);
  }

  /** Past the end of the input the zeros read as a stored block whose length check fails. */
  lemma NoBlockBeyondEnd(data: seq<byte>, p: nat, block: Block, q: nat)
    requires p >= 8 * |data|
    ensures !BlockAt(StreamOf(data), LsbVal(StreamOf(data), p + 1, 2), p + 3, block, q)
  {
    hide StreamOf, LsbVal, Body, DynamicCodes;
    ZeroTail(data, p + 1, 2);
    var start := AlignUp(p + 3);
    ZeroTail(data, start, 16);
    ZeroTail(data, start + 16, 16);
  }

  // ---------- the zlib wrapper (section 2.2 of RFC 1950) ----------

  /** Two header bytes that announce DEFLATE data without a preset dictionary, and a byte after them. */
  ghost predicate ZlibHeader(data: seq<byte>, i: nat)
  {
    && i + 2 < |data|
    && (data[i] as nat * 256 + data[i + 1] as nat) % 31 == 0
    && (data[i + 1] / 32) % 2 == 0
    && data[i] % 16 == 8
  }

  // ---------- prefixes of streams ----------

  /** From `p` to `m` the stream holds these blocks, none of them marked final. */
  ghost predicate PrefixAt(s: Stream, p: nat, blocks: seq<Block>, ends: seq<nat>, m: nat)
    decreases |blocks|
  {
    && |blocks| == |ends|
    && if blocks == [] then p == m
       else
         && BlockAt(s, LsbVal(s, p + 1, 2), p + 3, blocks[0], ends[0])
         && LsbVal(s, p, 1) == 0
         && PrefixAt(s, ends[0], blocks[1..], ends[1..], m)
  }

  lemma NoBlocksYet(s: Stream, p: nat, out: seq<byte>)
    ensures PrefixAt(s, p, [], [], p) && ApplyBlocks(out, []) == Some(out)
  {
  }

  lemma {:induction false} PrefixSnoc(s: Stream, p: nat, blocks: seq<Block>, ends: seq<nat>, m: nat, block: Block, q: nat)
    requires PrefixAt(s, p, blocks, ends, m)
    requires LsbVal(s, m, 1) == 0 && BlockAt(s, LsbVal(s, m + 1, 2), m + 3, block, q)
    ensures PrefixAt(s, p, blocks + [block], ends + [q], q)
    decreases |blocks|
  {
    hide LsbVal, BlockAt;
    if blocks == [] {
      assert PrefixAt(s, q, [], [], q);
      assert (blocks + [block])[1..] == [] && (ends + [q])[1..] == [];
    } else {
      PrefixSnoc(s, ends[0], blocks[1..], ends[1..], m, block, q);
      assert (blocks + [block])[1..] == blocks[1..] + [block];
      assert (ends + [q])[1..] == ends[1..] + [q];
    }
  }

  lemma {:induction false} PrefixThenLast(s: Stream, p: nat, blocks: seq<Block>, ends: seq<nat>, m: nat, block: Block, q: nat)
    requires PrefixAt(s, p, blocks, ends, m)
    requires LsbVal(s, m, 1) == 1 && BlockAt(s, LsbVal(s, m + 1, 2), m + 3, block, q)
    ensures StreamAt(s, p, blocks + [block], ends + [q])
    decreases |blocks|
  {
    hide LsbVal, BlockAt;
    if blocks != [] {
      PrefixThenLast(s, ends[0], blocks[1..], ends[1..], m, block, q);
      assert (blocks + [block])[1..] == blocks[1..] + [block];
      assert (ends + [q])[1..] == ends[1..] + [q];
    }
  }

  /** Blocks read so far are a proper prefix of any complete stream at the same position. */
  lemma {:induction false} StreamAfterPrefix(s: Stream, p: nat, done: seq<Block>, dends: seq<nat>, m: nat,
                                            blocks: seq<Block>, ends: seq<nat>)
    requires PrefixAt(s, p, done, dends, m) && StreamAt(s, p, blocks, ends)
    ensures done < blocks && |ends| == |blocks| && StreamAt(s, m, blocks[|done|..], ends[|done|..])
    decreases |done|
  {
    hide LsbVal, BlockAt;
    if done == [] {
      assert blocks[|done|..] == blocks && ends[|done|..] == ends;
    } else {
      BlockUnique(s, LsbVal(s, p + 1, 2), p + 3, done[0], dends[0], blocks[0], ends[0]);
      StreamAfterPrefix(s, dends[0], done[1..], dends[1..], m, blocks[1..], ends[1..]);
      assert blocks[1..][|done[1..]|..] == blocks[|done|..];
      assert ends[1..][|done[1..]|..] == ends[|done|..];
      assert done == [done[0]] + done[1..] && blocks == [blocks[0]] + blocks[1..];
    }
  }

  /** How many bits the code wants behind a block that ends the stream: none behind a stored one. */
  function Margin(block: Block): nat
  {
    if block.Stored? then 0 else 16
  }

  /** The stream ends early enough in an input of `size` bytes. */
  ghost predicate InTime(blocks: seq<Block>, ends: seq<nat>, size: nat)
  {
    |blocks| == |ends| > 0 && ends[|ends| - 1] + Margin(blocks[|blocks| - 1]) <= 8 * size
  }

  lemma StoredForward(s: Stream, p: nat, bytes: seq<byte>, q: nat)
    requires StoredAt(s, p, bytes, q)
    ensures p + 32 <= q
  {
  }

  lemma NextMargin(s: Stream, kind: nat, p: nat, first: Block, block: Block, q: nat)
    requires BlockAt(s, kind, p + 3, block, q)
    ensures p + Margin(first) <= q + Margin(block)
  {
    hide Body, DynamicCodes, LsbVal, StoredAt;
    if block.Stored? { StoredForward(s, p + 3, block.bytes, q); } else { BlockForward(s, kind, p + 3, block, q); }
  }

  /** Every block leaves room for what the last one needs behind it. */
  lemma {:induction false} FirstInTime(s: Stream, p: nat, blocks: seq<Block>, ends: seq<nat>)
    requires StreamAt(s, p, blocks, ends)
    ensures ends[0] + Margin(blocks[0]) <= ends[|ends| - 1] + Margin(blocks[|blocks| - 1])
    decreases |blocks|
  {
    hide LsbVal, BlockAt, Margin;
    if |blocks| > 1 {
      FirstInTime(s, ends[0], blocks[1..], ends[1..]);
      NextMargin(s, LsbVal(s, ends[0] + 1, 2), ends[0], blocks[0], blocks[1], ends[1]);
    }
  }

  lemma {:induction false} ApplyBlocksConcat(out: seq<byte>, a: seq<Block>, b: seq<Block>)
    ensures ApplyBlocks(out, a).None? ==> ApplyBlocks(out, a + b).None?
    ensures ApplyBlocks(out, a).Some? ==> ApplyBlocks(out, a + b) == ApplyBlocks(ApplyBlocks(out, a).value, b)
    decreases |a|
  {
    if a == [] {
      assert a + b == b;
    } else {
      assert (a + b)[1..] == a[1..] + b;
      if ApplyBlock(out, a[0]).Some? { ApplyBlocksConcat(ApplyBlock(out, a[0]).value, a[1..], b); }
    }
  }

  lemma ApplyBlocksOne(out: seq<byte>, block: Block)
    ensures ApplyBlocks(out, [block]) == ApplyBlock(out, block)
  {
    assert [block][1..] == [];
  }

  lemma ApplyBlockGrows(out: seq<byte>, block: Block)
    ensures ApplyBlock(out, block).Some? ==> out <= ApplyBlock(out, block).value
  {
    if block.Compressed? { ApplyGrows(out, block.items); }
  }

  lemma {:induction false} ApplyBlocksGrows(out: seq<byte>, blocks: seq<Block>)
    ensures ApplyBlocks(out, blocks).Some? ==> out <= ApplyBlocks(out, blocks).value
    decreases |blocks|
  {
    if blocks != [] {
      ApplyBlockGrows(out, blocks[0]);
      if ApplyBlock(out, blocks[0]).Some? { ApplyBlocksGrows(ApplyBlock(out, blocks[0]).value, blocks[1..]); }
    }
  }

  /** What is left of a complete stream, and of its output, after the blocks read so far. */
  lemma RestOfStream(s: Stream, p: nat, done: seq<Block>, dends: seq<nat>, m: nat, blocks: seq<Block>, ends: seq<nat>,
                     out: seq<byte>)
    returns (rest: seq<Block>, next: nat)
    requires PrefixAt(s, p, done, dends, m) && StreamAt(s, p, blocks, ends) && ApplyBlocks(out, done).Some?
    ensures rest != [] && BlockAt(s, LsbVal(s, m + 1, 2), m + 3, rest[0], next)
    ensures |blocks| == |ends| > 0 && next + Margin(rest[0]) <= ends[|ends| - 1] + Margin(blocks[|blocks| - 1])
    ensures ApplyBlocks(out, blocks) == ApplyBlocks(ApplyBlocks(out, done).value, rest)
  {
    hide LsbVal, BlockAt, ApplyBlocks, Margin;
    StreamAfterPrefix(s, p, done, dends, m, blocks, ends);
    rest := blocks[|done|..];
    next := ends[|done|];
    FirstInTime(s, m, rest, ends[|done|..]);
    assert blocks == done + rest;
    ApplyBlocksConcat(out, done, rest);
  }

  /** The output of a whole list of blocks is no shorter than that of its first block. */
  lemma FirstBlockOutput(out: seq<byte>, blocks: seq<Block>)
    requires blocks != [] && ApplyBlocks(out, blocks).Some?
    ensures ApplyBlock(out, blocks[0]).Some?
    ensures |ApplyBlock(out, blocks[0]).value| <= |ApplyBlocks(out, blocks).value|
  {
    ApplyBlocksGrows(ApplyBlock(out, blocks[0]).value, blocks[1..]);
  }
}
