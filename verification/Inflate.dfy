/** The zlib decoder state `stbi__zbuf` and the methods that read bits and symbols from it. */
module Inflate {
  import opened Bits
  import opened Reversal
  import opened Huffman
  import opened HuffmanTable
  import opened Deflate
  import opened Output
  import opened Wrappers

  /** How a decoding method ends.  `Undefined` marks a length or distance symbol to which RFC 1951
      gives no meaning. */
  datatype Status = Done | Corrupt | Undefined

  /** The step at hand is no part of any stream that ends two bytes before the end of the input. */
  ghost predicate CutOff(step: Step, size: nat)
  {
    step.Malformed? || 8 * size < step.next + 16
  }

  /** The block body at `p` is not one that a decoder starting from `out` should accept: there is no
      body, or it ends less than two bytes before the end of the input, or one of its matches
      reaches back too far, or its output does not fit. */
  ghost predicate NoGoodBody(ll: seq<nat>, dd: seq<nat>, s: Stream, p: nat, size: nat,
                             out: seq<byte>, expandable: bool, cap: nat)
  {
    forall items: seq<Item>, q: nat :: Body(ll, dd, s, p, items, q) && q + 16 <= 8 * size ==>
      Overflows(Apply(out, items), expandable, cap)
  }

  ghost predicate Overflows(result: Option<seq<byte>>, expandable: bool, cap: nat)
  {
    result.Some? ==> !Room(expandable, cap, |result.value|)
  }

  lemma CutOffBody(ll: seq<nat>, dd: seq<nat>, s: Stream, p: nat, size: nat, out: seq<byte>, expandable: bool, cap: nat,
                   done: seq<Item>, m: nat)
    requires Items(ll, dd, s, p, done, m) && Apply(out, done).Some?
    requires CutOff(NextItem(ll, dd, s, m), size)
    ensures NoGoodBody(ll, dd, s, p, size, out, expandable, cap)
  {
    forall items: seq<Item>, q: nat | Body(ll, dd, s, p, items, q) && q + 16 <= 8 * size
      ensures false
    {
      RestOfBody(ll, dd, s, p, done, m, items, q, out);
      BodyForward(ll, dd, s, m, items[|done|..], q);
    }
  }

  /** The item at hand cannot be carried out, so no body through it can. */
  lemma StuckBody(ll: seq<nat>, dd: seq<nat>, s: Stream, p: nat, size: nat, out: seq<byte>, expandable: bool, cap: nat,
                  done: seq<Item>, m: nat, item: Item, next: nat)
    requires Items(ll, dd, s, p, done, m) && Apply(out, done).Some?
    requires NextItem(ll, dd, s, m) == Emit(item, next)
    requires Overflows(Perform(Apply(out, done).value, item), expandable, cap)
    ensures NoGoodBody(ll, dd, s, p, size, out, expandable, cap)
  {
    forall items: seq<Item>, q: nat | Body(ll, dd, s, p, items, q) && q + 16 <= 8 * size
      ensures Overflows(Apply(out, items), expandable, cap)
    {
      RestOfBody(ll, dd, s, p, done, m, items, q, out);
      var rest := items[|done|..];
      var sofar := Apply(out, done).value;
      var one := Perform(sofar, item);
      if one.Some? && Apply(one.value, rest[1..]).Some? {
        ApplyGrows(one.value, rest[1..]);
        RoomForLess(expandable, cap, |Apply(one.value, rest[1..]).value|, |one.value|);
      }
    }
  }

  ghost predicate NoGoodBlock(s: Stream, kind: nat, p: nat, size: nat, out: seq<byte>, expandable: bool, cap: nat)
  {
    forall block: Block, q: nat :: BlockAt(s, kind, p, block, q) && q + Margin(block) <= 8 * size ==>
      Overflows(ApplyBlock(out, block), expandable, cap)
  }

  ghost predicate NoGoodStream(s: Stream, p: nat, size: nat, out: seq<byte>, expandable: bool, cap: nat)
  {
    forall blocks: seq<Block>, ends: seq<nat> ::
      StreamAt(s, p, blocks, ends) && InTime(blocks, ends, size) ==>
      Overflows(ApplyBlocks(out, blocks), expandable, cap)
  }

  lemma NoFixedBlock(s: Stream, p: nat, size: nat, out: seq<byte>, expandable: bool, cap: nat)
    requires NoGoodBody(FixedLiterals(), FixedDistances(), s, p, size, out, expandable, cap)
    ensures NoGoodBlock(s, 1, p, size, out, expandable, cap)
  {
    hide Body, Overflows, Apply, FixedLiterals, FixedDistances;
  }

  lemma NoDynamicBlock(s: Stream, p: nat, size: nat, out: seq<byte>, expandable: bool, cap: nat)
    requires var c := DynamicCodes(s, p);
             c.Codes? && c.next + 16 <= 8 * size ==>
             NoGoodBody(c.literals, c.distances, s, c.next, size, out, expandable, cap)
    ensures NoGoodBlock(s, 2, p, size, out, expandable, cap)
  {
    hide Body, Overflows, Apply, DynamicCodes;
    forall block: Block, q: nat | BlockAt(s, 2, p, block, q) && q + Margin(block) <= 8 * size
      ensures Overflows(ApplyBlock(out, block), expandable, cap)
    {
      var c := DynamicCodes(s, p);
      BodyForward(c.literals, c.distances, s, c.next, block.items, q);
    }
  }

  /** The block at hand cannot be decoded, so no stream through it can. */
  lemma StuckStream(s: Stream, p: nat, size: nat, out: seq<byte>, expandable: bool, cap: nat,
                    done: seq<Block>, ends0: seq<nat>, m: nat)
    requires PrefixAt(s, p, done, ends0, m) && ApplyBlocks(out, done).Some?
    requires NoGoodBlock(s, LsbVal(s, m + 1, 2), m + 3, size, ApplyBlocks(out, done).value, expandable, cap)
    ensures NoGoodStream(s, p, size, out, expandable, cap)
  {
    hide LsbVal, BlockAt, PrefixAt, StreamAt, ApplyBlocks, ApplyBlock, Room, Margin;
    forall blocks: seq<Block>, ends: seq<nat> | StreamAt(s, p, blocks, ends) && InTime(blocks, ends, size)
      ensures Overflows(ApplyBlocks(out, blocks), expandable, cap)
    {
      var rest, next := RestOfStream(s, p, done, ends0, m, blocks, ends, out);
      var sofar := ApplyBlocks(out, done).value;
      assert Overflows(ApplyBlock(sofar, rest[0]), expandable, cap);
      if ApplyBlocks(sofar, rest).Some? {
        FirstBlockOutput(sofar, rest);
        RoomForLess(expandable, cap, |ApplyBlocks(sofar, rest).value|, |ApplyBlock(sofar, rest[0]).value|);
      }
    }
  }

  lemma StoredBadHeader(s: Stream, p: nat, size: nat, out: seq<byte>, expandable: bool, cap: nat)
    requires LsbVal(s, AlignUp(p), 16) + LsbVal(s, AlignUp(p) + 16, 16) != 0xFFFF
    ensures NoGoodBlock(s, 0, p, size, out, expandable, cap)
  {
    hide LsbVal, AlignUp;
  }

  lemma StoredNoRoom(s: Stream, p: nat, size: nat, bytes: seq<byte>, out: seq<byte>, expandable: bool, cap: nat, q: nat)
    requires StoredAt(s, p, bytes, q) && !Room(expandable, cap, |out| + |bytes|)
    ensures NoGoodBlock(s, 0, p, size, out, expandable, cap)
  {
    hide LsbVal, AlignUp, StoredAt, Room;
    forall block: Block, q': nat | BlockAt(s, 0, p, block, q')
      ensures Overflows(ApplyBlock(out, block), expandable, cap)
    {
      StoredUnique(s, p, bytes, q, block.bytes, q');
    }
  }

  lemma OneLengthOk(lens: seq<nat>, len: nat)
    requires LengthsOk(lens) && len <= MAX_LENGTH
    ensures LengthsOk(lens + [len])
  {
  }

  /** A run of zeros, or of the last length, keeps lengths in range. */
  lemma RunOk(lens: seq<nat>, len: nat, count: nat)
    requires LengthsOk(lens) && (len == 0 || (lens != [] && len == lens[|lens| - 1]))
    ensures LengthsOk(lens + Fill(len, count)) && |Fill(len, count)| == count
  {
  }

  lemma TakeOneMore(a: array<byte>, n: nat, before: seq<byte>)
    requires n < a.Length && a[..n] == before
    ensures a[..n + 1] == before + [a[n]]
  {
  }

  class ZBuf {
    /** The compressed input; `zbuffer` is the index of the next byte to fetch. */
    const zdata: seq<byte>
    var zbuffer: nat
    var numBits: int
    var codeBuffer: nat
    /** Bytes fetched so far, counting the zero bytes delivered past the end of the input. */
    ghost var fetched: nat

    /** The output buffer from zout_start to zout_end; `zout` is the index of the next byte. */
    var buffer: array<byte>
    var zout: nat
    const expandable: bool

    const zLength: ZHuffman
    const zDistance: ZHuffman

    /** The whole input is still unread and the output buffer is empty. */
    constructor (data: seq<byte>, olen: nat, exp: bool)
      ensures zdata == data && zbuffer == 0 && numBits == 0 && codeBuffer == 0 && fetched == 0
      ensures fresh(buffer) && buffer.Length == olen && zout == 0 && expandable == exp
      ensures fresh(zLength.Repr()) && fresh(zDistance.Repr()) && Separate()
    {
      zdata, zbuffer, numBits, codeBuffer, fetched := data, 0, 0, 0, 0;
      buffer := new byte[olen];
      zout, expandable := 0, exp;
      zLength := new ZHuffman();
      zDistance := new ZHuffman();
      new;
    }

    // ---------- the reader ----------

    ghost function Input(): Stream
    {
      StreamOf(zdata)
    }

    /** The number of stream bits consumed. */
    ghost function Pos(): nat
      requires numBits <= 8 * fetched
      reads this`fetched, this`numBits
    {
      8 * fetched - numBits
    }

    /** The code buffer holds exactly the next `numBits` bits of the zero-extended input. */
    ghost predicate ReaderOk()
      reads this`zbuffer, this`numBits, this`codeBuffer, this`fetched
    {
      && 0 <= numBits <= 32 && numBits <= 8 * fetched
      && zbuffer == (if fetched <= |zdata| then fetched else |zdata|)
      && codeBuffer == LsbVal(Input(), Pos(), numBits)
    }

    /** The code buffer never outgrows its 32-bit word. */
    lemma CodeBufferFits()
      requires ReaderOk()
      ensures codeBuffer < Pow2(numBits) <= Pow2(32)
    {
      LsbBound(Input(), Pos(), numBits);
      Pow2Monotone(numBits, 32);
    }

    predicate Eof()
      reads this`zbuffer
    {
      zbuffer >= |zdata|
    }

    method Get8() returns (b: byte)
      requires zbuffer == (if fetched <= |zdata| then fetched else |zdata|)
      modifies this`zbuffer, this`fetched
      ensures b == ByteAt(zdata, old(fetched)) && fetched == old(fetched) + 1
      ensures zbuffer == (if fetched <= |zdata| then fetched else |zdata|)
    {
      fetched := fetched + 1;
      if Eof() {
        b := 0;
      } else {
        b := zdata[zbuffer];
        zbuffer := zbuffer + 1;
      }
    }

    /** Refills the code buffer to more than 24 bits; the exit for a broken buffer is never taken. */
    method FillBits()
      requires ReaderOk() && numBits <= 24
      modifies this`zbuffer, this`numBits, this`codeBuffer, this`fetched
      ensures ReaderOk() && 24 < numBits && Pos() == old(Pos())
    {
      FillByte();
      while numBits <= 24
        invariant ReaderOk() && Pos() == old(Pos())
        decreases 24 - numBits
      {
        FillByte();
      }
    }

    method FillByte()
      requires ReaderOk() && numBits <= 24
      modifies this`zbuffer, this`numBits, this`codeBuffer, this`fetched
      ensures ReaderOk() && Pos() == old(Pos()) && numBits == old(numBits) + 8
    {
      hide LsbVal, StreamOf, Pow2, Shl;
      CodeBufferFits();
      if codeBuffer >= Pow2(numBits) {
        assert false;
      }
      AppendByte(zdata, Pos(), numBits, fetched);
      ghost var p := Pos();
      var b := Get8();
      codeBuffer := codeBuffer + Shl(b, numBits);
      numBits := numBits + 8;
      assert Pos() == p;
    }

    /** Takes the next `n` bits, least significant first. */
    method Receive(n: nat) returns (k: nat)
      requires ReaderOk() && n <= 24
      modifies this`zbuffer, this`numBits, this`codeBuffer, this`fetched
      ensures ReaderOk() && numBits <= 32 - n
      ensures Pos() == old(Pos()) + n && k == LsbVal(Input(), old(Pos()), n)
    {
      if numBits < n { FillBits(); }
      k := codeBuffer % Pow2(n);
      Drop(n);
      LsbTake(Input(), old(Pos()), numBits + n, n);
    }

    /** Shifts `n` buffered bits out. */
    method Drop(n: nat)
      requires ReaderOk() && n <= numBits
      modifies this`numBits, this`codeBuffer
      ensures ReaderOk() && numBits == old(numBits) - n && Pos() == old(Pos()) + n
    {
      LsbTake(Input(), Pos(), numBits, n);
      ShrIsDivision(codeBuffer, n);
      codeBuffer := Shr(codeBuffer, n);
      numBits := numBits - n;
    }

    /** Finds a code of ten or more bits; the checks on the slot never fail. */
    method DecodeSlow(z: ZHuffman) returns (sym: int)
      requires ReaderOk() && numBits >= 16 && z.Ready()
      requires forall i: nat :: CodeAt(z.lens, Input(), Pos(), i) ==> z.lens[i] > FAST_BITS
      modifies this`numBits, this`codeBuffer
      ensures ReaderOk() && sym >= -1
      ensures sym >= 0 ==> CodeAt(z.lens, Input(), old(Pos()), sym) && Pos() == old(Pos()) + z.lens[sym]
      ensures sym == -1 ==> forall i: nat :: !CodeAt(z.lens, Input(), old(Pos()), i)
    {
      hide LsbVal, MsbVal, StreamOf, FastOk, LengthsTabled, SlotsOk, CodeAt, RangeEnd, Slot;
      var k := TopWindow();
      NotBelowShortRanges(z);
      var s := z.SlowLength(k);
      if s >= 16 {
        BeyondRanges(z.lens, Input(), Pos());
        return -1;
      }
      ghost var hit := SlowLookup(z.lens, Input(), Pos(), s);
      sym := z.SlowSymbol(k, s, hit);
      Drop(s);
    }

    /** The next sixteen bits with the first one on top, as codes are compared. */
    method TopWindow() returns (k: nat)
      requires ReaderOk() && numBits >= 16
      ensures k == MsbVal(Input(), Pos(), 16) < 0x10000
    {
      k := BitReverse(codeBuffer, 16);
      BitReverse16IsRev(codeBuffer);
      RevOfLsb(Input(), Pos(), numBits, 16);
      MsbBound(Input(), Pos(), 16);
      Pow2Values();
    }

    lemma NotBelowShortRanges(z: ZHuffman)
      requires ReaderOk() && z.Ready()
      requires forall i: nat :: CodeAt(z.lens, Input(), Pos(), i) ==> z.lens[i] > FAST_BITS
      ensures RangeEnd(z.lens, FAST_BITS) <= MsbVal(Input(), Pos(), 16)
    {
      if MsbVal(Input(), Pos(), 16) < RangeEnd(z.lens, FAST_BITS) {
        var i := BelowRangeEnd(z.lens, Input(), Pos(), FAST_BITS);
      }
    }

    /** Reads one symbol: the one the canonical code defines, or -1 if there is none or if fewer
        than sixteen bits are buffered when the input is used up. */
    method HuffmanDecode(z: ZHuffman) returns (sym: int)
      requires ReaderOk() && z.Ready()
      modifies this`zbuffer, this`numBits, this`codeBuffer, this`fetched
      ensures ReaderOk() && sym >= -1
      ensures sym >= 0 ==> Decoded(z.lens, Input(), old(Pos())) == Some(sym) && sym < |z.lens|
                           && Pos() == old(Pos()) + z.lens[sym]
      ensures sym == -1 ==> Decoded(z.lens, Input(), old(Pos())) == None
                            || (old(numBits) < 16 && old(Eof()) && 8 * |zdata| < old(Pos()) + 16)
    {
      if numBits < 16 {
        if Eof() { return -1; }
        FillBits();
      }
      ghost var p := Pos();
      var x := FastIndex();
      z.FastAt(Input(), p, x);
      var b := z.fast[x];
      if b != 0 {
        Drop(b / FAST_SIZE);
        sym := b % FAST_SIZE;
      } else {
        sym := DecodeSlow(z);
      }
      if sym >= 0 { DecodedIff(z.lens, Input(), p, sym); }
    }

    method FastIndex() returns (x: nat)
      requires ReaderOk() && numBits >= FAST_BITS
      ensures x == LsbVal(Input(), Pos(), FAST_BITS) < FAST_SIZE
    {
      LsbTake(Input(), Pos(), numBits, FAST_BITS);
      Pow2Values();
      x := codeBuffer % FAST_SIZE;
    }

    // ---------- the output buffer ----------

    /** The tables, the output buffer and this object do not overlap. */
    ghost predicate Separate()
      reads this`buffer
    {
      && this !in zLength.Repr() && this !in zDistance.Repr()
      && buffer !in zLength.Repr() && buffer !in zDistance.Repr()
      && zLength.Repr() !! zDistance.Repr()
      && zLength.Shape() && zDistance.Shape()
    }

    ghost predicate BufferOk()
      reads this`buffer, this`zout
    {
      zout <= buffer.Length <= UINT_MAX && (expandable ==> 1 <= buffer.Length)
    }

    ghost function Output(): seq<byte>
      requires zout <= buffer.Length
      reads this`buffer, this`zout, buffer
    {
      buffer[..zout]
    }

    /** Makes room for `n` more bytes by the least sufficient doubling, keeping the output so far. */
    method Expand(zo: nat, n: nat) returns (ok: bool)
      requires BufferOk() && zo <= buffer.Length < zo + n
      modifies this`buffer, this`zout
      ensures zout == zo
      ensures ok <==> Room(expandable, old(buffer.Length), zo + n)
      ensures !ok ==> buffer == old(buffer)
      ensures ok ==> fresh(buffer) && BufferOk() && zo + n <= buffer.Length
      ensures ok ==> buffer[..zo] == old(buffer[..zo])
      ensures ok ==> LeastDoubling(old(buffer.Length), zo + n, buffer.Length)
    {
      zout := zo;
      if !expandable { return false; }
      var cur, limit := zo, buffer.Length;
      if UINT_MAX - cur < n { return false; }
      ghost var k := 0;
      while cur + n > limit
        invariant limit == Shl(buffer.Length, k) && 1 <= limit <= UINT_MAX
        invariant k > 0 ==> Shl(buffer.Length, k - 1) < cur + n
        decreases UINT_MAX - limit
      {
        if limit > UINT_MAX / 2 {
          NoDoublingFits(buffer.Length, cur + n, k);
          return false;
        }
        limit := limit * 2;
        k := k + 1;
      }
      ShlMonotone(buffer.Length, 0, k);
      var q := new byte[limit];
      forall i | 0 <= i < buffer.Length { q[i] := buffer[i]; }
      buffer := q;
      ok := true;
    }

    // ---------- matches ----------

    /** A match at distance one repeats the last byte. */
    method CopyRun(zo: nat, len: nat)
      requires 1 <= zo && zo + len <= buffer.Length
      modifies buffer
      ensures buffer[..zo + len] == CopyFrom(old(buffer[..zo]), 1, len)
    {
      ghost var out := buffer[..zo];
      var v := buffer[zo - 1];
      for k := 0 to len
        invariant buffer[..zo + k] == CopyFrom(out, 1, k) && buffer[zo + k - 1] == v
      {
        buffer[zo + k] := v;
        TakeOneMore(buffer, zo + k, CopyFrom(out, 1, k));
      }
    }

    /** Any other match copies byte by byte, so it may read bytes it has just written. */
    method CopyBytes(zo: nat, dist: nat, len: nat)
      requires 1 <= dist <= zo && zo + len <= buffer.Length
      modifies buffer
      ensures buffer[..zo + len] == CopyFrom(old(buffer[..zo]), dist, len)
    {
      ghost var out := buffer[..zo];
      for k := 0 to len
        invariant buffer[..zo + k] == CopyFrom(out, dist, k)
      {
        assert CopyFrom(out, dist, k)[zo + k - dist] == buffer[zo + k - dist];
        buffer[zo + k] := buffer[zo + k - dist];
        TakeOneMore(buffer, zo + k, CopyFrom(out, dist, k));
      }
    }

    /** Reads the rest of a match after its length symbol. */
    method ReadMatch(sym: nat, ghost p: nat) returns (st: Status, len: nat, dist: nat)
      requires ReaderOk() && zLength.Ready() && zDistance.Ready() && Separate()
      requires END_OF_BLOCK < sym && Decoded(zLength.lens, Input(), p) == Some(sym)
      requires Pos() == p + zLength.lens[sym]
      modifies this`zbuffer, this`numBits, this`codeBuffer, this`fetched
      ensures ReaderOk()
      ensures st == Done ==>
                NextItem(zLength.lens, zDistance.lens, Input(), p) == Emit(Copy(len, dist), Pos())
                && len >= 3 && dist >= 1
      ensures st != Done ==> CutOff(NextItem(zLength.lens, zDistance.lens, Input(), p), |zdata|)
    {
      hide LsbVal, StreamOf, CodeAt, TableOk, NextDistance, Decoded, LengthBase, LengthExtra;
      len, dist := 0, 0;
      if sym > LAST_LENGTH { return Undefined, len, dist; }
      len := ReceiveExtra(LengthBase(sym), LengthExtra(sym));
      DistanceForward(zDistance.lens, Input(), Pos());
      st, dist := ReadDistance();
    }

    /** Reads the extra bits of a length or distance, if it has any. */
    method ReceiveExtra(base: nat, bits: nat) returns (v: nat)
      requires ReaderOk() && bits <= 13
      modifies this`zbuffer, this`numBits, this`codeBuffer, this`fetched
      ensures ReaderOk() && Pos() == old(Pos()) + bits
      ensures v == base + LsbVal(Input(), old(Pos()), bits)
    {
      v := base;
      if bits != 0 {
        var extra := Receive(bits);
        v := v + extra;
      }
    }

    method ReadDistance() returns (st: Status, dist: nat)
      requires ReaderOk() && zDistance.Ready() && Separate()
      modifies this`zbuffer, this`numBits, this`codeBuffer, this`fetched
      ensures ReaderOk()
      ensures st == Done ==> NextDistance(zDistance.lens, Input(), old(Pos())) == Distance(dist, Pos())
      ensures st != Done ==> NextDistance(zDistance.lens, Input(), old(Pos())) == NoDistance
                             || 8 * |zdata| < old(Pos()) + 16
    {
      hide LsbVal, StreamOf, CodeAt, TableOk, DistBase, DistExtra;
      dist := 0;
      var d := HuffmanDecode(zDistance);
      if d < 0 { return Corrupt, dist; }
      if d > LAST_DIST { return Undefined, dist; }
      dist := ReceiveExtra(DistBase(d), DistExtra(d));
      st := Done;
    }

    // ---------- compressed blocks ----------

    /** Every size the output could still reach from capacity `cap`, it can reach now. */
    ghost predicate RoomKept(cap: nat)
      reads this`buffer
    {
      forall m: nat :: Room(expandable, cap, m) ==> Room(expandable, buffer.Length, m)
    }

    method EnsureSpace(zo: nat, n: nat) returns (ok: bool)
      requires BufferOk() && zo <= buffer.Length
      modifies this`buffer, this`zout
      ensures ok <==> Room(expandable, old(buffer.Length), zo + n)
      ensures (buffer == old(buffer) || fresh(buffer)) && (zout == old(zout) || zout == zo)
      ensures ok ==> BufferOk() && zo + n <= buffer.Length && RoomKept(old(buffer.Length))
      ensures ok ==> buffer[..zo] == old(buffer[..zo])
    {
      ok := true;
      if zo + n > buffer.Length {
        ghost var cap := buffer.Length;
        ok := Expand(zo, n);
        if ok {
          forall m: nat | Room(expandable, cap, m)
            ensures Room(expandable, buffer.Length, m)
          {
            RoomAfterGrowth(cap, zo + n, buffer.Length, m);
          }
        }
      }
    }

    method PutLiteral(zo: nat, b: byte) returns (ok: bool)
      requires BufferOk() && zo <= buffer.Length
      modifies this`buffer, this`zout, buffer
      ensures ok <==> Room(expandable, old(buffer.Length), zo + 1)
      ensures buffer == old(buffer) || fresh(buffer)
      ensures ok ==> BufferOk() && zo + 1 <= buffer.Length && RoomKept(old(buffer.Length))
      ensures ok ==> buffer[..zo + 1] == old(buffer[..zo]) + [b]
    {
      ok := EnsureSpace(zo, 1);
      if ok {
        buffer[zo] := b;
      }
    }

    method PutCopy(zo: nat, len: nat, dist: nat) returns (ok: bool)
      requires BufferOk() && zo <= buffer.Length && 1 <= dist <= zo
      modifies this`buffer, this`zout, buffer
      ensures ok <==> Room(expandable, old(buffer.Length), zo + len)
      ensures buffer == old(buffer) || fresh(buffer)
      ensures ok ==> BufferOk() && zo + len <= buffer.Length && RoomKept(old(buffer.Length))
      ensures ok ==> buffer[..zo + len] == CopyFrom(old(buffer[..zo]), dist, len)
    {
      ok := EnsureSpace(zo, len);
      if ok {
        if dist == 1 {
          CopyRun(zo, len);
        } else {
          CopyBytes(zo, dist, len);
        }
      }
    }

    /** The state inside a block: `done` has been read from `p0` to `p` and carried out on `out0`. */
    ghost predicate MidBlock(p0: nat, out0: seq<byte>, done: seq<Item>, p: nat, zo: nat)
      reads this`buffer, zLength, zDistance, buffer
    {
      && zo <= buffer.Length
      && Items(zLength.lens, zDistance.lens, Input(), p0, done, p)
      && Apply(out0, done) == Some(buffer[..zo])
    }

    /** No good body starts at `p0`. */
    ghost predicate Refused(p0: nat, out0: seq<byte>, cap: nat)
      reads zLength, zDistance
    {
      NoGoodBody(zLength.lens, zDistance.lens, Input(), p0, |zdata|, out0, expandable, cap)
    }

    method TakeLiteral(b: byte, zo: nat, ghost p0: nat, ghost out0: seq<byte>, ghost cap: nat, ghost done: seq<Item>, ghost p: nat)
      returns (ok: bool)
      requires BufferOk() && Separate() && RoomKept(cap) && MidBlock(p0, out0, done, p, zo)
      requires numBits <= 8 * fetched
      requires NextItem(zLength.lens, zDistance.lens, Input(), p) == Emit(Literal(b), Pos())
      modifies this`buffer, this`zout, buffer
      ensures Separate() && (buffer == old(buffer) || fresh(buffer))
      ensures ok ==> BufferOk() && RoomKept(cap) && MidBlock(p0, out0, done + [Literal(b)], Pos(), zo + 1)
      ensures !ok ==> Refused(p0, out0, cap)
    {
      hide LsbVal, StreamOf, CodeAt, TableOk, Decoded, Kraft, Room, NextItem;
      ghost var out := buffer[..zo];
      ItemsSnoc(zLength.lens, zDistance.lens, Input(), p0, done, p, Literal(b), Pos());
      ApplyConcat(out0, done, [Literal(b)]);
      ApplyOne(out, Literal(b));
      ok := PutLiteral(zo, b);
      if !ok {
        StuckBody(zLength.lens, zDistance.lens, Input(), p0, |zdata|, out0, expandable, cap, done, p, Literal(b), Pos());
      }
    }

    method TakeCopy(len: nat, dist: nat, zo: nat, ghost p0: nat, ghost out0: seq<byte>, ghost cap: nat, ghost done: seq<Item>,
                    ghost p: nat)
      returns (ok: bool)
      requires BufferOk() && Separate() && RoomKept(cap) && MidBlock(p0, out0, done, p, zo)
      requires numBits <= 8 * fetched && dist >= 1
      requires NextItem(zLength.lens, zDistance.lens, Input(), p) == Emit(Copy(len, dist), Pos())
      modifies this`buffer, this`zout, buffer
      ensures Separate() && (buffer == old(buffer) || fresh(buffer))
      ensures ok ==> BufferOk() && RoomKept(cap) && MidBlock(p0, out0, done + [Copy(len, dist)], Pos(), zo + len)
      ensures !ok ==> Refused(p0, out0, cap)
    {
      hide LsbVal, StreamOf, CodeAt, TableOk, Decoded, Kraft, Room, NextItem, CopyFrom;
      ghost var item := Copy(len, dist);
      ghost var out := buffer[..zo];
      if zo < dist {
        StuckBody(zLength.lens, zDistance.lens, Input(), p0, |zdata|, out0, expandable, cap, done, p, item, Pos());
        return false;
      }
      ItemsSnoc(zLength.lens, zDistance.lens, Input(), p0, done, p, item, Pos());
      ApplyConcat(out0, done, [item]);
      ApplyOne(out, item);
      ok := PutCopy(zo, len, dist);
      if !ok {
        StuckBody(zLength.lens, zDistance.lens, Input(), p0, |zdata|, out0, expandable, cap, done, p, item, Pos());
      }
    }

    /** Between two symbols of a block. */
    ghost predicate InBlock(p0: nat, out0: seq<byte>, cap: nat, done: seq<Item>, zo: nat)
      reads this, zLength.Repr(), zDistance.Repr(), buffer
    {
      && ReaderOk() && BufferOk() && Separate() && zLength.Ready() && zDistance.Ready()
      && RoomKept(cap) && MidBlock(p0, out0, done, Pos(), zo)
    }

    /** No code matches, or the input ran out: either way no good stream goes on here. */
    lemma SymbolCutOff(p: nat)
      requires Decoded(zLength.lens, Input(), p) == None || 8 * |zdata| < p + 16
      ensures CutOff(NextItem(zLength.lens, zDistance.lens, Input(), p), |zdata|)
    {
      StepForward(zLength.lens, zDistance.lens, Input(), p);
    }

    /** Decodes one symbol, with the rest of its match if it starts one, and carries it out. */
    method ParseItem(zo: nat, ghost p0: nat, ghost out0: seq<byte>, ghost cap: nat, ghost done: seq<Item>)
      returns (st: Status, more: bool, zo': nat, ghost done': seq<Item>)
      requires InBlock(p0, out0, cap, done, zo)
      modifies this`zbuffer, this`numBits, this`codeBuffer, this`fetched, this`buffer, this`zout, buffer
      ensures ReaderOk() && Separate() && (buffer == old(buffer) || fresh(buffer))
      ensures st == Done && more ==> InBlock(p0, out0, cap, done', zo') && zo < zo'
      ensures st == Done && !more ==>
                zo' == zo && done' == done && BufferOk() && RoomKept(cap) && MidBlock(p0, out0, done, old(Pos()), zo) &&
                NextItem(zLength.lens, zDistance.lens, Input(), old(Pos())) == EndOfBlock(Pos())
      ensures st != Done ==> Refused(p0, out0, cap)
    {
      hide LsbVal, StreamOf, CodeAt, TableOk, Kraft, Room, NoGoodBody, Items, Apply, NextCopy;
      zo', done', more, st := zo, done, true, Done;
      ghost var p := Pos();
      var z := HuffmanDecode(zLength);
      if z < 0 {
        SymbolCutOff(p);
        CutOffBody(zLength.lens, zDistance.lens, Input(), p0, |zdata|, out0, expandable, cap, done, p);
        st := Corrupt;
      } else if z < END_OF_BLOCK {
        var ok := TakeLiteral(z, zo, p0, out0, cap, done, p);
        if ok { zo', done' := zo + 1, done + [Literal(z)]; } else { st := Corrupt; }
      } else if z == END_OF_BLOCK {
        more := false;
      } else {
        st, zo', done' := ParseMatch(z, zo, p0, out0, cap, done, p);
      }
    }

    method ParseMatch(z: nat, zo: nat, ghost p0: nat, ghost out0: seq<byte>, ghost cap: nat, ghost done: seq<Item>, ghost p: nat)
      returns (st: Status, zo': nat, ghost done': seq<Item>)
      requires ReaderOk() && BufferOk() && Separate() && zLength.Ready() && zDistance.Ready()
      requires RoomKept(cap) && MidBlock(p0, out0, done, p, zo)
      requires END_OF_BLOCK < z && Decoded(zLength.lens, Input(), p) == Some(z) && Pos() == p + zLength.lens[z]
      modifies this`zbuffer, this`numBits, this`codeBuffer, this`fetched, this`buffer, this`zout, buffer
      ensures ReaderOk() && Separate() && (buffer == old(buffer) || fresh(buffer))
      ensures st == Done ==> InBlock(p0, out0, cap, done', zo') && zo < zo'
      ensures st != Done ==> Refused(p0, out0, cap)
    {
      hide LsbVal, StreamOf, CodeAt, TableOk, Kraft, Room, NoGoodBody, Items, Apply, NextItem, Decoded;
      var len, dist;
      zo', done' := zo, done;
      st, len, dist := ReadMatch(z, p);
      if st != Done {
        CutOffBody(zLength.lens, zDistance.lens, Input(), p0, |zdata|, out0, expandable, cap, done, p);
        return;
      }
      var ok := TakeCopy(len, dist, zo, p0, out0, cap, done, p);
      if ok { zo', done' := zo + len, done + [Copy(len, dist)]; } else { st := Corrupt; }
    }

    /** Decodes symbols up to the end of the block, writing bytes and copies to the output. */
    method ParseHuffmanBlock() returns (st: Status, ghost items: seq<Item>)
      requires ReaderOk() && BufferOk() && Separate() && zLength.Ready() && zDistance.Ready()
      modifies this`zbuffer, this`numBits, this`codeBuffer, this`fetched, this`buffer, this`zout, buffer
      ensures ReaderOk() && Separate()
      ensures buffer == old(buffer) || fresh(buffer)
      ensures st == Done ==> BufferOk() && RoomKept(old(buffer.Length))
      ensures st == Done ==> Body(zLength.lens, zDistance.lens, Input(), old(Pos()), items, Pos())
      ensures st == Done ==> Apply(old(Output()), items) == Some(Output())
      ensures st != Done ==> Refused(old(Pos()), old(Output()), old(buffer.Length))
    {
      hide LsbVal, StreamOf, CodeAt, TableOk, Kraft, Room, NoGoodBody, NextItem;
      var zo := zout;
      items := [];
      ghost var p0, out0, cap := Pos(), Output(), buffer.Length;
      while true
        invariant InBlock(p0, out0, cap, items, zo) && (buffer == old(buffer) || fresh(buffer))
        decreases UINT_MAX - zo
      {
        ghost var p := Pos();
        var more;
        st, more, zo, items := ParseItem(zo, p0, out0, cap, items);
        if st != Done { return; }
        if !more {
          zout := zo;
          ItemsThenEnd(zLength.lens, zDistance.lens, Input(), p0, items, p, Pos());
          return;
        }
      }
    }

    // ---------- dynamic codes ----------

    /** Reads one operation on the list of code lengths: a length, or a run of equal ones. */
    method ReadOp(z: ZHuffman, lencodes: array<nat>, n: nat, ntot: nat) returns (ok: bool, n': nat)
      requires ReaderOk() && z.Ready() && |z.lens| == 19
      requires lencodes !in z.Repr() && lencodes.Length == 455 && n < ntot <= 320
      requires LengthsOk(lencodes[..n])
      modifies this`zbuffer, this`numBits, this`codeBuffer, this`fetched, lencodes
      ensures ReaderOk()
      ensures ok ==> n < n' <= ntot && LengthsOk(lencodes[..n'])
      ensures ok ==> ReadLengths(z.lens, Input(), old(Pos()), old(lencodes[..n]), ntot) ==
                     ReadLengths(z.lens, Input(), Pos(), lencodes[..n'], ntot)
      ensures !ok ==> ReadLengths(z.lens, Input(), old(Pos()), old(lencodes[..n]), ntot) == NoLengths
                      || 8 * |zdata| < old(Pos()) + 16
    {
      hide LsbVal, StreamOf, CodeAt, TableOk, Decoded, ReadLengths, LengthsOk, Fill;
      n' := n;
      ReadLengthsStep(z.lens, Input(), Pos(), lencodes[..n], ntot);
      var c := HuffmanDecode(z);
      if c < 0 || c >= 19 { return false, n'; }
      if c < 16 {
        lencodes[n] := c;
        assert lencodes[..n + 1] == old(lencodes[..n]) + [c];
        OneLengthOk(old(lencodes[..n]), c);
        n' := n + 1;
        return true, n';
      }
      var count, fill;
      ok, fill, count := ReadRun(c, lencodes, n);
      if !ok { return; }
      RunOk(lencodes[..n], fill, count);
      if ntot - n < count { return false, n'; }
      SetRun(lencodes, n, fill, count);
      n' := n + count;
    }

    /** Reads the length of a run and finds what it repeats. */
    method ReadRun(c: int, lencodes: array<nat>, n: nat) returns (ok: bool, fill: nat, count: nat)
      requires ReaderOk() && 16 <= c <= 18 && n < lencodes.Length
      modifies this`zbuffer, this`numBits, this`codeBuffer, this`fetched
      ensures ReaderOk()
      ensures var bits := if c == 16 then 2 else if c == 17 then 3 else 7;
              count == (if c == 18 then 11 else 3) + LsbVal(Input(), old(Pos()), bits) && Pos() == old(Pos()) + bits
      ensures ok <==> c != 16 || n > 0
      ensures ok ==> fill == if c == 16 then lencodes[n - 1] else 0
    {
      hide LsbVal, StreamOf;
      fill, ok := 0, true;
      if c == 16 {
        count := ReceiveExtra(3, 2);
        if n == 0 { return false, fill, count; }
        fill := lencodes[n - 1];
      } else if c == 17 {
        count := ReceiveExtra(3, 3);
      } else {
        count := ReceiveExtra(11, 7);
      }
    }

    method SetRun(lencodes: array<nat>, n: nat, fill: nat, count: nat)
      requires n + count <= lencodes.Length
      modifies lencodes
      ensures lencodes[..n + count] == old(lencodes[..n]) + Fill(fill, count)
    {
      forall k | n <= k < n + count { lencodes[k] := fill; }
    }

    /** Reads operations until exactly `ntot` code lengths are known. */
    method ReadLens(z: ZHuffman, lencodes: array<nat>, ntot: nat) returns (ok: bool)
      requires ReaderOk() && z.Ready() && |z.lens| == 19
      requires lencodes !in z.Repr() && lencodes.Length == 455 && ntot <= 320
      modifies this`zbuffer, this`numBits, this`codeBuffer, this`fetched, lencodes
      ensures ReaderOk()
      ensures ok ==> LengthsOk(lencodes[..ntot])
      ensures ok ==> ReadLengths(z.lens, Input(), old(Pos()), [], ntot) == LengthList(lencodes[..ntot], Pos())
      ensures !ok ==> var r := ReadLengths(z.lens, Input(), old(Pos()), [], ntot);
                      r == NoLengths || 8 * |zdata| < r.next + 16
    {
      hide LsbVal, StreamOf, CodeAt, TableOk, NextOp;
      var n := 0;
      ghost var all := ReadLengths(z.lens, Input(), Pos(), [], ntot);
      while n < ntot
        invariant n <= ntot && ReaderOk() && z.Ready() && LengthsOk(lencodes[..n])
        invariant ReadLengths(z.lens, Input(), Pos(), lencodes[..n], ntot) == all
      {
        ReadLengthsForward(z.lens, Input(), Pos(), lencodes[..n], ntot);
        ok, n := ReadOp(z, lencodes, n, ntot);
        if !ok { return; }
      }
      ok := true;
    }

    /** Reads the three-bit lengths of the code length code in their transmission order. */
    method ReadCodeLengthSizes(hclen: nat) returns (sizes: seq<nat>)
      requires ReaderOk() && hclen <= 19
      modifies this`zbuffer, this`numBits, this`codeBuffer, this`fetched
      ensures ReaderOk() && Pos() == old(Pos()) + 3 * hclen
      ensures sizes == CodeLengthLengths(Input(), old(Pos()), hclen)
      ensures LengthsOk(sizes) && |sizes| == 19
    {
      hide LsbVal, StreamOf, CodeLengthLengths, OrderAt;
      ghost var p := Pos();
      var codelengthSizes := new nat[19](_ => 0);
      NoneSent(Input(), p);
      for i := 0 to hclen
        invariant ReaderOk() && Pos() == p + 3 * i
        invariant codelengthSizes[..] == CodeLengthLengths(Input(), p, i)
      {
        LsbBound(Input(), Pos(), 3);
        OneMoreLength(Input(), p, i);
        var s := Receive(3);
        codelengthSizes[OrderAt(i)] := s;
      }
      CodeLengthsSmall(Input(), p, hclen);
      sizes := codelengthSizes[..];
    }

    /** Reads the counts at the start of a dynamic block and builds the code length code. */
    method ReadCodeLengthCode() returns (ok: bool, hlit: nat, hdist: nat, z: ZHuffman)
      requires ReaderOk()
      modifies this`zbuffer, this`numBits, this`codeBuffer, this`fetched
      ensures ReaderOk() && fresh(z.Repr())
      ensures hlit == 257 + LsbVal(Input(), old(Pos()), 5) <= 288
      ensures hdist == 1 + LsbVal(Input(), old(Pos()) + 5, 5) <= 32
      ensures var hclen := 4 + LsbVal(Input(), old(Pos()) + 10, 4);
              var cl := CodeLengthLengths(Input(), old(Pos()) + 14, hclen);
              (ok <==> Kraft(cl)) && Pos() == old(Pos()) + 14 + 3 * hclen &&
              (ok ==> z.Ready() && z.lens == cl && |cl| == 19)
    {
      hide LsbVal, StreamOf, CodeAt, TableOk, Kraft, LengthsOk, CodeLengthLengths;
      HeaderBounds(Input(), Pos());
      hlit := Receive(5);
      hlit := hlit + 257;
      hdist := Receive(5);
      hdist := hdist + 1;
      var hclen := Receive(4);
      hclen := hclen + 4;
      var sizes := ReadCodeLengthSizes(hclen);
      z := new ZHuffman();
      ok := z.Build(sizes);
    }

    /** Reads the lengths of both codes of a dynamic block and builds their tables. */
    method BuildTables(z: ZHuffman, hlit: nat, hdist: nat) returns (ok: bool)
      requires ReaderOk() && Separate() && z.Ready() && |z.lens| == 19
      requires hlit <= 288 && hdist <= 32
      requires z.Repr() !! zLength.Repr() && z.Repr() !! zDistance.Repr()
      modifies this`zbuffer, this`numBits, this`codeBuffer, this`fetched, zLength.Repr(), zDistance.Repr()
      ensures ReaderOk()
      ensures ok ==> zLength.Ready() && zDistance.Ready()
      ensures var c := CodesFrom(old(z.lens), Input(), old(Pos()), hlit, hdist);
              if ok then c == Codes(zLength.lens, zDistance.lens, Pos())
              else c == NoCodes || 8 * |zdata| < c.next + 16
    {
      hide LsbVal, StreamOf, CodeAt, TableOk, NextOp, ReadLengths, Kraft, LengthsOk;
      var ntot := hlit + hdist;
      var lencodes := new nat[455];
      ok := ReadLens(z, lencodes, ntot);
      if !ok { return; }
      ghost var lens := lencodes[..ntot];
      LengthsOkSlice(lens, hlit);
      assert lencodes[..hlit] == lens[..hlit] && lencodes[hlit..ntot] == lens[hlit..];
      ok := zLength.Build(lencodes[..hlit]);
      if !ok { return; }
      ok := zDistance.Build(lencodes[hlit..ntot]);
    }

    /** Reads the codes of a dynamic block. */
    method ComputeHuffmanCodes() returns (ok: bool)
      requires ReaderOk() && Separate()
      modifies this`zbuffer, this`numBits, this`codeBuffer, this`fetched, zLength.Repr(), zDistance.Repr()
      ensures ReaderOk()
      ensures ok ==> zLength.Ready() && zDistance.Ready()
      ensures var c := DynamicCodes(Input(), old(Pos()));
              if ok then c == Codes(zLength.lens, zDistance.lens, Pos())
              else c == NoCodes || 8 * |zdata| < c.next + 16
    {
      hide LsbVal, StreamOf, CodeAt, TableOk, CodesFrom, CodeLengthLengths, Kraft;
      var hlit, hdist, z;
      ok, hlit, hdist, z := ReadCodeLengthCode();
      if ok {
        ok := BuildTables(z, hlit, hdist);
      }
    }

    // ---------- stored blocks ----------

    /** Drops the rest of the current byte, so that a whole number of bytes is buffered. */
    method Align()
      requires ReaderOk()
      modifies this`zbuffer, this`numBits, this`codeBuffer, this`fetched
      ensures ReaderOk() && Pos() == AlignUp(old(Pos())) && numBits == old(numBits) - old(numBits) % 8
    {
      hide LsbVal, StreamOf;
      var odd := numBits % 8;
      if odd != 0 {
        Drop(odd);
      }
    }

    /** Moves the whole bytes still buffered into the header; there are at most three of them. */
    method DrainBytes(header: array<byte>) returns (k: nat)
      requires ReaderOk() && numBits % 8 == 0 && numBits <= 24 && header.Length == 4
      modifies this`numBits, this`codeBuffer, header
      ensures ReaderOk() && numBits == 0 && k <= 3 && Pos() == old(Pos()) + 8 * k
      ensures forall i :: 0 <= i < k ==> header[i] == LsbVal(Input(), old(Pos()) + 8 * i, 8)
    {
      hide LsbVal, StreamOf, Shr;
      k := 0;
      ghost var p := Pos();
      while numBits > 0
        invariant ReaderOk() && numBits % 8 == 0 && numBits == old(numBits) - 8 * k && Pos() == p + 8 * k
        invariant forall i :: 0 <= i < k ==> header[i] == LsbVal(Input(), p + 8 * i, 8)
        decreases numBits
      {
        LsbTake(Input(), Pos(), numBits, 8);
        assert Pow2(8) == 256;
        header[k] := codeBuffer % 256;
        Drop(8);
        k := k + 1;
      }
    }

    /** Fetches the rest of the four header bytes directly. */
    method FillHeader(header: array<byte>, k: nat)
      requires ReaderOk() && numBits == 0 && k <= 4 && header.Length == 4 && 8 * k <= Pos()
      requires forall i :: 0 <= i < k ==> header[i] == LsbVal(Input(), Pos() - 8 * k + 8 * i, 8)
      modifies this`zbuffer, this`fetched, header
      ensures ReaderOk() && Pos() == old(Pos()) + 32 - 8 * k
      ensures forall i :: 0 <= i < 4 ==> header[i] == LsbVal(Input(), old(Pos()) - 8 * k + 8 * i, 8)
    {
      hide StreamOf;
      ghost var start := Pos() - 8 * k;
      for j := k to 4
        invariant ReaderOk() && numBits == 0 && Pos() == start + 8 * j
        invariant forall i :: 0 <= i < j ==> header[i] == LsbVal(Input(), start + 8 * i, 8)
      {
        ByteIsEightBits(zdata, fetched);
        var b := Get8();
        header[j] := b;
      }
    }

    /** Reads the length of a stored block and checks it against its complement. */
    method ReadStoredHeader() returns (ok: bool, len: nat)
      requires ReaderOk() && numBits <= 31
      modifies this`zbuffer, this`numBits, this`codeBuffer, this`fetched
      ensures ReaderOk() && numBits == 0 && Pos() == AlignUp(old(Pos())) + 32
      ensures len == LsbVal(Input(), AlignUp(old(Pos())), 16)
      ensures ok <==> len + LsbVal(Input(), AlignUp(old(Pos())) + 16, 16) == 0xFFFF
    {
      hide LsbVal, StreamOf, AlignUp;
      ghost var start := AlignUp(Pos());
      Align();
      var header := new byte[4];
      var k := DrainBytes(header);
      if numBits < 0 {
        assert false;
      }
      FillHeader(header, k);
      TwoBytes(Input(), start);
      TwoBytes(Input(), start + 16);
      assert header[0] == LsbVal(Input(), start + 8 * 0, 8) && header[1] == LsbVal(Input(), start + 8 * 1, 8);
      assert header[2] == LsbVal(Input(), start + 8 * 2, 8) && header[3] == LsbVal(Input(), start + 8 * 3, 8);
      len := header[1] as nat * 256 + header[0] as nat;
      var nlen := header[3] as nat * 256 + header[2] as nat;
      // For a 16-bit length, exclusive or with 0xffff is the difference to it.
      ok := nlen == 0xFFFF - len;
    }

    /** Copies a stored block's bytes from the input to the output. */
    method CopyStored(len: nat)
      requires ReaderOk() && numBits == 0 && zbuffer + len <= |zdata|
      requires BufferOk() && zout + len <= buffer.Length
      modifies this`zbuffer, this`fetched, this`zout, buffer
      ensures ReaderOk() && BufferOk() && numBits == 0 && Pos() == old(Pos()) + 8 * len
      ensures Output() == old(Output()) + zdata[old(zbuffer)..old(zbuffer) + len]
    {
      hide LsbVal, StreamOf;
      forall i | 0 <= i < len { buffer[zout + i] := zdata[zbuffer + i]; }
      zbuffer := zbuffer + len;
      zout := zout + len;
      fetched := fetched + len;
      EmptyBits(Input(), old(Pos()));
      EmptyBits(Input(), Pos());
    }

    /** The bytes to be copied are the ones the stream holds at this position. */
    lemma StoredBytes(start: nat, len: nat)
      requires ReaderOk() && numBits == 0 && Pos() == start + 32 && zbuffer + len <= |zdata|
      ensures forall i :: 0 <= i < len ==> zdata[zbuffer + i] == LsbVal(Input(), start + 32 + 8 * i, 8)
    {
      hide LsbVal, StreamOf;
      forall i | 0 <= i < len
        ensures zdata[zbuffer + i] == LsbVal(Input(), start + 32 + 8 * i, 8)
      {
        ByteIsEightBits(zdata, fetched + i);
      }
    }

    /** A stored block that needs more bytes than are left does not end before the input does. */
    lemma StoredPastEnd(p: nat, len: nat, out: seq<byte>, exp: bool, cap: nat)
      requires ReaderOk() && numBits == 0 && Pos() == AlignUp(p) + 32 && zbuffer + len > |zdata|
      requires len == LsbVal(Input(), AlignUp(p), 16)
      ensures NoGoodBlock(Input(), 0, p, |zdata|, out, exp, cap)
    {
      hide LsbVal, StreamOf, AlignUp;
    }

    /** Makes room for the bytes of a stored block and copies them. */
    method TakeStored(len: nat, ghost p: nat) returns (ok: bool, ghost bytes: seq<byte>)
      requires ReaderOk() && numBits == 0 && BufferOk() && Separate()
      requires Pos() == AlignUp(p) + 32 && zbuffer + len <= |zdata| && len == LsbVal(Input(), AlignUp(p), 16)
      requires len + LsbVal(Input(), AlignUp(p) + 16, 16) == 0xFFFF
      modifies this`zbuffer, this`fetched, this`buffer, this`zout, buffer
      ensures ReaderOk() && Separate() && (buffer == old(buffer) || fresh(buffer))
      ensures ok ==> BufferOk() && RoomKept(old(buffer.Length))
      ensures ok ==> StoredAt(Input(), p, bytes, Pos()) && Output() == old(Output()) + bytes
      ensures !ok ==> NoGoodBlock(Input(), 0, p, |zdata|, old(Output()), expandable, old(buffer.Length))
    {
      hide LsbVal, StreamOf, Room, AlignUp, NoGoodBlock;
      StoredBytes(AlignUp(p), len);
      bytes := zdata[zbuffer..zbuffer + len];
      ok := EnsureSpace(zout, len);
      if !ok {
        StoredNoRoom(Input(), p, |zdata|, bytes, old(Output()), expandable, old(buffer.Length), Pos() + 8 * len);
        return;
      }
      CopyStored(len);
    }

    method ParseUncompressedBlock() returns (ok: bool, ghost bytes: seq<byte>)
      requires ReaderOk() && numBits <= 31 && BufferOk() && Separate()
      modifies this`zbuffer, this`numBits, this`codeBuffer, this`fetched, this`buffer, this`zout, buffer
      ensures ReaderOk() && Separate() && (buffer == old(buffer) || fresh(buffer))
      ensures ok ==> BufferOk() && RoomKept(old(buffer.Length))
      ensures ok ==> StoredAt(Input(), old(Pos()), bytes, Pos()) && Output() == old(Output()) + bytes
      ensures !ok ==> NoGoodBlock(Input(), 0, old(Pos()), |zdata|, old(Output()), expandable, old(buffer.Length))
    {
      hide LsbVal, StreamOf, Room, AlignUp, NoGoodBlock;
      ghost var p := Pos();
      bytes := [];
      var len;
      ok, len := ReadStoredHeader();
      if !ok {
        StoredBadHeader(Input(), p, |zdata|, old(Output()), expandable, old(buffer.Length));
        return;
      }
      if zbuffer + len > |zdata| {
        StoredPastEnd(p, len, old(Output()), expandable, old(buffer.Length));
        return false, bytes;
      }
      ok, bytes := TakeStored(len, p);
    }

    // ---------- whole streams ----------

    /** Installs the codes of section 3.2.6. */
    method BuildFixed()
      requires Separate()
      modifies zLength.Repr(), zDistance.Repr()
      ensures zLength.Ready() && zLength.lens == FixedLiterals()
      ensures zDistance.Ready() && zDistance.lens == FixedDistances()
    {
      hide Kraft, TableOk, FixedLiterals, FixedDistances;
      FixedLiteralsKraft();
      FixedDistancesKraft();
      var ok := zLength.Build(FixedLiterals());
      ok := zDistance.Build(FixedDistances());
    }

    /** Decodes one block whose three header bits have been read. */
    method ParseBlock(kind: nat) returns (st: Status, ghost block: Block)
      requires ReaderOk() && numBits <= 31 && BufferOk() && Separate()
      modifies this`zbuffer, this`numBits, this`codeBuffer, this`fetched, this`buffer, this`zout, buffer
      modifies zLength.Repr(), zDistance.Repr()
      ensures ReaderOk() && Separate() && (buffer == old(buffer) || fresh(buffer))
      ensures st == Done ==> BufferOk() && RoomKept(old(buffer.Length))
      ensures st == Done ==> BlockAt(Input(), kind, old(Pos()), block, Pos())
      ensures st == Done ==> ApplyBlock(old(Output()), block) == Some(Output())
      ensures st != Done ==>
                NoGoodBlock(Input(), kind, old(Pos()), |zdata|, old(Output()), expandable, old(buffer.Length))
    {
      block := Stored([]);
      if kind == 0 {
        var ok;
        ghost var bytes;
        ok, bytes := ParseUncompressedBlock();
        block := Stored(bytes);
        st := if ok then Done else Corrupt;
      } else if kind >= 3 {
        st := Corrupt;
      } else {
        st, block := ParseCompressedBlock(kind);
      }
    }

    method ParseCompressedBlock(kind: nat) returns (st: Status, ghost block: Block)
      requires ReaderOk() && BufferOk() && Separate() && (kind == 1 || kind == 2)
      modifies this`zbuffer, this`numBits, this`codeBuffer, this`fetched, this`buffer, this`zout, buffer
      modifies zLength.Repr(), zDistance.Repr()
      ensures ReaderOk() && Separate() && (buffer == old(buffer) || fresh(buffer))
      ensures st == Done ==> BufferOk() && RoomKept(old(buffer.Length))
      ensures st == Done ==> BlockAt(Input(), kind, old(Pos()), block, Pos())
      ensures st == Done ==> ApplyBlock(old(Output()), block) == Some(Output())
      ensures st != Done ==>
                NoGoodBlock(Input(), kind, old(Pos()), |zdata|, old(Output()), expandable, old(buffer.Length))
    {
      hide LsbVal, StreamOf, Kraft, TableOk, FixedLiterals, FixedDistances, DynamicCodes, NoGoodBody, NoGoodBlock, Body, Room;
      ghost var p, out, cap := Pos(), Output(), buffer.Length;
      ghost var items;
      block := Stored([]);
      if kind == 1 {
        BuildFixed();
      } else {
        var ok := ComputeHuffmanCodes();
        if !ok {
          NoDynamicBlock(Input(), p, |zdata|, out, expandable, cap);
          return Corrupt, block;
        }
      }
      st, items := ParseHuffmanBlock();
      block := Compressed(items);
      if st != Done {
        if kind == 1 {
          NoFixedBlock(Input(), p, |zdata|, out, expandable, cap);
        } else {
          NoDynamicBlock(Input(), p, |zdata|, out, expandable, cap);
        }
      }
    }

    method ParseZlibHeader() returns (ok: bool)
      requires fetched == zbuffer <= |zdata|
      modifies this`zbuffer, this`fetched
      ensures ok <==> ZlibHeader(zdata, old(zbuffer))
      ensures ok ==> fetched == zbuffer == old(zbuffer) + 2 <= |zdata|
    {
      var cmf := Get8();
      var cm := cmf % 16;
      var flg := Get8();
      if Eof() { return false; }
      if (cmf as nat * 256 + flg as nat) % 31 != 0 { return false; }
      if (flg / 32) % 2 != 0 { return false; }
      if cm != 8 { return false; }
      ok := true;
    }

    /** Between two blocks: `done` has been read from `p0` on and carried out on `out0`. */
    ghost predicate BetweenBlocks(p0: nat, out0: seq<byte>, cap: nat, done: seq<Block>, ends: seq<nat>)
      reads this, buffer
    {
      && ReaderOk() && BufferOk() && Separate() && RoomKept(cap)
      && PrefixAt(Input(), p0, done, ends, Pos())
      && ApplyBlocks(out0, done) == Some(Output())
    }

    /** Decodes the next block; `final` tells whether it was marked as the last one. */
    method NextBlock(ghost p0: nat, ghost out0: seq<byte>, ghost cap: nat, ghost done: seq<Block>, ghost ends: seq<nat>)
      returns (st: Status, final: bool, ghost blocks: seq<Block>, ghost ends': seq<nat>)
      requires BetweenBlocks(p0, out0, cap, done, ends)
      modifies this`zbuffer, this`numBits, this`codeBuffer, this`fetched, this`buffer, this`zout, buffer
      modifies zLength.Repr(), zDistance.Repr()
      ensures Separate() && (buffer == old(buffer) || fresh(buffer))
      ensures st == Done && !final ==>
                BetweenBlocks(p0, out0, cap, blocks, ends') && old(Pos()) < Pos() && old(Pos()) < 8 * |zdata|
      ensures st == Done && final ==>
                ReaderOk() && BufferOk() && StreamAt(Input(), p0, blocks, ends') && ends'[|ends'| - 1] == Pos() &&
                ApplyBlocks(out0, blocks) == Some(Output())
      ensures st != Done ==> NoGoodStream(Input(), p0, |zdata|, out0, expandable, cap)
    {
      hide LsbVal, StreamOf, Room, PrefixAt, StreamAt, BlockAt, ApplyBlocks, ApplyBlock, NoGoodStream;
      ghost var p, out := Pos(), Output();
      blocks, ends' := done, ends;
      LsbBound(Input(), p, 1);
      var f := Receive(1);
      var kind := Receive(2);
      final := f == 1;
      assert Pow2(1) == 2;
      ghost var block;
      st, block := ParseBlock(kind);
      if st != Done {
        WeakenRefusal(Input(), kind, p + 3, out, old(buffer.Length), cap);
        StuckStream(Input(), p0, |zdata|, out0, expandable, cap, done, ends, p);
        return;
      }
      BlockForward(Input(), kind, p + 3, block, Pos());
      if p >= 8 * |zdata| { NoBlockBeyondEnd(zdata, p, block, Pos()); }
      blocks, ends' := done + [block], ends + [Pos()];
      ApplyBlocksConcat(out0, done, [block]);
      ApplyBlocksOne(out, block);
      if final {
        PrefixThenLast(Input(), p0, done, ends, p, block, Pos());
      } else {
        PrefixSnoc(Input(), p0, done, ends, p, block, Pos());
      }
    }

    /** What does not fit from the current capacity did not fit from the first one either. */
    lemma WeakenRefusal(s: Stream, kind: nat, p: nat, out: seq<byte>, now: nat, cap: nat)
      requires NoGoodBlock(s, kind, p, |zdata|, out, expandable, now)
      requires forall m: nat :: Room(expandable, cap, m) ==> Room(expandable, now, m)
      ensures NoGoodBlock(s, kind, p, |zdata|, out, expandable, cap)
    {
      hide BlockAt, ApplyBlock, Room, Margin;
      forall block: Block, q: nat | BlockAt(s, kind, p, block, q) && q + Margin(block) <= 8 * |zdata|
        ensures Overflows(ApplyBlock(out, block), expandable, cap)
      {
        assert Overflows(ApplyBlock(out, block), expandable, now);
      }
    }

    /** Decodes a whole stream.
        Soundness: whatever is produced is what the input, extended with zeros, stands for.
        Completeness: every stream that ends in a stored block or two bytes early, whose matches stay inside
        the output and whose output fits is accepted. */
    method ParseZlib(parseHeader: bool) returns (st: Status, ghost blocks: seq<Block>, ghost ends: seq<nat>)
      requires fetched == zbuffer <= |zdata| && BufferOk() && Separate()
      modifies this, buffer, zLength.Repr(), zDistance.Repr()
      ensures var p0 := 8 * (old(zbuffer) + if parseHeader then 2 else 0);
              if st == Done then
                && (parseHeader ==> ZlibHeader(zdata, old(zbuffer)))
                && StreamAt(Input(), p0, blocks, ends)
                && zout <= buffer.Length && ApplyBlocks(old(Output()), blocks) == Some(Output())
              else
                (parseHeader && !ZlibHeader(zdata, old(zbuffer))) ||
                NoGoodStream(Input(), p0, |zdata|, old(Output()), expandable, old(buffer.Length))
    {
      hide LsbVal, StreamOf, Room, PrefixAt, StreamAt, BlockAt, ApplyBlocks, NoGoodStream, ZlibHeader;
      blocks, ends := [], [];
      if parseHeader {
        var ok := ParseZlibHeader();
        if !ok { return Corrupt, blocks, ends; }
      }
      numBits := 0;
      codeBuffer := 0;
      EmptyBits(Input(), Pos());
      ghost var p0, out0, cap := Pos(), Output(), buffer.Length;
      NoBlocksYet(Input(), p0, out0);
      var final := false;
      while !final
        invariant buffer == old(buffer) || fresh(buffer)
        invariant !final ==> BetweenBlocks(p0, out0, cap, blocks, ends)
        invariant final ==> BufferOk() && StreamAt(Input(), p0, blocks, ends) && ApplyBlocks(out0, blocks) == Some(Output())
        decreases !final, if numBits <= 8 * fetched && Pos() < 8 * |zdata| then 8 * |zdata| - Pos() else 0
      {
        st, final, blocks, ends := NextBlock(p0, out0, cap, blocks, ends);
        if st != Done { return; }
      }
      st := Done;
    }
  }

  // ---------- the decoder as a function of its input ----------

  /** From bit `p` on, `data` holds a stream that stands for `out` and ends at or before bit `limit`. */
  ghost predicate Inflates(data: seq<byte>, p: nat, out: seq<byte>, limit: int)
  {
    exists blocks: seq<Block>, ends: seq<nat> :: InflatesBy(data, p, out, limit, blocks, ends)
  }

  ghost predicate InflatesBy(data: seq<byte>, p: nat, out: seq<byte>, limit: int, blocks: seq<Block>, ends: seq<nat>)
  {
    StreamAt(StreamOf(data), p, blocks, ends) && |ends| > 0 && ends[|ends| - 1] <= limit &&
    ApplyBlocks([], blocks) == Some(out)
  }

  /** The input alone determines the output, whatever buffer it is decoded into. */
  lemma InflatesUnique(data: seq<byte>, p: nat, out: seq<byte>, limit: int, out': seq<byte>, limit': int)
    requires Inflates(data, p, out, limit) && Inflates(data, p, out', limit')
    ensures out == out'
  {
    hide StreamOf, StreamAt, ApplyBlocks;
    var blocks, ends :| InflatesBy(data, p, out, limit, blocks, ends);
    var blocks', ends' :| InflatesBy(data, p, out', limit', blocks', ends');
    StreamUnique(StreamOf(data), p, blocks, ends, blocks', ends');
  }

  /** `data` stands for `out`; nothing is said about where the stream ends. */
  ghost predicate StandsFor(data: seq<byte>, p: nat, out: seq<byte>)
  {
    exists limit: int :: Inflates(data, p, out, limit)
  }

  /** `data` stands for `out` and ends early enough: in a stored block, or two bytes before the end. */
  ghost predicate StandsForWithMargin(data: seq<byte>, p: nat, out: seq<byte>)
  {
    exists blocks: seq<Block>, ends: seq<nat> :: InflatesInTime(data, p, out, blocks, ends)
  }

  ghost predicate InflatesInTime(data: seq<byte>, p: nat, out: seq<byte>, blocks: seq<Block>, ends: seq<nat>)
  {
    StreamAt(StreamOf(data), p, blocks, ends) && InTime(blocks, ends, |data|) && ApplyBlocks([], blocks) == Some(out)
  }

  lemma InTimeStands(data: seq<byte>, p: nat, out: seq<byte>) returns (limit: int)
    requires StandsForWithMargin(data, p, out)
    ensures Inflates(data, p, out, limit)
  {
    hide StreamOf, StreamAt, ApplyBlocks;
    var blocks, ends :| InflatesInTime(data, p, out, blocks, ends);
    limit := ends[|ends| - 1];
    assert InflatesBy(data, p, out, limit, blocks, ends);
  }

  /** `data` stands for `out` by the letter of RFC 1951. */
  ghost predicate StandardMeaning(data: seq<byte>, p: nat, out: seq<byte>)
  {
    exists blocks: seq<Block>, ends: seq<nat> ::
      StandardStreamAt(StreamOf(data), p, blocks, ends) && ApplyBlocks([], blocks) == Some(out)
  }

  /** Every dynamic header of the stream has at most 286 literal/length codes. */
  ghost predicate StandardHeaders(data: seq<byte>, p: nat)
  {
    forall blocks: seq<Block>, ends: seq<nat> ::
      StreamAt(StreamOf(data), p, blocks, ends) ==> HeadersOk(StreamOf(data), p, ends)
  }

  /** Among the streams that are read, those with a meaning by the letter of RFC 1951 are exactly those
      whose dynamic headers keep to its limit, and then the meanings are the same. */
  lemma StandardMeaningIff(data: seq<byte>, p: nat, out: seq<byte>)
    requires StandsFor(data, p, out)
    ensures StandardMeaning(data, p, out) <==> StandardHeaders(data, p)
    ensures forall o: seq<byte> :: StandardMeaning(data, p, o) ==> o == out
  {
    hide StreamOf, StreamAt, StandardStreamAt, ApplyBlocks, HeadersOk;
    var limit: int :| Inflates(data, p, out, limit);
    var blocks, ends :| InflatesBy(data, p, out, limit, blocks, ends);
    StandardIff(StreamOf(data), p, blocks, ends);
    forall blocks': seq<Block>, ends': seq<nat> | StreamAt(StreamOf(data), p, blocks', ends')
      ensures blocks' == blocks && ends' == ends
    {
      StreamUnique(StreamOf(data), p, blocks, ends, blocks', ends');
    }
    forall blocks': seq<Block>, ends': seq<nat> | StandardStreamAt(StreamOf(data), p, blocks', ends')
      ensures blocks' == blocks && ends' == ends
    {
      StandardIff(StreamOf(data), p, blocks', ends');
    }
  }

  /** The bit at which the first block starts. */
  ghost function FirstBit(parseHeader: bool): nat
  {
    if parseHeader then 16 else 0
  }

  /** A refused stream is not one that ends in time and fits. */
  lemma RefusedStream(data: seq<byte>, p: nat, out: seq<byte>, expandable: bool, cap: nat)
    requires NoGoodStream(StreamOf(data), p, |data|, [], expandable, cap)
    ensures !(StandsForWithMargin(data, p, out) && Room(expandable, cap, |out|))
  {
    hide StreamOf, StreamAt, ApplyBlocks, Room;
    if StandsForWithMargin(data, p, out) {
      var blocks, ends :| InflatesInTime(data, p, out, blocks, ends);
      assert Overflows(ApplyBlocks([], blocks), expandable, cap);
    }
  }

  /** Decodes `data` into a buffer of `olen` bytes, which may grow if `exp` holds.
      A result is what the data stands for; and every stream that ends in a stored block or two bytes early and
      whose output fits is decoded. */
  method DoZlib(data: seq<byte>, olen: nat, exp: bool, parseHeader: bool) returns (st: Status, out: seq<byte>)
    requires olen <= UINT_MAX && (exp ==> 1 <= olen)
    ensures st == Done ==> StandsFor(data, FirstBit(parseHeader), out)
    ensures st == Done ==> (StandardMeaning(data, FirstBit(parseHeader), out) <==> StandardHeaders(data, FirstBit(parseHeader)))
    ensures st == Done && parseHeader ==> ZlibHeader(data, 0)
    ensures (parseHeader ==> ZlibHeader(data, 0)) ==>
              forall o: seq<byte> :: StandsForWithMargin(data, FirstBit(parseHeader), o) && Room(exp, olen, |o|)
                ==> st == Done && out == o
  {
    hide StreamOf, StreamAt, ApplyBlocks, Room, ZlibHeader, NoGoodStream, Inflates, InflatesInTime, StandardMeaning, StandardHeaders;
    var a := new ZBuf(data, olen, exp);
    ghost var blocks, ends;
    st, blocks, ends := a.ParseZlib(parseHeader);
    out := [];
    ghost var p := FirstBit(parseHeader);
    if st == Done {
      out := a.buffer[..a.zout];
      FromBlocks(data, p, out, blocks, ends);
      StandardMeaningIff(data, p, out);
      forall o: seq<byte> | StandsForWithMargin(data, p, o)
        ensures out == o
      {
        var limit := InTimeStands(data, p, o);
        InflatesUnique(data, p, out, ends[|ends| - 1], o, limit);
      }
    } else if parseHeader ==> ZlibHeader(data, 0) {
      forall o: seq<byte>
        ensures !(StandsForWithMargin(data, p, o) && Room(exp, olen, |o|))
      {
        RefusedStream(data, p, o, exp, olen);
      }
    }
  }

  lemma FromBlocks(data: seq<byte>, p: nat, out: seq<byte>, blocks: seq<Block>, ends: seq<nat>)
    requires StreamAt(StreamOf(data), p, blocks, ends) && ApplyBlocks([], blocks) == Some(out)
    ensures |ends| > 0 && Inflates(data, p, out, ends[|ends| - 1])
  {
    hide StreamOf, ApplyBlocks;
    assert InflatesBy(data, p, out, ends[|ends| - 1], blocks, ends);
  }
}
