/** Writing bits and packing them into bytes, first bit least significant. */
module BitPacking {
  import opened Bits

  // ---------- writing bits ----------

  /** A Huffman code is written most significant bit first. */
  function CodeBits(code: nat, len: nat): (bits: seq<bool>)
    ensures |bits| == len
  {
    if len == 0 then [] else CodeBits(code / 2, len - 1) + [code % 2 == 1]
  }

  /** Every other number is written least significant bit first. */
  function NumberBits(v: nat, n: nat): (bits: seq<bool>)
    ensures |bits| == n
    decreases n
  {
    if n == 0 then [] else [v % 2 == 1] + NumberBits(v / 2, n - 1)
  }

  ghost predicate BitsAt(s: Stream, p: nat, bits: seq<bool>)
  {
    forall i: nat :: i < |bits| ==> s(p + i) == bits[i]
  }

  lemma BitsAtConcat(s: Stream, p: nat, a: seq<bool>, b: seq<bool>)
    requires BitsAt(s, p, a + b)
    ensures BitsAt(s, p, a) && BitsAt(s, p + |a|, b)
  {
    forall i: nat | i < |a|
      ensures s(p + i) == a[i]
    {
      assert (a + b)[i] == a[i];
    }
    forall i: nat | i < |b|
      ensures s(p + |a| + i) == b[i]
    {
      assert (a + b)[|a| + i] == b[i];
      assert s(p + (|a| + i)) == b[i];
    }
  }

  lemma OneBit(s: Stream, p: nat, b: bool)
    requires BitsAt(s, p, [b])
    ensures s(p) == b
  {
    var i: nat := 0;
    assert s(p + i) == [b][i];
  }

  lemma {:induction false} CodeBitsRead(s: Stream, p: nat, code: nat, len: nat)
    requires code < Pow2(len) && BitsAt(s, p, CodeBits(code, len))
    ensures MsbVal(s, p, len) == code
    decreases len
  {
    if len != 0 {
      BitsAtConcat(s, p, CodeBits(code / 2, len - 1), [code % 2 == 1]);
      CodeBitsRead(s, p, code / 2, len - 1);
      OneBit(s, p + (len - 1), code % 2 == 1);
    }
  }

  lemma {:induction false} NumberBitsRead(s: Stream, p: nat, v: nat, n: nat)
    requires v < Pow2(n) && BitsAt(s, p, NumberBits(v, n))
    ensures LsbVal(s, p, n) == v
    decreases n
  {
    if n != 0 {
      BitsAtConcat(s, p, [v % 2 == 1], NumberBits(v / 2, n - 1));
      NumberBitsRead(s, p + 1, v / 2, n - 1);
      OneBit(s, p, v % 2 == 1);
    }
  }

  // ---------- packing bits into bytes ----------

  function ByteValue(bits: seq<bool>): nat
  {
    if bits == [] then 0 else Num(bits[0]) + 2 * ByteValue(bits[1..])
  }

  lemma {:induction false} ByteValueBound(bits: seq<bool>)
    ensures ByteValue(bits) < Pow2(|bits|)
  {
    if bits != [] { ByteValueBound(bits[1..]); }
  }

  lemma {:induction false} ByteValueBit(bits: seq<bool>, i: nat)
    requires i < |bits|
    ensures Bit(ByteValue(bits), i) == bits[i]
  {
    if i != 0 { ByteValueBit(bits[1..], i - 1); }
  }

  function PackByte(bits: seq<bool>): byte
    requires |bits| <= 8
  {
    ByteValueBound(bits);
    Pow2Monotone(|bits|, 8);
    assert Pow2(8) == 256;
    ByteValue(bits)
  }

  /** Eight bits to a byte, the first one least significant; the last byte is filled with zeros. */
  function Pack(bits: seq<bool>): (data: seq<byte>)
    ensures |bits| <= 8 * |data| < |bits| + 8
  {
    if bits == [] then []
    else if |bits| <= 8 then [PackByte(bits)]
    else [PackByte(bits[..8])] + Pack(bits[8..])
  }

  lemma {:induction false} PackBit(bits: seq<bool>, tail: seq<byte>, i: nat)
    requires i < |bits|
    ensures StreamOf(Pack(bits) + tail)(i) == bits[i]
  {
    var data := Pack(bits) + tail;
    if i < 8 {
      ByteValueBit(if |bits| <= 8 then bits else bits[..8], i);
    } else {
      PackBit(bits[8..], tail, i - 8);
      assert data[i / 8] == (Pack(bits[8..]) + tail)[(i - 8) / 8];
    }
  }

  lemma PackRead(bits: seq<bool>, tail: seq<byte>)
    ensures BitsAt(StreamOf(Pack(bits) + tail), 0, bits)
  {
    hide StreamOf, Pack;
    forall i: nat | i < |bits|
      ensures StreamOf(Pack(bits) + tail)(0 + i) == bits[i]
    {
      PackBit(bits, tail, i);
    }
  }

  // ---------- bytes bit by bit ----------

  lemma EightValue(a: bool, b: bool, c: bool, d: bool, e: bool, f: bool, g: bool, h: bool)
    ensures ByteValue([a, b, c, d, e, f, g, h]) ==
            Num(a) + 2 * Num(b) + 4 * Num(c) + 8 * Num(d) + 16 * Num(e) + 32 * Num(f) + 64 * Num(g) + 128 * Num(h)
  {
    hide Num;
    FourValue(e, f, g, h, []);
    FourValue(a, b, c, d, [e, f, g, h]);
    assert [e, f, g, h] + [] == [e, f, g, h];
    assert [a, b, c, d] + [e, f, g, h] == [a, b, c, d, e, f, g, h];
  }

  lemma FourValue(a: bool, b: bool, c: bool, d: bool, rest: seq<bool>)
    ensures ByteValue([a, b, c, d] + rest) == Num(a) + 2 * Num(b) + 4 * Num(c) + 8 * Num(d) + 16 * ByteValue(rest)
  {
    hide ByteValue, Num;
    assert [a, b, c, d] + rest == [a] + ([b] + ([c] + ([d] + rest)));
    OneValue(a, [b] + ([c] + ([d] + rest)));
    OneValue(b, [c] + ([d] + rest));
    OneValue(c, [d] + rest);
    OneValue(d, rest);
  }

  lemma OneValue(a: bool, rest: seq<bool>)
    ensures ByteValue([a] + rest) == Num(a) + 2 * ByteValue(rest)
  {
    assert ([a] + rest)[1..] == rest;
  }
}
