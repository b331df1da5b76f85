/** The whole way of a GIF image: the indices that an encoder was given are the ones painted. */
module GifTrip {
  import opened Bits
  import opened Gif
  import opened GifEncoding
  import opened GifLzw
  import opened GifPlain
  import opened GifRaster
  import opened Wrappers

  /** What an encoder writes for an image: the least code size, then its codes in sub-blocks. */
  function ImageBlock(cs: byte, codes: seq<nat>): (block: seq<byte>)
    ensures |block| == 1 + |ImageData(cs, codes)|
  {
    [cs] + ImageData(cs, codes)
  }

  lemma BlockRead(cs: byte, xs: seq<byte>, codes: seq<nat>, data: seq<byte>, pos: nat)
    requires 2 <= cs <= 8 && Encodes(cs, Fresh(cs), xs, codes)
    requires pos + |ImageBlock(cs, codes)| <= |data|
    requires data[pos..pos + |ImageBlock(cs, codes)|] == ImageBlock(cs, codes)
    ensures ByteAt(data, pos) == cs && PastByte(data, pos) == pos + 1
    ensures Meaning(data, pos + 1, cs) == Outcome(xs, Finished) <==> Limited(cs, 0, codes)
    ensures !Limited(cs, 0, codes) ==> CutShort(Meaning(data, pos + 1, cs), xs)
    ensures BlocksEnd(data, pos + 1, 0) == pos + |ImageBlock(cs, codes)|
  {
    hide ImageData, Encodes, Fresh, Meaning, BlocksEnd, Limited;
    var n := |ImageBlock(cs, codes)|;
    assert data[pos] == data[pos..pos + n][0] == cs;
    assert data[pos + 1..pos + n] == data[pos..pos + n][1..] == ImageData(cs, codes);
    DecodingUndoesEncoding(cs, xs, codes, data, pos + 1);
  }

  /** An image that any encoder wrote at `pos`, loaded into a rectangle of a picture.  The load succeeds
      exactly if the codes keep to the limit; then every pixel of the rectangle has the color of the
      index the encoder was given for its place in the drawing order, and reading stops behind the image.
      Past the limit the load ends with too many codes, and the pixels painted before that are right. */
  method DecodeEncoded(g: Gif, f: Frame, table: seq<byte>, cs: byte, ghost xs: seq<byte>, ghost codes: seq<nat>)
    returns (r: Loaded)
    requires g.Sized() && g.codes.Length == MAX_CODES && |table| == 1024
    requires f.gw == g.w && f.gh == g.h && InBounds(f)
    requires 2 <= cs <= 8 && Encodes(cs, Fresh(cs), xs, codes)
    requires g.pos + |ImageBlock(cs, codes)| <= |g.data|
    requires g.data[g.pos..g.pos + |ImageBlock(cs, codes)|] == ImageBlock(cs, codes)
    modifies g, g.out, g.history, g.codes
    ensures g.data == old(g.data)
    ensures r == Raster(if Limited(cs, 0, codes) then Finished else TooManyCodes)
    ensures Limited(cs, 0, codes) ==>
              (if g.pos < |g.data| then g.pos else |g.data|) == old(g.pos) + |ImageBlock(cs, codes)|
    ensures exists k: nat :: k <= |xs| && (k == |xs| <==> Limited(cs, 0, codes))
              && forall q: nat :: q < g.history.Length ==>
                   PixelDone(f, table, old(Canvas(g.out[..], g.history[..])), Canvas(g.out[..], g.history[..]), xs[..k], q)
  {
    hide ImageBlock, Encodes, Fresh, Meaning, BlocksEnd, Limited, PixelDone;
    BlockRead(cs, xs, codes, g.data, g.pos);
    ghost var meant := Meaning(g.data, g.pos + 1, cs);
    ghost var k := |meant.indices|;
    r := g.LoadImage(f, Some(table));
    assert meant.indices == xs[..k];
  }

  /** The same, for any pixel of the rectangle and in terms of the bytes of the picture: the pixel at byte `at`,
      drawn as number `k`, keeps its color if its index is transparent, and otherwise has that of its entry. */
  method DecodedPixel(g: Gif, f: Frame, table: seq<byte>, cs: byte, ghost xs: seq<byte>, ghost codes: seq<nat>,
                      ghost row: nat, ghost col: nat, ghost k: nat, ghost at: nat) returns (r: Loaded)
    requires g.Sized() && g.codes.Length == MAX_CODES && |table| == 1024
    requires f.gw == g.w && f.gh == g.h && InBounds(f)
    requires 2 <= cs <= 8 && Encodes(cs, Fresh(cs), xs, codes) && Limited(cs, 0, codes)
    requires g.pos + |ImageBlock(cs, codes)| <= |g.data|
    requires g.data[g.pos..g.pos + |ImageBlock(cs, codes)|] == ImageBlock(cs, codes)
    requires row < f.h && col < f.w && at == 4 * (f.gw * (f.y + row) + (f.x + col)) && at + 4 <= g.out.Length
    requires k == f.w * RowIndex(f.h, f.interlaced, row) + col && k < |xs|
    modifies g, g.out, g.history, g.codes
    ensures r == Raster(Finished)
    ensures var entry := 4 * (xs[k] as nat);
            if table[entry + 3] <= 128 then g.out[at..at + 4] == old(g.out[at..at + 4])
            else g.out[at..at + 4] == [table[entry + 2], table[entry + 1], table[entry], table[entry + 3]]
  {
    hide ImageBlock, Encodes, Fresh, Limited, PixelDone, RowIndex;
    r := DecodeEncoded(g, f, table, cs, xs, codes);
    ghost var was, now := old(Canvas(g.out[..], g.history[..])), Canvas(g.out[..], g.history[..]);
    ghost var n: nat :| n <= |xs| && (n == |xs| <==> Limited(cs, 0, codes))
      && forall q: nat :: q < g.history.Length ==> PixelDone(f, table, was, now, xs[..n], q);
    assert xs[..n] == xs;
    DrawnPixel(f, table, was, now, xs, row, col, k, at);
    assert was.out[at..at + 4] == old(g.out[at..at + 4]) && now.out[at..at + 4] == g.out[at..at + 4];
  }
}
