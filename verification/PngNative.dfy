/** The last pass over a 16-bit picture: every sample, so far with its more significant byte first, is put
    into the byte order of the machine. */
module PngNative {
  import opened Adam7
  import opened Bits
  import opened PngRows
  import opened PngScatter

  /** The bytes of each pair exchanged. */
  function Swapped(s: seq<byte>): (r: seq<byte>)
    requires |s| % 2 == 0
    ensures |r| == |s|
  {
    seq(|s|, i requires 0 <= i < |s| => s[Other(|s|, i)])
  }

  function Other(n: nat, i: nat): (j: nat)
    requires n % 2 == 0 && i < n
    ensures j < n && j % 2 != i % 2
  {
    if i % 2 == 0 then i + 1 else i - 1
  }

  lemma SwappedTwice(s: seq<byte>)
    requires |s| % 2 == 0
    ensures Swapped(Swapped(s)) == s
  {
  }

  lemma SwappedSlice(s: seq<byte>, i: nat, j: nat)
    requires |s| % 2 == 0 && i % 2 == 0 && j % 2 == 0 && i <= j <= |s|
    ensures Swapped(s)[i..j] == Swapped(s[i..j])
  {
  }

  /** The picture with the more significant byte of each sample first, whether or not the machine has it so. */
  function BigEndian(s: seq<byte>, swap: bool): (r: seq<byte>)
    ensures |r| == |s|
  {
    if swap && |s| % 2 == 0 then Swapped(s) else s
  }

  lemma BigEndianTwice(s: seq<byte>, swap: bool)
    ensures BigEndian(BigEndian(s, swap), swap) == s
  {
    if swap && |s| % 2 == 0 { SwappedTwice(s); }
  }

  /** The samples before number `i` in the order of the machine, the others not yet. */
  ghost predicate Converting(was: seq<byte>, out: seq<byte>, swap: bool, i: nat)
    requires |was| % 2 == 0
  {
    && |out| == |was| && 2 * i <= |was|
    && forall k :: 0 <= k < |was| ==> out[k] == if k < 2 * i then BigEndian(was, swap)[k] else was[k]
  }

  /** Puts `n` samples into the order of the machine. */
  method ToNative(out: array<byte>, n: nat, littleEndian: bool)
    requires out.Length == 2 * n
    modifies out
    ensures out[..] == BigEndian(old(out[..]), littleEndian)
  {
    ghost var was := out[..];
    var i: nat := 0;
    while i < n
      invariant i <= n && Converting(was, out[..], littleEndian, i)
    {
      var v := out[2 * i] as nat * 256 + out[2 * i + 1];
      TwoParts(v, out[2 * i], out[2 * i + 1]);
      ghost var before := out[..];
      out[2 * i], out[2 * i + 1] := Low(v, littleEndian), Low(v, !littleEndian);
      ConvertNext(was, before, out[..], littleEndian, i);
      i := i + 1;
    }
  }

  lemma TwoParts(v: nat, high: byte, low: byte)
    requires v == high * 256 + low
    ensures v < 0x1_0000 && v % 256 == low && v / 256 == high
  {
    DivModUnique(v, 256, high, low);
  }

  /** The byte of a 16-bit number that comes first, or second, in memory. */
  function Low(v: nat, low: bool): byte
    requires v < 0x1_0000
  {
    if low then v % 256 else v / 256
  }

  lemma ConvertNext(was: seq<byte>, before: seq<byte>, out: seq<byte>, swap: bool, i: nat)
    requires |was| % 2 == 0 && Converting(was, before, swap, i) && 2 * i + 1 < |was|
    requires var a, b := before[2 * i], before[2 * i + 1];
             out == before[2 * i := if swap then b else a][2 * i + 1 := if swap then a else b]
    ensures Converting(was, out, swap, i + 1)
  {
    var at := 2 * i;
    assert at % 2 == 0 && (at + 1) % 2 == 1;
    assert before[at] == was[at] && before[at + 1] == was[at + 1];
  }

  // ---------- pixels ----------

  lemma EvenOff(m: nat, q: nat)
    requires m % 2 == 0
    ensures Off(m, q) % 2 == 0
  {
    DivModUnique(Off(m, q), 2, (m / 2) * q, 0);
  }

  lemma EvenImage(m: nat, w: nat, h: nat)
    requires m % 2 == 0
    ensures Off(Off(m, w), h) % 2 == 0
  {
    hide Off;
    EvenOff(m, w);
    EvenOff(Off(m, w), h);
  }

  /** How many samples a picture of two-byte samples has. */
  lemma SampleCount(n: nat, w: nat, h: nat)
    ensures Off(Off(n * 2, w), h) == 2 * (w * h * n)
  {
    assert n * 2 * w * h == 2 * (w * h * n);
  }

  lemma EvenSpot(m: nat, w: nat, x: nat, y: nat)
    requires m % 2 == 0
    ensures Spot(m, w, x, y) % 2 == 0 && (Spot(m, w, x, y) + m) % 2 == 0
  {
    hide Off;
    EvenOff(m, w);
    EvenOff(Off(m, w), y);
    EvenOff(m, x);
  }

  lemma PixelSwapped(image: seq<byte>, m: nat, w: nat, x: nat, y: nat, swap: bool)
    requires Spot(m, w, x, y) + m <= |image| && (swap ==> |image| % 2 == 0 && m % 2 == 0)
    ensures PixelOf(BigEndian(image, swap), m, w, x, y) == BigEndian(PixelOf(image, m, w, x, y), swap)
  {
    hide Spot, Swapped;
    if swap {
      EvenSpot(m, w, x, y);
      SwappedSlice(image, Spot(m, w, x, y), Spot(m, w, x, y) + m);
    }
  }

  lemma CopiedSwapped(was: seq<byte>, out: seq<byte>, image: seq<byte>, m: nat, w: nat, pw: nat, p: nat, i: nat, j: nat,
                      x: nat, y: nat, swap: bool)
    requires Copied(was, out, image, m, w, pw, p, i, j, x, y)
    requires swap ==> |was| % 2 == 0 && |out| % 2 == 0 && |image| % 2 == 0 && m % 2 == 0
    ensures Copied(BigEndian(was, swap), BigEndian(out, swap), BigEndian(image, swap), m, w, pw, p, i, j, x, y)
  {
    hide Spot, PixelOf, BigEndian, PassOf, LineOf, ColumnOf;
    PixelSwapped(was, m, w, x, y, swap);
    PixelSwapped(out, m, w, x, y, swap);
    if Spot(m, pw, ColumnOf(x, y), LineOf(x, y)) + m <= |image| {
      PixelSwapped(image, m, pw, ColumnOf(x, y), LineOf(x, y), swap);
    }
  }

  /** Copying pixels in the order of the machine copies them in the other order too. */
  lemma AllCopiedSwapped(was: seq<byte>, out: seq<byte>, image: seq<byte>, m: nat, w: nat, h: nat, pw: nat, p: nat,
                         i: nat, j: nat, swap: bool)
    requires AllCopied(was, out, image, m, w, h, pw, p, i, j)
    requires swap ==> |was| % 2 == 0 && |out| % 2 == 0 && |image| % 2 == 0 && m % 2 == 0
    ensures AllCopied(BigEndian(was, swap), BigEndian(out, swap), BigEndian(image, swap), m, w, h, pw, p, i, j)
  {
    hide Copied, BigEndian;
    var was', out', image' := BigEndian(was, swap), BigEndian(out, swap), BigEndian(image, swap);
    forall x: nat, y: nat | x < w && y < h
      ensures Copied(was', out', image', m, w, pw, p, i, j, x, y)
    {
      assert Copied(was, out, image, m, w, pw, p, i, j, x, y);
      CopiedSwapped(was, out, image, m, w, pw, p, i, j, x, y, swap);
    }
  }
}
