/** LZW encoders as the other end of the decoder: whatever an encoder of Appendix F of GIF89a writes
    is decoded to what it was given. */
module GifEncoding {
  import opened BitPacking
  import opened Bits
  import opened Wrappers
  import opened GifLzw

  /** Codes have at most twelve bits, so an encoder stops adding strings here. */
  const FULL: nat := 4096

  /** The strings after `code` when `rest` comes next. */
  function Grown(dict: seq<seq<byte>>, code: nat, rest: seq<byte>): seq<seq<byte>>
    requires code < |dict|
  {
    if rest != [] && |dict| < FULL then dict + [dict[code] + [rest[0]]] else dict
  }

  /** The choices an encoder makes for `xs`: each code names a defined string that comes next, and
      defines the longer string with the index after it; a clear code may come at any time, or never. */
  ghost predicate Encodes(cs: nat, dict: seq<seq<byte>>, xs: seq<byte>, codes: seq<nat>)
    decreases |codes|
  {
    if codes == [] then xs == []
    else if codes[0] == Clear(cs) then Encodes(cs, Fresh(cs), xs, codes[1..])
    else
      && codes[0] < |dict| && IsString(cs, codes[0])
      && |dict[codes[0]]| > 0 && dict[codes[0]] <= xs
      && var rest := xs[|dict[codes[0]]|..];
         Encodes(cs, Grown(dict, codes[0], rest), rest, codes[1..])
  }

  /** The limit of this decoder, which goes on counting strings when the table of the encoder is full:
      so many codes between clear codes and no more, `n` of them having been written already. */
  predicate Limited(cs: nat, n: nat, codes: seq<nat>)
    decreases |codes|
  {
    codes != [] ==>
      if codes[0] == Clear(cs) then Limited(cs, 0, codes[1..])
      else Clear(cs) + 2 + n <= MAX_CODES && Limited(cs, n + 1, codes[1..])
  }

  /** The stream holds `codes` from `p` on, each at the width the decoder has reached. */
  ghost predicate Carries(s: Stream, end: nat, p: nat, cs: nat, l: Lzw, codes: seq<nat>)
    requires cs <= 12 && WellFormed(cs, l)
    decreases |codes|
  {
    codes != [] ==>
      && p + l.width <= end && LsbVal(s, p, l.width) == codes[0]
      && if codes[0] == Clear(cs) then
           FreshIsWellFormed(cs);
           Carries(s, end, p + l.width, cs, Cleared(cs), codes[1..])
         else IsString(cs, codes[0]) && Refusal(cs, l, codes[0]).None? ==>
           Carries(s, end, p + l.width, cs, Next(cs, l, codes[0]), codes[1..])
  }

  // ---------- the decoder is one string behind ----------

  /** The decoder's strings and the one that the encoder has added already. */
  ghost function Ahead(l: Lzw, x: byte): seq<seq<byte>>
    requires l.prev.Some? && l.prev.value < |l.dict|
  {
    l.dict + [l.dict[l.prev.value] + [x]]
  }

  ghost predicate InStep(cs: nat, l: Lzw, dict: seq<seq<byte>>, n: nat, xs: seq<byte>)
    requires WellFormed(cs, l)
  {
    && l.cleared && |dict| <= FULL
    && |l.dict| == Clear(cs) + 2 + (if n == 0 then 0 else n - 1)
    && if n == 0 then l.prev.None? && dict == l.dict
       else
         l.prev.Some? &&
         (xs != [] ==> dict <= Ahead(l, xs[0]) && (dict == Ahead(l, xs[0]) || |dict| == FULL))
  }

  /** The decoder catches up: after the next code its strings are those the encoder chose from, also
      when that code is the one the decoder has yet to define. */
  lemma CatchUp(cs: nat, l: Lzw, dict: seq<seq<byte>>, n: nat, xs: seq<byte>, code: nat)
    requires 2 <= cs <= 8 && WellFormed(cs, l) && InStep(cs, l, dict, n, xs)
    requires code < |dict| && IsString(cs, code) && Clear(cs) + 2 + n <= MAX_CODES
    requires |dict[code]| > 0 && dict[code] <= xs
    ensures Refusal(cs, l, code).None?
    ensures Extended(cs, l, code) == if n == 0 then l.dict else Ahead(l, xs[0])
    ensures code < |Extended(cs, l, code)| && Extended(cs, l, code)[code] == dict[code]
  {
    hide Fresh, FirstStrings, Clear;
    assert dict[code][0] == xs[0];
    if n > 0 {
      var full := Ahead(l, xs[0]);
      assert dict[code] == full[code];
    }
  }

  /** ... and the encoder stays one string ahead. */
  lemma StaysInStep(cs: nat, l: Lzw, dict: seq<seq<byte>>, n: nat, xs: seq<byte>, code: nat)
    requires 2 <= cs <= 8 && WellFormed(cs, l) && InStep(cs, l, dict, n, xs)
    requires code < |dict| && IsString(cs, code) && Clear(cs) + 2 + n <= MAX_CODES
    requires |dict[code]| > 0 && dict[code] <= xs
    ensures Refusal(cs, l, code).None?
    ensures var rest := xs[|dict[code]|..];
            InStep(cs, Next(cs, l, code), Grown(dict, code, rest), n + 1, rest)
  {
    hide Fresh, FirstStrings, Strings, Refusal, IsString, Widen, Extended;
    CatchUp(cs, l, dict, n, xs, code);
    FreshSize(cs);
    var rest := xs[|dict[code]|..];
    var l' := Next(cs, l, code);
    if rest == [] {
    } else if |dict| < FULL {
      assert dict == l'.dict;
    } else {
      assert dict <= l'.dict;
    }
  }

  lemma FreshSize(cs: nat)
    requires cs <= 8
    ensures |Fresh(cs)| == Clear(cs) + 2 <= 258
  {
    Pow2Monotone(cs, 8);
    assert Pow2(8) == 256;
  }

  /** Past the limit the decoder refuses the next string. */
  lemma PastLimit(cs: nat, l: Lzw, dict: seq<seq<byte>>, n: nat, xs: seq<byte>, code: nat)
    requires 2 <= cs <= 8 && WellFormed(cs, l) && InStep(cs, l, dict, n, xs)
    requires code < |dict| && Clear(cs) + 2 + n > MAX_CODES
    ensures Refusal(cs, l, code) == Some(TooManyCodes)
  {
    FreshSize(cs);
  }

  /** Some of `xs` has been painted, and the rest is missing. */
  ghost predicate CutShort(o: Outcome, xs: seq<byte>)
  {
    o.status == TooManyCodes && |o.indices| < |xs| && o.indices == xs[..|o.indices|]
  }

  ghost predicate DecodedAs(o: Outcome, xs: seq<byte>, limited: bool)
  {
    if limited then o == Outcome(xs, Finished) else CutShort(o, xs)
  }

  lemma DecodedAfter(text: seq<byte>, o: Outcome, xs: seq<byte>, limited: bool)
    requires text <= xs && DecodedAs(o, xs[|text|..], limited)
    ensures DecodedAs(Prepend(text, o), xs, limited)
  {
  }

  /** Decoding what an encoder wrote gives what it was given, or, past the limit, less. */
  lemma {:induction false} Decoded(s: Stream, end: nat, p: nat, cs: nat, l: Lzw, dict: seq<seq<byte>>, n: nat,
                                   xs: seq<byte>, codes: seq<nat>)
    requires 2 <= cs <= 8 && WellFormed(cs, l) && InStep(cs, l, dict, n, xs)
    requires Encodes(cs, dict, xs, codes)
    requires Carries(s, end, p, cs, l, codes + [Clear(cs) + 1])
    ensures DecodedAs(Run(s, end, p, cs, l), xs, Limited(cs, n, codes))
    decreases |codes|, 1
  {
    hide Fresh, FirstStrings, Strings, Refusal, WellFormed, InStep, Widen, Extended, LsbVal, Clear;
    var all := codes + [Clear(cs) + 1];
    if codes == [] {
    } else {
      assert all[0] == codes[0] && all[1..] == codes[1..] + [Clear(cs) + 1];
      if codes[0] == Clear(cs) {
        FreshIsWellFormed(cs);
        FreshInStep(cs, xs);
        Decoded(s, end, p + l.width, cs, Cleared(cs), Fresh(cs), 0, xs, codes[1..]);
      } else {
        DecodedString(s, end, p, cs, l, dict, n, xs, codes);
      }
    }
  }

  lemma FreshInStep(cs: nat, xs: seq<byte>)
    requires cs <= 8 && WellFormed(cs, Cleared(cs))
    ensures InStep(cs, Cleared(cs), Fresh(cs), 0, xs)
  {
    FreshSize(cs);
  }

  lemma {:induction false} DecodedString(s: Stream, end: nat, p: nat, cs: nat, l: Lzw, dict: seq<seq<byte>>, n: nat,
                                         xs: seq<byte>, codes: seq<nat>)
    requires 2 <= cs <= 8 && WellFormed(cs, l) && InStep(cs, l, dict, n, xs)
    requires codes != [] && codes[0] != Clear(cs) && Encodes(cs, dict, xs, codes)
    requires Carries(s, end, p, cs, l, codes + [Clear(cs) + 1])
    ensures DecodedAs(Run(s, end, p, cs, l), xs, Limited(cs, n, codes))
    decreases |codes|, 0
  {
    hide Fresh, FirstStrings, Strings, Refusal, WellFormed, InStep, Widen, Extended, LsbVal, Clear, DecodedAs;
    var all := codes + [Clear(cs) + 1];
    assert all[0] == codes[0] && all[1..] == codes[1..] + [Clear(cs) + 1];
    var text := dict[codes[0]];
    var rest := xs[|text|..];
    if Clear(cs) + 2 + n > MAX_CODES {
      PastLimit(cs, l, dict, n, xs, codes[0]);
      NothingPainted(xs);
    } else {
      CatchUp(cs, l, dict, n, xs, codes[0]);
      StaysInStep(cs, l, dict, n, xs, codes[0]);
      var l' := Next(cs, l, codes[0]);
      assert l'.dict[codes[0]] == text;
      Decoded(s, end, p + l.width, cs, l', Grown(dict, codes[0], rest), n + 1, rest, codes[1..]);
      DecodedAfter(text, Run(s, end, p + l.width, cs, l'), xs, Limited(cs, n + 1, codes[1..]));
    }
  }

  lemma NothingPainted(xs: seq<byte>)
    requires xs != []
    ensures DecodedAs(Outcome([], TooManyCodes), xs, false)
  {
  }

  // ---------- what an encoder writes can be read ----------

  /** The number of strings defined when `n` codes have been written since the last clear code. */
  function Defined(cs: nat, n: nat): nat
  {
    Clear(cs) + 2 + (if n == 0 then 0 else n - 1)
  }

  /** The least width from `w` on that holds the next code to define, at most twelve bits. */
  function LeastWidth(avail: nat, w: nat): nat
    decreases 12 - w
  {
    if w >= 12 || avail < Pow2(w) then w else LeastWidth(avail, w + 1)
  }

  lemma {:induction false} WidthIsLeast(width: nat, avail: nat, w: nat)
    requires StandardWidth(width, avail) && 1 <= w <= width
    ensures LeastWidth(avail, w) == width
    decreases width - w
  {
    hide Pow2;
    if w < width {
      Pow2Monotone(w, width - 1);
      WidthIsLeast(width, avail, w + 1);
    }
  }

  /** `codes` at the widths of Appendix F, which the encoder knows from how many codes it has written. */
  function Written(cs: nat, n: nat, codes: seq<nat>): seq<bool>
    decreases |codes|
  {
    if codes == [] then []
    else
      NumberBits(codes[0], LeastWidth(Defined(cs, n), 1))
      + Written(cs, if codes[0] == Clear(cs) then 0 else n + 1, codes[1..])
  }

  /** Every code of an encoder has as many bits as the decoder expects, so it fits them. */
  lemma CodeFitsWidth(cs: nat, l: Lzw, dict: seq<seq<byte>>, n: nat, xs: seq<byte>, code: nat)
    requires 2 <= cs <= 8 && WellFormed(cs, l) && InStep(cs, l, dict, n, xs)
    requires StandardWidth(l.width, |l.dict|)
    requires code <= Clear(cs) + 1 || (xs != [] && code < |dict|)
    ensures code < Pow2(l.width)
  {
    hide Fresh, FirstStrings, Strings, Refusal;
    assert Pow2(12) == 4096;
    FreshSize(cs);
  }

  lemma FreshStandard(cs: nat)
    requires 2 <= cs <= 8 && WellFormed(cs, Cleared(cs))
    ensures StandardWidth(Cleared(cs).width, |Cleared(cs).dict|)
    ensures StandardWidth(Start(cs).width, |Start(cs).dict|)
  {
    FirstWidthIsStandard(cs);
  }

  /** The bits an encoder writes carry its codes, as far as the decoder takes them. */
  lemma {:induction false} WrittenIsCarried(s: Stream, end: nat, p: nat, cs: nat, l: Lzw, dict: seq<seq<byte>>, n: nat,
                                            xs: seq<byte>, codes: seq<nat>)
    requires 2 <= cs <= 8 && WellFormed(cs, l) && InStep(cs, l, dict, n, xs)
    requires StandardWidth(l.width, |l.dict|)
    requires Encodes(cs, dict, xs, codes)
    requires BitsAt(s, p, Written(cs, n, codes + [Clear(cs) + 1]))
    requires p + |Written(cs, n, codes + [Clear(cs) + 1])| <= end
    ensures Carries(s, end, p, cs, l, codes + [Clear(cs) + 1])
    decreases |codes|, 1
  {
    hide NumberBits, Grown, Ahead, Fresh, FirstStrings, Strings, Refusal, WellFormed, InStep, Widen, Extended, LsbVal, Clear,
      BitsAt, StandardWidth, LeastWidth, Defined, Limited;
    var all := codes + [Clear(cs) + 1];
    var code := all[0];
    StepWidth(cs, l, dict, n, xs);
    CodeFitsWidth(cs, l, dict, n, xs, code);
    var rest := Written(cs, if code == Clear(cs) then 0 else n + 1, all[1..]);
    BitsAtConcat(s, p, NumberBits(code, l.width), rest);
    NumberBitsRead(s, p, code, l.width);
    if codes != [] {
      assert all[1..] == codes[1..] + [Clear(cs) + 1];
      if code == Clear(cs) {
        FreshIsWellFormed(cs);
        FreshInStep(cs, xs);
        FreshStandard(cs);
        WrittenIsCarried(s, end, p + l.width, cs, Cleared(cs), Fresh(cs), 0, xs, codes[1..]);
      } else if Refusal(cs, l, code).None? {
        StringIsCarried(s, end, p, cs, l, dict, n, xs, codes);
      }
    }
  }

  lemma StepWidth(cs: nat, l: Lzw, dict: seq<seq<byte>>, n: nat, xs: seq<byte>)
    requires 2 <= cs <= 8 && WellFormed(cs, l) && InStep(cs, l, dict, n, xs) && StandardWidth(l.width, |l.dict|)
    ensures l.width == LeastWidth(Defined(cs, n), 1)
  {
    hide StandardWidth, LeastWidth, Fresh, Strings, Clear;
    WidthAtLeastOne(l.width, |l.dict|);
    WidthIsLeast(l.width, |l.dict|, 1);
  }

  lemma WidthAtLeastOne(width: nat, avail: nat)
    requires StandardWidth(width, avail)
    ensures width >= 1
  {
  }

  lemma {:induction false} StringIsCarried(s: Stream, end: nat, p: nat, cs: nat, l: Lzw, dict: seq<seq<byte>>, n: nat,
                                           xs: seq<byte>, codes: seq<nat>)
    requires 2 <= cs <= 8 && WellFormed(cs, l) && InStep(cs, l, dict, n, xs)
    requires StandardWidth(l.width, |l.dict|)
    requires codes != [] && codes[0] != Clear(cs) && Encodes(cs, dict, xs, codes)
    requires Refusal(cs, l, codes[0]).None? && IsString(cs, codes[0])
    requires BitsAt(s, p + l.width, Written(cs, n + 1, codes[1..] + [Clear(cs) + 1]))
    requires p + l.width + |Written(cs, n + 1, codes[1..] + [Clear(cs) + 1])| <= end
    ensures Carries(s, end, p + l.width, cs, Next(cs, l, codes[0]), codes[1..] + [Clear(cs) + 1])
    decreases |codes|, 0
  {
    hide Fresh, FirstStrings, Strings, Refusal, WellFormed, InStep, Widen, Extended, LsbVal, Clear, BitsAt, StandardWidth,
      Written, Carries;
    if Clear(cs) + 2 + n > MAX_CODES {
      PastLimit(cs, l, dict, n, xs, codes[0]);
    } else {
      StaysInStep(cs, l, dict, n, xs, codes[0]);
      WidthStaysStandard(cs, l, codes[0]);
      var rest := xs[|dict[codes[0]]|..];
      WrittenIsCarried(s, end, p + l.width, cs, Next(cs, l, codes[0]), Grown(dict, codes[0], rest), n + 1, rest, codes[1..]);
    }
  }

  // ---------- sub-blocks ----------

  /** Bytes in sub-blocks of at most 255, closed by an empty one. */
  function Framed(payload: seq<byte>): seq<byte>
  {
    if payload == [] then [0]
    else if |payload| <= 255 then [|payload|] + payload + [0]
    else [255] + payload[..255] + Framed(payload[255..])
  }

  lemma {:induction false} RestOfBlock(data: seq<byte>, pos: nat, len: nat)
    requires pos + len <= |data|
    ensures Rest(data, pos, len) == data[pos..pos + len] + Rest(data, pos + len, 0)
    ensures BlocksEnd(data, pos, len) == BlocksEnd(data, pos + len, 0)
    decreases len
  {
    hide Rest, BlocksEnd;
    EndAfterSkip(data, pos, len);
    if len > 0 {
      RestOfBlock(data, pos + 1, len - 1);
      RestUnfold(data, pos, len);
      var tail := data[pos + 1..pos + 1 + (len - 1)];
      assert data[pos..pos + len] == [data[pos]] + tail;
      Regroup([data[pos]], tail, Rest(data, pos + len, 0));
    }
  }

  lemma Regroup(a: seq<byte>, b: seq<byte>, c: seq<byte>)
    ensures a + (b + c) == (a + b) + c
  {
  }

  lemma RestUnfold(data: seq<byte>, pos: nat, len: nat)
    requires pos < |data| && len > 0
    ensures Rest(data, pos, len) == [data[pos]] + Rest(data, pos + 1, len - 1)
  {
  }

  /** Reading sub-blocks gives back what was framed and ends just after it. */
  lemma {:induction false} FramedRead(data: seq<byte>, pos: nat, payload: seq<byte>)
    requires pos + |Framed(payload)| <= |data| && data[pos..pos + |Framed(payload)|] == Framed(payload)
    ensures Rest(data, pos, 0) == payload
    ensures BlocksEnd(data, pos, 0) == pos + |Framed(payload)|
    decreases |payload|
  {
    var framed := Framed(payload);
    assert data[pos] == framed[0];
    if payload != [] {
      var n := framed[0];
      RestOfBlock(data, pos + 1, n);
      FirstBlock(data, pos, payload);
      if |payload| <= 255 {
        assert data[pos + 1 + n] == framed[1 + n] == 0;
      } else {
        FramedRead(data, pos + 1 + n, payload[255..]);
      }
    }
  }

  lemma FirstBlock(data: seq<byte>, pos: nat, payload: seq<byte>)
    requires pos + |Framed(payload)| <= |data| && data[pos..pos + |Framed(payload)|] == Framed(payload)
    requires payload != []
    ensures var n := if |payload| <= 255 then |payload| else 255;
            data[pos + 1..pos + 1 + n] == payload[..n]
    ensures |payload| > 255 ==>
              var rest := Framed(payload[255..]);
              |rest| == |Framed(payload)| - 256 && data[pos + 256..pos + 256 + |rest|] == rest
  {
    var framed := Framed(payload);
    var n := if |payload| <= 255 then |payload| else 255;
    Slice(data, pos, framed, 1, 1 + n);
    assert framed[1..1 + n] == payload[..n];
    if |payload| > 255 {
      Slice(data, pos, framed, 256, |framed|);
      assert framed[256..] == Framed(payload[255..]);
    }
  }

  lemma Slice(data: seq<byte>, pos: nat, part: seq<byte>, i: nat, j: nat)
    requires pos + |part| <= |data| && data[pos..pos + |part|] == part && i <= j <= |part|
    ensures data[pos + i..pos + j] == part[i..j]
  {
    forall k | 0 <= k < j - i
      ensures data[pos + i..pos + j][k] == part[i..j][k]
    {
      assert data[pos..pos + |part|][i + k] == data[pos + (i + k)];
    }
  }

  // ---------- the round trip ----------

  /** The image data of an encoder: a clear code, its codes, the end code. */
  function ImageData(cs: nat, codes: seq<nat>): seq<byte>
  {
    Framed(Pack(Written(cs, 0, [Clear(cs)] + codes + [Clear(cs) + 1])))
  }

  /** For every way an encoder can write `xs`, with early, late or no clear codes: the image data
      decodes to `xs` without an error exactly if the codes keep to the limit; otherwise the decoder
      stops with too many codes before the end. */
  lemma DecodingUndoesEncoding(cs: nat, xs: seq<byte>, codes: seq<nat>, data: seq<byte>, pos: nat)
    requires 2 <= cs <= 8 && Encodes(cs, Fresh(cs), xs, codes)
    requires pos + |ImageData(cs, codes)| <= |data|
    requires data[pos..pos + |ImageData(cs, codes)|] == ImageData(cs, codes)
    ensures Meaning(data, pos, cs) == Outcome(xs, Finished) <==> Limited(cs, 0, codes)
    ensures !Limited(cs, 0, codes) ==> CutShort(Meaning(data, pos, cs), xs)
    ensures BlocksEnd(data, pos, 0) == pos + |ImageData(cs, codes)|
  {
    hide Written, Pack, Framed, Run, Encodes, Fresh, FirstStrings, Rest, StreamOf, Clear, BlocksEnd, Limited;
    FreshIsWellFormed(cs);
    var bits := Written(cs, 0, [Clear(cs)] + codes + [Clear(cs) + 1]);
    FramedRead(data, pos, Pack(bits));
    PackRead(bits, []);
    assert Pack(bits) + [] == Pack(bits);
    StreamDecoded(StreamOf(Pack(bits)), 8 * |Pack(bits)|, cs, xs, codes);
  }

  lemma StreamDecoded(s: Stream, end: nat, cs: nat, xs: seq<byte>, codes: seq<nat>)
    requires 2 <= cs <= 8 && Encodes(cs, Fresh(cs), xs, codes) && WellFormed(cs, Start(cs))
    requires BitsAt(s, 0, Written(cs, 0, [Clear(cs)] + codes + [Clear(cs) + 1]))
    requires |Written(cs, 0, [Clear(cs)] + codes + [Clear(cs) + 1])| <= end
    ensures DecodedAs(Run(s, end, 0, cs, Start(cs)), xs, Limited(cs, 0, codes))
  {
    hide Fresh, FirstStrings, Encodes, WellFormed, InStep, BitsAt, LsbVal, Clear, LeastWidth, Defined, DecodedAs, Limited,
      StandardWidth;
    FreshIsWellFormed(cs);
    FreshInStep(cs, xs);
    FreshStandard(cs);
    ClearFits(cs);
    StepWidth(cs, Cleared(cs), Fresh(cs), 0, xs);
    var all := [Clear(cs)] + codes + [Clear(cs) + 1];
    var rest := codes + [Clear(cs) + 1];
    assert all[0] == Clear(cs) && all[1..] == rest;
    BitsAtConcat(s, 0, NumberBits(Clear(cs), cs + 1), Written(cs, 0, rest));
    NumberBitsRead(s, 0, Clear(cs), cs + 1);
    WrittenIsCarried(s, end, cs + 1, cs, Cleared(cs), Fresh(cs), 0, xs, codes);
    Decoded(s, end, cs + 1, cs, Cleared(cs), Fresh(cs), 0, xs, codes);
  }

  lemma ClearFits(cs: nat)
    ensures Clear(cs) < Pow2(cs + 1)
  {
  }

  // ---------- encoders at both sides of the limit ----------

  /** There is a way to write any indices within the limit: a clear code before each. */
  ghost function OneByOne(cs: nat, xs: seq<byte>): (codes: seq<nat>)
    requires forall i :: 0 <= i < |xs| ==> xs[i] < Clear(cs)
  {
    if xs == [] then [] else [Clear(cs), xs[0]] + OneByOne(cs, xs[1..])
  }

  lemma {:induction false} OneByOneEncodes(cs: nat, dict: seq<seq<byte>>, n: nat, xs: seq<byte>)
    requires cs <= 8 && forall i :: 0 <= i < |xs| ==> xs[i] < Clear(cs)
    ensures Encodes(cs, dict, xs, OneByOne(cs, xs)) && Limited(cs, n, OneByOne(cs, xs))
    decreases |xs|
  {
    hide Fresh, FirstStrings, Clear;
    if xs != [] {
      FreshSize(cs);
      FreshString(cs, xs[0]);
      var codes := OneByOne(cs, xs);
      assert codes[1..] == [xs[0] as nat] + OneByOne(cs, xs[1..]);
      assert codes[1..][1..] == OneByOne(cs, xs[1..]);
      OneByOneEncodes(cs, Grown(Fresh(cs), xs[0], xs[1..]), 1, xs[1..]);
    }
  }

  lemma FreshString(cs: nat, x: byte)
    requires x < Clear(cs)
    ensures x < |Fresh(cs)| && Fresh(cs)[x] == [x] && IsString(cs, x)
  {
  }

  /** `k` pixels of color 0, one code each and never a clear code. */
  function Blank(k: nat): (codes: seq<nat>)
    ensures |codes| == k
  {
    if k == 0 then [] else [0] + Blank(k - 1)
  }

  function BlankPixels(k: nat): (xs: seq<byte>)
    ensures |xs| == k && forall i :: 0 <= i < k ==> xs[i] == 0
  {
    seq(k, _ => 0)
  }

  lemma {:induction false} BlankEncodes(cs: nat, dict: seq<seq<byte>>, k: nat)
    requires 2 <= cs <= 8 && |dict| > 0 && dict[0] == [0] && IsString(cs, 0)
    ensures Encodes(cs, dict, BlankPixels(k), Blank(k))
    decreases k
  {
    if k > 0 {
      assert BlankPixels(k)[1..] == BlankPixels(k - 1);
      BlankEncodes(cs, Grown(dict, 0, BlankPixels(k - 1)), k - 1);
    }
  }

  lemma {:induction false} BlankLimited(cs: nat, n: nat, k: nat)
    requires IsString(cs, 0) && Clear(cs) + 2 <= MAX_CODES
    ensures Limited(cs, n, Blank(k)) <==> k == 0 || Clear(cs) + 2 + n + k - 1 <= MAX_CODES
    decreases k
  {
    hide Clear;
    if k > 0 { BlankLimited(cs, n + 1, k - 1); }
  }

  /** An image of 7936 pixels of color 0, written with a code for each and no clear code but the first,
      is what Appendix F allows, and the decoder refuses it; with one pixel less it does not. */
  lemma BlankImage(k: nat)
    ensures Encodes(8, Fresh(8), BlankPixels(k), Blank(k))
    ensures Limited(8, 0, Blank(k)) <==> k < 7936
    ensures Meaning(ImageData(8, Blank(7936)), 0, 8).status == TooManyCodes
  {
    hide Fresh, Encodes, Limited, ImageData, Meaning;
    BlankFirst();
    BlankEncodes(8, Fresh(8), k);
    BlankEncodes(8, Fresh(8), 7936);
    BlankLimited(8, 0, k);
    BlankLimited(8, 0, 7936);
    var data := ImageData(8, Blank(7936));
    assert data[0..0 + |data|] == data;
    DecodingUndoesEncoding(8, BlankPixels(7936), Blank(7936), data, 0);
  }

  lemma BlankFirst()
    ensures IsString(8, 0) && Clear(8) == 256 && |Fresh(8)| > 0 && Fresh(8)[0] == [0]
  {
    assert Pow2(8) == 256;
    FreshString(8, 0);
  }
}
