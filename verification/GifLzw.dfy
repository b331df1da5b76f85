/** The variable-length-code LZW decoder of Appendix F of GIF89a, on strings: what a stream of codes
    stands for, and where the sub-blocks of an image keep that stream. */
module GifLzw {
  import opened Wrappers
  import opened Bits

  // ---------- sub-blocks ----------

  /** The payload from `pos` on when `len` bytes of the current sub-block are still to come.  Each
      sub-block starts with its length; a length of zero ends the data, and so does the end of the
      input, which reads as zeros. */
  function Rest(data: seq<byte>, pos: nat, len: nat): (payload: seq<byte>)
    decreases if pos < |data| then |data| - pos else 0, len
  {
    if len > 0 then [ByteAt(data, pos)] + Rest(data, pos + 1, len - 1)
    else if ByteAt(data, pos) == 0 then []
    else Rest(data, pos + 1, ByteAt(data, pos))
  }

  /** Where the sub-blocks end: just after the zero length, or at the end of the input. */
  function BlocksEnd(data: seq<byte>, pos: nat, len: nat): nat
    decreases if pos < |data| then |data| - pos else 0, len
  {
    if len > 0 then BlocksEnd(data, pos + 1, len - 1)
    else if pos >= |data| then |data|
    else if data[pos] == 0 then pos + 1
    else BlocksEnd(data, pos + 1, data[pos])
  }

  lemma {:induction false} RestPastEnd(data: seq<byte>, pos: nat, len: nat)
    requires pos >= |data|
    ensures Rest(data, pos, len) == Rest(data, pos + 1, len)
    decreases len
  {
    if len > 0 {
      RestPastEnd(data, pos + 1, len - 1);
      RestPastEnd(data, pos, len - 1);
    }
  }

  lemma {:induction false} EndPastEnd(data: seq<byte>, pos: nat, len: nat)
    requires pos >= |data|
    ensures BlocksEnd(data, pos, len) == |data|
    decreases len
  {
    if len > 0 { EndPastEnd(data, pos + 1, len - 1); }
  }

  lemma {:induction false} EndAfterSkip(data: seq<byte>, pos: nat, len: nat)
    ensures BlocksEnd(data, pos, len) == BlocksEnd(data, pos + len, 0)
    decreases len
  {
    if len > 0 { EndAfterSkip(data, pos + 1, len - 1); }
  }

  // ---------- the decoder ----------

  const MAX_CODES: nat := 8192

  datatype Status = Finished | NoClearCode | TooManyCodes | IllegalCode

  /** The strings defined so far, the code before this one, whether a clear code has been seen, and
      the width of the next code. */
  datatype Lzw = Lzw(dict: seq<seq<byte>>, prev: Option<nat>, cleared: bool, width: nat)

  function Clear(cs: nat): nat
  {
    Pow2(cs)
  }

  /** Neither the clear code nor the end code. */
  predicate IsString(cs: nat, code: nat)
  {
    code != Clear(cs) && code != Clear(cs) + 1
  }

  function FirstStrings(n: nat): (dict: seq<seq<byte>>)
    ensures |dict| == n && forall i :: 0 <= i < n ==> dict[i] == [i % 256]
  {
    if n == 0 then [] else FirstStrings(n - 1) + [[(n - 1) % 256]]
  }

  function Fresh(cs: nat): seq<seq<byte>>
  {
    FirstStrings(Clear(cs)) + [[], []]
  }

  lemma FreshLength(cs: nat)
    ensures |Fresh(cs)| == Clear(cs) + 2
  {
  }

  function Start(cs: nat): Lzw
  {
    Lzw(Fresh(cs), None, false, cs + 1)
  }

  function Cleared(cs: nat): Lzw
  {
    Lzw(Fresh(cs), None, true, cs + 1)
  }

  ghost predicate Strings(cs: nat, dict: seq<seq<byte>>)
  {
    forall i: nat :: i < |dict| && IsString(cs, i) ==> dict[i] != []
  }

  ghost predicate WellFormed(cs: nat, l: Lzw)
  {
    && Clear(cs) + 2 <= |l.dict| <= MAX_CODES
    && Strings(cs, l.dict)
    && (l.prev.Some? ==> l.prev.value < |l.dict| && IsString(cs, l.prev.value))
    && (l.prev.None? ==> l.dict == Fresh(cs))
    && l.width >= 1
  }

  /** The string that the code after `prev` adds: the string of `prev` and the first index of the string
      of `code`.  When `code` is the one being defined, that is the first index of the string of `prev`. */
  ghost function NewString(cs: nat, dict: seq<seq<byte>>, prev: nat, code: nat): (entry: seq<byte>)
    requires Strings(cs, dict) && prev < |dict| && code <= |dict|
    requires IsString(cs, prev) && IsString(cs, code)
    ensures entry != []
  {
    dict[prev] + [if code == |dict| then dict[prev][0] else dict[code][0]]
  }

  /** Codes grow by a bit when the next code to define no longer fits, up to twelve bits. */
  function Widen(width: nat, avail: nat): nat
  {
    if avail % Pow2(width) == 0 && avail <= 0x0FFF then width + 1 else width
  }

  /** The strings after `code`. */
  ghost function Extended(cs: nat, l: Lzw, code: nat): (dict: seq<seq<byte>>)
    requires WellFormed(cs, l) && code <= |l.dict| && IsString(cs, code)
    ensures Strings(cs, dict)
  {
    match l.prev
    case None => l.dict
    case Some(prev) => l.dict + [NewString(cs, l.dict, prev, code)]
  }

  /** Why `code` is refused, if it is. */
  ghost function Refusal(cs: nat, l: Lzw, code: nat): (why: Option<Status>)
    ensures why == None ==> l.cleared && code <= |l.dict|
    ensures why != Some(Finished)
  {
    if code > |l.dict| then Some(IllegalCode)
    else if !l.cleared then Some(NoClearCode)
    else if l.prev.Some? && |l.dict| == MAX_CODES then Some(TooManyCodes)
    else if l.prev.None? && code == |l.dict| then Some(IllegalCode)
    else None
  }

  /** The decoder after `code`. */
  ghost function Next(cs: nat, l: Lzw, code: nat): (l': Lzw)
    requires WellFormed(cs, l) && IsString(cs, code) && Refusal(cs, l, code).None?
    ensures WellFormed(cs, l') && l'.prev == Some(code)
  {
    var dict := Extended(cs, l, code);
    Lzw(dict, Some(code), true, Widen(l.width, |dict|))
  }

  lemma FreshIsWellFormed(cs: nat)
    requires cs <= 12
    ensures WellFormed(cs, Start(cs)) && WellFormed(cs, Cleared(cs))
  {
    assert Pow2(12) == 4096;
    Pow2Monotone(cs, 12);
  }

  // ---------- the meaning of a stream of codes ----------

  datatype Outcome = Outcome(indices: seq<byte>, status: Status)

  function Prepend(xs: seq<byte>, o: Outcome): Outcome
  {
    Outcome(xs + o.indices, o.status)
  }

  /** What the bits of `s` from `p` up to `end` stand for.  Running out of bits ends the image. */
  ghost function Run(s: Stream, end: nat, p: nat, cs: nat, l: Lzw): (o: Outcome)
    requires cs <= 12 && WellFormed(cs, l)
    decreases if p < end then end - p else 0
  {
    if p + l.width > end then Outcome([], Finished)
    else
      var code := LsbVal(s, p, l.width);
      if code == Clear(cs) then
        FreshIsWellFormed(cs);
        Run(s, end, p + l.width, cs, Cleared(cs))
      else if code == Clear(cs) + 1 then Outcome([], Finished)
      else if Refusal(cs, l, code).Some? then Outcome([], Refusal(cs, l, code).value)
      else
        var l' := Next(cs, l, code);
        Prepend(l'.dict[code], Run(s, end, p + l.width, cs, l'))
  }

  lemma PrependTwice(xs: seq<byte>, ys: seq<byte>, o: Outcome)
    ensures Prepend(xs, Prepend(ys, o)) == Prepend(xs + ys, o)
  {
    assert xs + (ys + o.indices) == (xs + ys) + o.indices;
  }

  lemma RunEnds(s: Stream, end: nat, p: nat, cs: nat, l: Lzw)
    requires cs <= 12 && WellFormed(cs, l) && p + l.width > end
    ensures Run(s, end, p, cs, l) == Outcome([], Finished)
  {
  }

  /** One code further, with `done` decoded before it. */
  lemma RunStep(s: Stream, end: nat, p: nat, cs: nat, l: Lzw, done: seq<byte>)
    requires cs <= 12 && WellFormed(cs, l) && WellFormed(cs, Cleared(cs)) && p + l.width <= end
    ensures var code, rest := LsbVal(s, p, l.width), p + l.width;
            if code == Clear(cs) then Run(s, end, p, cs, l) == Run(s, end, rest, cs, Cleared(cs))
            else if code == Clear(cs) + 1 then Run(s, end, p, cs, l) == Outcome([], Finished)
            else if Refusal(cs, l, code).Some? then
              Run(s, end, p, cs, l) == Outcome([], Refusal(cs, l, code).value)
            else
              var l' := Next(cs, l, code);
              Prepend(done, Run(s, end, p, cs, l)) == Prepend(done + l'.dict[code], Run(s, end, rest, cs, l'))
  {
    hide LsbVal, Fresh, FirstStrings, Strings, Refusal, Clear, Extended, Widen;
    var code := LsbVal(s, p, l.width);
    if code != Clear(cs) && code != Clear(cs) + 1 && Refusal(cs, l, code).None? {
      var l' := Next(cs, l, code);
      PrependTwice(done, l'.dict[code], Run(s, end, p + l.width, cs, l'));
    }
  }

  /** What the image data at `pos` stands for with minimum code size `cs`. */
  ghost function Meaning(data: seq<byte>, pos: nat, cs: nat): Outcome
    requires cs <= 12
  {
    FreshIsWellFormed(cs);
    var payload := Rest(data, pos, 0);
    Run(StreamOf(payload), 8 * |payload|, 0, cs, Start(cs))
  }

  // ---------- the width of codes ----------

  /** The least number of bits that holds every code up to the next one to define, or twelve. */
  predicate StandardWidth(width: nat, avail: nat)
  {
    1 <= width <= 12 && Pow2(width - 1) <= avail && (width < 12 ==> avail < Pow2(width))
  }

  lemma WidenIsStandard(width: nat, avail: nat)
    requires StandardWidth(width, avail) && avail < MAX_CODES
    ensures StandardWidth(Widen(width, avail + 1), avail + 1)
  {
    Pow2Values();
    assert Pow2(12) == 4096 && Pow2(11) == 2048 && Pow2(10) == 1024;
    if width < 12 {
      Pow2Monotone(width, 11);
      if avail + 1 == Pow2(width) {
        QuotientUnique(Pow2(width), (avail + 1) / Pow2(width), (avail + 1) % Pow2(width), 1, 0);
      } else {
        DivModUnique(avail + 1, Pow2(width), 0, avail + 1);
      }
    } else if avail + 1 == 4096 {
    } else {
      assert avail + 1 > 0x0FFF || (avail + 1) % 4096 != 0;
    }
  }

  lemma FirstWidthIsStandard(cs: nat)
    requires 2 <= cs <= 11
    ensures StandardWidth(cs + 1, |Fresh(cs)|) && Widen(cs + 1, |Fresh(cs)|) == cs + 1
  {
    Pow2Values();
    assert Pow2(11) == 2048 && Pow2(12) == 4096;
    Pow2Monotone(2, cs);
    assert Pow2(cs + 1) == 2 * Pow2(cs);
    DivModUnique(Pow2(cs) + 2, Pow2(cs + 1), 0, Pow2(cs) + 2);
  }

  /** Minimum code sizes of the standard give every code its standard width. */
  lemma WidthStaysStandard(cs: nat, l: Lzw, code: nat)
    requires 2 <= cs <= 11 && WellFormed(cs, l) && IsString(cs, code) && Refusal(cs, l, code).None?
    requires StandardWidth(l.width, |l.dict|)
    ensures StandardWidth(Next(cs, l, code).width, |Next(cs, l, code).dict|)
  {
    hide StandardWidth, Widen, FirstStrings, Strings, NewString;
    if l.prev.Some? {
      WidenIsStandard(l.width, |l.dict|);
    } else {
      FreshWidth(cs, l.width);
    }
  }

  lemma FreshWidth(cs: nat, width: nat)
    requires 2 <= cs <= 11 && StandardWidth(width, |Fresh(cs)|)
    ensures Widen(width, |Fresh(cs)|) == width
  {
    Pow2Values();
    assert Pow2(11) == 2048 && Pow2(12) == 4096;
    Pow2Monotone(2, cs);
    Pow2Monotone(cs, 11);
    if width < 12 {
      DivModUnique(Pow2(cs) + 2, Pow2(width), 0, Pow2(cs) + 2);
    } else {
      DivModUnique(Pow2(cs) + 2, 4096, 0, Pow2(cs) + 2);
    }
  }

  /** The decoder gets from one state to the other by these codes. */
  ghost predicate Leads(cs: nat, l: Lzw, codes: seq<nat>, l': Lzw)
    requires cs <= 12 && WellFormed(cs, l)
    decreases |codes|
  {
    if codes == [] then l' == l
    else if codes[0] == Clear(cs) then
      FreshIsWellFormed(cs);
      Leads(cs, Cleared(cs), codes[1..], l')
    else
      IsString(cs, codes[0]) && Refusal(cs, l, codes[0]).None? && Leads(cs, Next(cs, l, codes[0]), codes[1..], l')
  }

  lemma {:induction false} StandardAlongTheWay(cs: nat, l: Lzw, codes: seq<nat>, l': Lzw)
    requires 2 <= cs <= 11 && WellFormed(cs, l) && Leads(cs, l, codes, l') && StandardWidth(l.width, |l.dict|)
    ensures StandardWidth(l'.width, |l'.dict|)
    decreases |codes|
  {
    hide StandardWidth, WellFormed, Fresh, FirstStrings, Clear, Refusal, Extended, Widen;
    if codes != [] {
      if codes[0] == Clear(cs) {
        FreshIsWellFormed(cs);
        FirstWidthIsStandard(cs);
        StandardAlongTheWay(cs, Cleared(cs), codes[1..], l');
      } else {
        WidthStaysStandard(cs, l, codes[0]);
        StandardAlongTheWay(cs, Next(cs, l, codes[0]), codes[1..], l');
      }
    }
  }

  /** In every state that codes lead to, the next code has its standard width. */
  ghost predicate AlwaysStandard(cs: nat)
    requires cs <= 12
  {
    FreshIsWellFormed(cs);
    forall codes, l :: Leads(cs, Start(cs), codes, l) ==> StandardWidth(l.width, |l.dict|)
  }

  /** The first code has its standard width for these minimum code sizes and no others: for sizes 0 and
      1 it is too narrow for the codes defined already, and for size 12 it is wider than twelve bits. */
  lemma FirstWidthIff(cs: nat)
    requires cs <= 12
    ensures StandardWidth(Start(cs).width, |Start(cs).dict|) <==> 2 <= cs <= 11
  {
    assert Pow2(1) == 2 && Pow2(2) == 4;
    if 2 <= cs <= 11 { FirstWidthIsStandard(cs); }
  }

  /** Of the sizes the code accepts, exactly those from 2 to 11 give every code its standard width, in
      every state that any codes lead to. */
  lemma WidthIsStandardIff(cs: nat)
    requires cs <= 12
    ensures AlwaysStandard(cs) <==> 2 <= cs <= 11
  {
    hide StandardWidth, WellFormed, Fresh, Leads;
    FreshIsWellFormed(cs);
    FirstWidthIff(cs);
    NoCodesLead(cs);
    if 2 <= cs <= 11 {
      forall codes, l | Leads(cs, Start(cs), codes, l)
        ensures StandardWidth(l.width, |l.dict|)
      {
        StandardAlongTheWay(cs, Start(cs), codes, l);
      }
    } else {
      assert Leads(cs, Start(cs), [], Start(cs));
    }
  }

  lemma NoCodesLead(cs: nat)
    requires cs <= 12 && WellFormed(cs, Start(cs))
    ensures Leads(cs, Start(cs), [], Start(cs))
  {
  }
}
