/** The decoding tables of `stbi__zhuffman` and the method that fills them. */
module HuffmanTable {
  import opened Bits
  import opened Reversal
  import opened Huffman
  import opened Wrappers

  const FAST_BITS: nat := 9
  const FAST_SIZE: nat := 512
  const MAX_SYMBOLS: nat := 288

  // ---------- what the tables have to hold ----------

  /** The first slot of the symbols of length `len` when symbols are sorted by length, then value. */
  ghost function FirstSymbol(lens: seq<nat>, len: nat): nat
  {
    if len <= 1 then 0 else FirstSymbol(lens, len - 1) + Total(lens, len - 1)
  }

  ghost function Slot(lens: seq<nat>, sym: nat): nat
    requires sym < |lens|
  {
    FirstSymbol(lens, lens[sym]) + Count(lens, sym, lens[sym])
  }

  /** The nine stream bits `x`, least significant first, start with the short code of `sym`. */
  ghost predicate FastHit(lens: seq<nat>, sym: nat, x: nat)
  {
    sym < |lens| && 1 <= lens[sym] <= FAST_BITS &&
    x % Pow2(lens[sym]) == Rev(Code(lens, sym), lens[sym])
  }

  /** Entry `v` at index `x` after the first `n` symbols: a hit of one of them, or zero if there is none. */
  ghost predicate FastEntryOk(lens: seq<nat>, n: nat, x: nat, v: nat)
  {
    if v == 0 then forall sym: nat :: sym < n ==> !FastHit(lens, sym, x)
    else v % FAST_SIZE < n && FastHit(lens, v % FAST_SIZE, x) && v / FAST_SIZE == lens[v % FAST_SIZE]
  }

  ghost predicate FastOk(lens: seq<nat>, n: nat, fast: seq<nat>)
  {
    |fast| == FAST_SIZE && forall x: nat :: x < FAST_SIZE ==> FastEntryOk(lens, n, x, fast[x])
  }

  ghost predicate SlotOk(lens: seq<nat>, sym: nat, size: seq<nat>, value: seq<nat>)
    requires sym < |lens| && |size| == |value| == MAX_SYMBOLS
  {
    Slot(lens, sym) < MAX_SYMBOLS && size[Slot(lens, sym)] == lens[sym] && value[Slot(lens, sym)] == sym
  }

  ghost predicate SlotsOk(lens: seq<nat>, n: nat, size: seq<nat>, value: seq<nat>)
  {
    n <= |lens| && |size| == |value| == MAX_SYMBOLS &&
    forall sym: nat :: sym < n && lens[sym] > 0 ==> SlotOk(lens, sym, size, value)
  }

  ghost predicate LengthEntryOk(lens: seq<nat>, len: nat, firstcode: seq<nat>, maxcode: seq<nat>, firstsymbol: seq<nat>)
    requires 1 <= len <= MAX_LENGTH && |firstcode| == |firstsymbol| == 16 && |maxcode| == 17
  {
    firstcode[len] == First(lens, len) &&
    firstsymbol[len] == FirstSymbol(lens, len) &&
    maxcode[len] == RangeEnd(lens, len)
  }

  ghost predicate LengthsTabled(lens: seq<nat>, n: nat, firstcode: seq<nat>, maxcode: seq<nat>, firstsymbol: seq<nat>)
  {
    |firstcode| == |firstsymbol| == 16 && |maxcode| == 17 && n <= MAX_LENGTH &&
    forall len :: 1 <= len <= n ==> LengthEntryOk(lens, len, firstcode, maxcode, firstsymbol)
  }

  /** The complete tables of a code, as sequences. */
  ghost predicate TableOk(lens: seq<nat>, fast: seq<nat>, firstcode: seq<nat>, maxcode: seq<nat>,
                          firstsymbol: seq<nat>, size: seq<nat>, value: seq<nat>)
  {
    && |lens| <= MAX_SYMBOLS
    && Kraft(lens)
    && FastOk(lens, |lens|, fast)
    && LengthsTabled(lens, MAX_LENGTH, firstcode, maxcode, firstsymbol)
    && maxcode[16] == 0x10000
    && SlotsOk(lens, |lens|, size, value)
  }

  /** The value an unsigned 16-bit field keeps. */
  function Word16(n: nat): (w: nat)
    ensures n < 0x10000 ==> w == n
  {
    n % 0x10000
  }

  // ---------- slots ----------

  lemma {:induction false} FirstSymbolMonotone(lens: seq<nat>, a: nat, b: nat)
    requires 1 <= a < b
    ensures FirstSymbol(lens, a) + Total(lens, a) <= FirstSymbol(lens, b)
    decreases b
  {
    if a + 1 < b { FirstSymbolMonotone(lens, a, b - 1); }
  }

  /** Slots list the used symbols by length and then by symbol ... */
  lemma SlotOrder(lens: seq<nat>, i: nat, j: nat)
    requires i < |lens| && j < |lens| && lens[i] > 0 && lens[j] > 0
    ensures Slot(lens, i) < Slot(lens, j) <==> lens[i] < lens[j] || (lens[i] == lens[j] && i < j)
  {
    RankBelowTotal(lens, i);
    RankBelowTotal(lens, j);
    if lens[i] < lens[j] {
      FirstSymbolMonotone(lens, lens[i], lens[j]);
    } else if lens[j] < lens[i] {
      FirstSymbolMonotone(lens, lens[j], lens[i]);
    } else if i < j {
      RankInjective(lens, i, j);
    } else if j < i {
      RankInjective(lens, j, i);
    }
  }

  /** ... without leaving a slot free between them. */
  lemma {:induction false} SlotTaken(lens: seq<nat>, len: nat, k: nat) returns (sym: nat)
    requires k < FirstSymbol(lens, len)
    ensures sym < |lens| && 1 <= lens[sym] < len && Slot(lens, sym) == k
    decreases len
  {
    if k < FirstSymbol(lens, len - 1) {
      sym := SlotTaken(lens, len - 1, k);
    } else {
      sym := NthOfLength(lens, |lens|, len - 1, k - FirstSymbol(lens, len - 1));
    }
  }

  /** Different symbols have different slots. */
  lemma SlotsDiffer(lens: seq<nat>, i: nat, j: nat)
    requires i < |lens| && j < |lens| && i != j && lens[i] > 0 && lens[j] > 0
    ensures Slot(lens, i) != Slot(lens, j)
  {
    SlotOrder(lens, i, j);
    SlotOrder(lens, j, i);
  }

  /** How many of the first `n` symbols have a length from 1 to `len`. */
  ghost function CountUpTo(lens: seq<nat>, n: nat, len: nat): nat
    requires n <= |lens|
    decreases lens, len
  {
    if len == 0 then 0 else CountUpTo(lens, n, len - 1) + Count(lens, n, len)
  }

  lemma {:induction false} CountUpToStep(lens: seq<nat>, n: nat, len: nat)
    requires 0 < n <= |lens|
    ensures CountUpTo(lens, n, len) == CountUpTo(lens, n - 1, len) + (if 1 <= lens[n - 1] <= len then 1 else 0)
    decreases len
  {
    if len != 0 { CountUpToStep(lens, n, len - 1); }
  }

  lemma {:induction false} CountUpToBound(lens: seq<nat>, n: nat, len: nat)
    requires n <= |lens|
    ensures CountUpTo(lens, n, len) <= n
    decreases n
  {
    if n == 0 {
      CountUpToNone(lens, len);
    } else {
      CountUpToBound(lens, n - 1, len);
      CountUpToStep(lens, n, len);
    }
  }

  lemma {:induction false} CountUpToNone(lens: seq<nat>, len: nat)
    ensures CountUpTo(lens, 0, len) == 0
  {
    if len != 0 { CountUpToNone(lens, len - 1); }
  }

  lemma {:induction false} FirstSymbolIsCount(lens: seq<nat>, len: nat)
    requires len >= 1
    ensures FirstSymbol(lens, len) == CountUpTo(lens, |lens|, len - 1)
  {
    if len > 1 { FirstSymbolIsCount(lens, len - 1); }
  }

  lemma SlotBelowCount(lens: seq<nat>, sym: nat)
    requires sym < |lens| && lens[sym] > 0
    ensures Slot(lens, sym) < |lens|
  {
    RankBelowTotal(lens, sym);
    FirstSymbolIsCount(lens, lens[sym]);
    CountUpToBound(lens, |lens|, lens[sym]);
  }

  /** Neither a first code nor a slot number is cut off by its 16-bit field. */
  lemma FitsWord(lens: seq<nat>, len: nat)
    requires |lens| <= MAX_SYMBOLS && 1 <= len <= MAX_LENGTH
    ensures Pow2(len) < 0x10000
    ensures FirstSymbol(lens, len) < 0x10000
  {
    Pow2Monotone(len, 15);
    Pow2Values();
    FirstSymbolIsCount(lens, len);
    CountUpToBound(lens, |lens|, len - 1);
  }

  // ---------- the fast table ----------

  /** An index hits a short code exactly when the stream bits it stands for start with that code. */
  lemma FastHitIff(lens: seq<nat>, s: Stream, p: nat, sym: nat)
    requires Kraft(lens) && sym < |lens| && 1 <= lens[sym] <= FAST_BITS
    ensures FastHit(lens, sym, LsbVal(s, p, FAST_BITS)) <==> CodeAt(lens, s, p, sym)
  {
    var len := lens[sym];
    LsbTake(s, p, FAST_BITS, len);
    RevOfLsb(s, p, len, len);
    LsbBound(s, p, len);
    CodeFits(lens, sym);
    RevInvolution(LsbVal(s, p, len), len);
    RevInvolution(Code(lens, sym), len);
  }

  lemma FastStep(lens: seq<nat>, n: nat, x: nat, v: nat, v': nat)
    requires n < |lens| <= MAX_SYMBOLS
    requires FastEntryOk(lens, n, x, v)
    requires v' == if FastHit(lens, n, x) then FAST_SIZE * lens[n] + n else v
    ensures FastEntryOk(lens, n + 1, x, v')
  {
    if FastHit(lens, n, x) {
      DivModUnique(v', FAST_SIZE, lens[n], n);
    }
  }

  predicate Hit(x: nat, step: nat, start: nat)
  {
    step > 0 && x % step == start
  }

  /** Between two multiples of the step no index has the same remainder. */
  lemma NextHit(step: nat, start: nat, t: nat, j: nat, x: nat)
    requires start < step && j == step * t + start && j <= x < j + step
    ensures Hit(x, step, start) <==> x == j
  {
    if x < step * (t + 1) {
      DivModUnique(x, step, t, start + (x - j));
    } else {
      AddStep(step, start, t);
      DivModUnique(x, step, t + 1, x - step * (t + 1));
    }
  }

  lemma AddStep(step: nat, start: nat, t: nat)
    ensures step * t + start + step == step * (t + 1) + start
  {
  }

  /** The fast table with `v` entered at the hits below `j`. */
  ghost predicate Entered(now: seq<nat>, was: seq<nat>, step: nat, start: nat, v: nat, j: nat)
  {
    |now| == |was| == FAST_SIZE &&
    forall x: nat :: x < FAST_SIZE ==> now[x] == if x < j && Hit(x, step, start) then v else was[x]
  }

  lemma EnterNext(now: seq<nat>, was: seq<nat>, step: nat, start: nat, v: nat, j: nat, t: nat)
    requires Entered(now, was, step, start, v, j) && j < FAST_SIZE && start < step && j == step * t + start
    ensures Entered(now[j := v], was, step, start, v, j + step)
  {
    hide Hit;
    forall x: nat | x < FAST_SIZE
      ensures now[j := v][x] == if x < j + step && Hit(x, step, start) then v else was[x]
    {
      if j <= x < j + step { NextHit(step, start, t, j, x); }
    }
  }

  lemma EnteredBeyond(now: seq<nat>, was: seq<nat>, step: nat, start: nat, v: nat, j: nat)
    requires Entered(now, was, step, start, v, j) && j >= FAST_SIZE
    ensures Entered(now, was, step, start, v, FAST_SIZE)
  {
  }

  lemma NothingEntered(was: seq<nat>, step: nat, start: nat, v: nat)
    requires |was| == FAST_SIZE && start < step
    ensures Entered(was, was, step, start, v, start)
  {
    forall x: nat | x < start
      ensures !Hit(x, step, start)
    {
      DivModUnique(x, step, 0, x);
    }
  }

  lemma TooManyOfOneLength(lens: seq<nat>)
    requires exists len :: 1 <= len <= MAX_LENGTH && Total(lens, len) > Pow2(len)
    ensures exists len :: 1 <= len <= MAX_LENGTH && EndCode(lens, len) > Pow2(len)
  {
    var len :| 1 <= len <= MAX_LENGTH && Total(lens, len) > Pow2(len);
    assert EndCode(lens, len) > Pow2(len);
  }

  // ---------- laying out codes ----------

  /** No code of a length below `n` is too long for that length. */
  ghost predicate EndsFit(lens: seq<nat>, n: nat)
  {
    forall len :: 1 <= len < n && len <= MAX_LENGTH ==> EndCode(lens, len) <= Pow2(len)
  }

  /** The next free code of each length below `n` once the first `i` symbols have theirs. */
  ghost predicate NextCodes(next: seq<nat>, lens: seq<nat>, i: nat, n: nat)
    requires i <= |lens|
  {
    |next| == 16 && forall len :: 1 <= len < n && len <= MAX_LENGTH ==> next[len] == First(lens, len) + Count(lens, i, len)
  }

  lemma FirstLength(lens: seq<nat>, next: seq<nat>)
    requires |next| == 16
    ensures First(lens, 1) == 0 && FirstSymbol(lens, 1) == 0 && EndsFit(lens, 1) && NextCodes(next, lens, 0, 1)
  {
  }

  lemma NextLength(lens: seq<nat>, i: nat)
    requires 1 <= i <= MAX_LENGTH
    ensures EndCode(lens, i) == First(lens, i) + Total(lens, i) && First(lens, i + 1) == 2 * EndCode(lens, i)
    ensures FirstSymbol(lens, i + 1) == FirstSymbol(lens, i) + Total(lens, i)
    ensures Pow2(i + 1) == 2 * Pow2(i)
    ensures EndsFit(lens, i) && EndCode(lens, i) <= Pow2(i) ==> EndsFit(lens, i + 1)
  {
    hide Total, Pow2;
    assert Pow2(i + 1) == 2 * Pow2(i) by { Pow2Next(i); }
  }

  lemma Pow2Next(i: nat)
    ensures Pow2(i + 1) == 2 * Pow2(i)
  {
  }

  lemma NextCodeKnown(next: seq<nat>, lens: seq<nat>, i: nat)
    requires 1 <= i <= MAX_LENGTH && NextCodes(next, lens, 0, i)
    ensures NextCodes(next[i := First(lens, i)], lens, 0, i + 1)
  {
    hide First;
  }

  lemma LengthOverflows(lens: seq<nat>, i: nat)
    requires 1 <= i <= MAX_LENGTH && EndCode(lens, i) > Pow2(i)
    ensures !EndsFit(lens, 16)
  {
  }

  lemma KraftLengths(lens: seq<nat>)
    requires Kraft(lens)
    ensures LengthsOk(lens)
  {
  }

  lemma LengthInTable(lens: seq<nat>, i: nat)
    requires LengthsOk(lens) && i < |lens|
    ensures lens[i] <= MAX_LENGTH
  {
  }

  /** A symbol that gets a code takes the next one of its length. */
  lemma CodeTaken(next: seq<nat>, lens: seq<nat>, i: nat)
    requires i < |lens| && NextCodes(next, lens, i, 16) && lens[i] <= MAX_LENGTH
    ensures lens[i] > 0 ==> next[lens[i]] == Code(lens, i)
    ensures NextCodes(if lens[i] > 0 then next[lens[i] := next[lens[i]] + 1] else next, lens, i + 1, 16)
  {
    hide First;
  }

  // ---------- looking a code up ----------

  /** What the tables answer for the 16 stream bits at `p`: the fast entry if there is one, else
      the search for the shortest length whose range ends above the window. */
  lemma FastLookup(lens: seq<nat>, fast: seq<nat>, s: Stream, p: nat, x: nat)
    requires |lens| <= MAX_SYMBOLS && Kraft(lens) && FastOk(lens, |lens|, fast)
    requires x == LsbVal(s, p, FAST_BITS) < FAST_SIZE
    ensures var b := fast[x];
            if b != 0 then CodeAt(lens, s, p, b % FAST_SIZE) && lens[b % FAST_SIZE] == b / FAST_SIZE <= FAST_BITS
            else forall sym: nat :: CodeAt(lens, s, p, sym) ==> lens[sym] > FAST_BITS
  {
    var b := fast[x];
    assert FastEntryOk(lens, |lens|, x, b);
    if b != 0 {
      FastHitIff(lens, s, p, b % FAST_SIZE);
    } else {
      forall sym: nat | CodeAt(lens, s, p, sym) && lens[sym] <= FAST_BITS
        ensures false
      {
        FastHitIff(lens, s, p, sym);
      }
    }
  }

  /** A window below the end of a range starts with a code at most that long. */
  lemma {:induction false} BelowRangeEnd(lens: seq<nat>, s: Stream, p: nat, len: nat) returns (sym: nat)
    requires 1 <= len <= MAX_LENGTH && MsbVal(s, p, 16) < RangeEnd(lens, len)
    ensures CodeAt(lens, s, p, sym) && lens[sym] <= len
  {
    if RangeStart(lens, len) <= MsbVal(s, p, 16) {
      sym := RangeIsCovered(lens, s, p, len);
    } else {
      assert len != 1 by { assert First(lens, 1) == 0; }
      RangesTile(lens, len - 1);
      sym := BelowRangeEnd(lens, s, p, len - 1);
    }
  }

  /** The shortest length above nine whose range ends above the window names the slot to read. */
  lemma SlowLookup(lens: seq<nat>, s: Stream, p: nat, len: nat) returns (sym: nat)
    requires FAST_BITS < len <= MAX_LENGTH && LengthsOk(lens)
    requires RangeEnd(lens, len - 1) <= MsbVal(s, p, 16) < RangeEnd(lens, len)
    ensures CodeAt(lens, s, p, sym) && lens[sym] == len
    ensures Slot(lens, sym) == MsbVal(s, p, 16) / Pow2(16 - len) - First(lens, len) + FirstSymbol(lens, len)
  {
    RangesTile(lens, len - 1);
    sym := RangeIsCovered(lens, s, p, len);
  }

  /** A window beyond all ranges starts with no code at all. */
  lemma BeyondRanges(lens: seq<nat>, s: Stream, p: nat)
    requires LengthsOk(lens) && RangeEnd(lens, MAX_LENGTH) <= MsbVal(s, p, 16)
    ensures forall sym: nat :: !CodeAt(lens, s, p, sym)
  {
    forall sym: nat | CodeAt(lens, s, p, sym)
      ensures false
    {
      WindowInRange(lens, s, p, sym);
      RangeEndMonotone(lens, lens[sym], MAX_LENGTH);
    }
  }

  // ---------- the tables ----------

  class ZHuffman {
    const fast: array<nat>
    const firstcode: array<nat>
    const maxcode: array<nat>
    const firstsymbol: array<nat>
    const size: array<nat>
    const value: array<nat>
    /** The code lengths the tables were last built from. */
    ghost var lens: seq<nat>

    constructor ()
      ensures Shape()
      ensures fresh(this) && fresh(Repr())
    {
      fast := new nat[FAST_SIZE];
      firstcode := new nat[16];
      maxcode := new nat[17];
      firstsymbol := new nat[16];
      size := new nat[MAX_SYMBOLS];
      value := new nat[MAX_SYMBOLS];
      lens := [];
    }

    ghost function Repr(): set<object>
    {
      {this, fast, firstcode, maxcode, firstsymbol, size, value}
    }

    ghost predicate Shape()
    {
      && fast.Length == FAST_SIZE && firstcode.Length == 16 && maxcode.Length == 17
      && firstsymbol.Length == 16 && size.Length == MAX_SYMBOLS && value.Length == MAX_SYMBOLS
      && fast != firstcode && fast != maxcode && fast != firstsymbol && fast != size && fast != value
      && firstcode != maxcode && firstcode != firstsymbol && firstcode != size && firstcode != value && maxcode != firstsymbol
      && maxcode != size && maxcode != value && firstsymbol != size && firstsymbol != value && size != value
    }

    ghost predicate Ready()
      reads Repr()
    {
      Shape() && TableOk(lens, fast[..], firstcode[..], maxcode[..], firstsymbol[..], size[..], value[..])
    }

    /** Counts the symbols of each length; length zero means unused and is not counted. */
    method CountLengths(sizelist: seq<nat>) returns (sizes: array<nat>)
      requires LengthsOk(sizelist)
      ensures fresh(sizes) && sizes.Length == 17
      ensures forall len :: 1 <= len <= MAX_LENGTH ==> sizes[len] == Total(sizelist, len)
    {
      sizes := new nat[17](_ => 0);
      for i := 0 to |sizelist|
        invariant forall len :: 0 <= len <= MAX_LENGTH ==> sizes[len] == Count(sizelist, i, len)
      {
        sizes[sizelist[i]] := sizes[sizelist[i]] + 1;
      }
      sizes[0] := 0;
    }

    /** No length may have more symbols than it has codes. */
    method SizesFit(sizelist: seq<nat>, sizes: array<nat>) returns (ok: bool)
      requires LengthsOk(sizelist) && sizes.Length == 17
      requires forall len :: 1 <= len <= MAX_LENGTH ==> sizes[len] == Total(sizelist, len)
      ensures ok <==> forall len :: 1 <= len <= MAX_LENGTH ==> Total(sizelist, len) <= Pow2(len)
    {
      for i := 1 to 16
        invariant forall len :: 1 <= len < i ==> Total(sizelist, len) <= Pow2(len)
      {
        if sizes[i] > Pow2(i) { return false; }
      }
      ok := true;
    }

    /** The rows of the per-length tables up to length `n` are those of the code. */
    ghost predicate RowsReady(sizelist: seq<nat>, n: nat)
      requires Shape() && n <= MAX_LENGTH
      reads firstcode, maxcode, firstsymbol
    {
      forall len {:trigger RowReady(sizelist, len)} :: 1 <= len <= n ==> RowReady(sizelist, len)
    }

    ghost predicate RowReady(sizelist: seq<nat>, len: nat)
      requires Shape() && 1 <= len <= MAX_LENGTH
      reads firstcode, maxcode, firstsymbol
    {
      firstcode[len] == First(sizelist, len) && firstsymbol[len] == FirstSymbol(sizelist, len) &&
      maxcode[len] == RangeEnd(sizelist, len)
    }

    method FillRow(sizelist: seq<nat>, i: nat, code: nat, k: nat, count: nat)
      requires Shape() && |sizelist| <= MAX_SYMBOLS && 1 <= i <= MAX_LENGTH
      requires code == First(sizelist, i) <= Pow2(i) && k == FirstSymbol(sizelist, i) && count == Total(sizelist, i)
      requires RowsReady(sizelist, i - 1)
      modifies firstcode, maxcode, firstsymbol
      ensures RowsReady(sizelist, i)
    {
      FitsWord(sizelist, i);
      ShlValue(code + count, 16 - i);
      firstcode[i] := Word16(code);
      firstsymbol[i] := Word16(k);
      maxcode[i] := Shl(code + count, 16 - i);
      assert RowReady(sizelist, i);
      forall len | 1 <= len < i
        ensures RowReady(sizelist, len)
      {
        assert old(RowReady(sizelist, len));
      }
    }

    /** Lays the codes of each length out one after the other; fails as soon as a length overflows. */
    method AssignCodes(sizelist: seq<nat>, sizes: array<nat>) returns (ok: bool, nextCode: array<nat>)
      requires Shape() && LengthsOk(sizelist) && |sizelist| <= MAX_SYMBOLS && sizes.Length == 17
      requires sizes !in {firstcode, maxcode, firstsymbol}
      requires forall len :: 1 <= len <= MAX_LENGTH ==> sizes[len] == Total(sizelist, len)
      modifies firstcode, maxcode, firstsymbol
      ensures ok <==> EndsFit(sizelist, 16)
      ensures ok ==> RowsReady(sizelist, MAX_LENGTH) && maxcode[16] == 0x10000
      ensures fresh(nextCode) && nextCode.Length == 16
      ensures ok ==> NextCodes(nextCode[..], sizelist, 0, 16)
    {
      hide First, Total, FirstSymbol, EndCode, Pow2, RowReady, RowsReady, EndsFit, NextCodes;
      nextCode := new nat[16];
      var code: nat, k: nat := 0, 0;
      FirstLength(sizelist, nextCode[..]);
      NoRows(sizelist);
      for i := 1 to 16
        invariant code == First(sizelist, i) && code <= Pow2(i)
        invariant k == FirstSymbol(sizelist, i)
        invariant EndsFit(sizelist, i) && RowsReady(sizelist, i - 1) && NextCodes(nextCode[..], sizelist, 0, i)
      {
        NextLength(sizelist, i);
        ghost var before := nextCode[..];
        nextCode[i] := code;
        assert nextCode[..] == before[i := code];
        NextCodeKnown(before, sizelist, i);
        FillRow(sizelist, i, code, k, sizes[i]);
        code := code + sizes[i];
        if sizes[i] != 0 {
          if code - 1 >= Pow2(i) {
            LengthOverflows(sizelist, i);
            return false, nextCode;
          }
        }
        code := code * 2;
        k := k + sizes[i];
      }
      EndRows(sizelist);
      ok := true;
    }

    /** The entry after the last length is above every window. */
    method EndRows(sizelist: seq<nat>)
      requires Shape() && RowsReady(sizelist, MAX_LENGTH)
      modifies maxcode
      ensures RowsReady(sizelist, MAX_LENGTH) && maxcode[16] == 0x10000
    {
      maxcode[16] := 0x10000;
      forall len | 1 <= len <= MAX_LENGTH
        ensures RowReady(sizelist, len)
      {
        assert old(RowReady(sizelist, len));
      }
    }

    lemma NoRows(sizelist: seq<nat>)
      requires Shape()
      ensures RowsReady(sizelist, 0)
    {
    }

    /** Enters `v` at every index whose low `len` bits are `start`. */
    method FillFast(start: nat, len: nat, v: nat)
      requires Shape() && 1 <= len <= FAST_BITS && start < Pow2(len)
      modifies fast
      ensures Entered(fast[..], old(fast[..]), Pow2(len), start, v, FAST_SIZE)
    {
      hide Pow2, Entered, Hit;
      ghost var was := fast[..];
      var step := Pow2(len);
      var j := start;
      ghost var t: nat := 0;
      NothingEntered(was, step, start, v);
      while j < FAST_SIZE
        invariant j == step * t + start && Entered(fast[..], was, step, start, v, j)
        decreases FAST_SIZE - j
      {
        EnterNext(fast[..], was, step, start, v, j, t);
        AddStep(step, start, t);
        ghost var before := fast[..];
        fast[j] := v;
        assert fast[..] == before[j := v];
        j := j + step;
        t := t + 1;
      }
      EnteredBeyond(fast[..], was, step, start, v, j);
    }

    /** The prefix of the tables filled by the first `n` symbols. */
    ghost predicate Filled(sizelist: seq<nat>, n: nat)
      requires Shape()
      reads fast, size, value
    {
      FastOk(sizelist, n, fast[..]) && SlotsOk(sizelist, n, size[..], value[..])
    }

    /** Enters one symbol: its slot in code order and, if its code is short, all its fast entries. */
    method FillSymbol(sizelist: seq<nat>, i: nat, code: nat)
      requires Shape() && Kraft(sizelist) && i < |sizelist| <= MAX_SYMBOLS && sizelist[i] > 0
      requires code == Code(sizelist, i) && RowsReady(sizelist, MAX_LENGTH)
      requires Filled(sizelist, i)
      modifies fast, size, value
      ensures Filled(sizelist, i + 1)
    {
      var s := sizelist[i];
      assert RowReady(sizelist, s);
      var c := code - firstcode[s] + firstsymbol[s];
      SlotBelowCount(sizelist, i);
      CodeFits(sizelist, i);
      FillSlot(sizelist, i, c);
      if s <= FAST_BITS {
        BitReverseIsRev(code, s);
        RevBound(code, s);
        FillFast(BitReverse(code, s), s, FAST_SIZE * s + i);
      }
      forall x: nat | x < FAST_SIZE
        ensures FastEntryOk(sizelist, i + 1, x, fast[x])
      {
        assert FastEntryOk(sizelist, i, x, old(fast[..])[x]);
        FastStep(sizelist, i, x, old(fast[x]), fast[x]);
      }
    }

    method FillSlot(sizelist: seq<nat>, i: nat, c: nat)
      requires Shape() && i < |sizelist| && sizelist[i] > 0
      requires c == Slot(sizelist, i) < MAX_SYMBOLS
      requires SlotsOk(sizelist, i, size[..], value[..])
      modifies size, value
      ensures SlotsOk(sizelist, i + 1, size[..], value[..])
    {
      size[c] := sizelist[i];
      value[c] := i;
      forall sym: nat | sym < i + 1 && sizelist[sym] > 0
        ensures SlotOk(sizelist, sym, size[..], value[..])
      {
        if sym < i {
          SlotsDiffer(sizelist, sym, i);
          assert SlotOk(sizelist, sym, old(size[..]), old(value[..]));
        }
      }
    }

    /** Clears the fast table: no entry is a hit of a symbol yet. */
    method ClearFast(sizelist: seq<nat>)
      requires Shape()
      modifies fast
      ensures Filled(sizelist, 0)
    {
      for i := 0 to FAST_SIZE
        invariant forall x: nat :: x < i ==> fast[x] == 0
      {
        fast[i] := 0;
      }
      forall x: nat | x < FAST_SIZE
        ensures FastEntryOk(sizelist, 0, x, fast[x])
      {
      }
    }

    /** Enters all used symbols in order; each takes the next code of its length. */
    method FillTables(sizelist: seq<nat>, nextCode: array<nat>)
      requires Shape() && Kraft(sizelist) && |sizelist| <= MAX_SYMBOLS && RowsReady(sizelist, MAX_LENGTH)
      requires nextCode.Length == 16
      requires nextCode !in {fast, firstcode, maxcode, firstsymbol, size, value}
      requires NextCodes(nextCode[..], sizelist, 0, 16) && Filled(sizelist, 0)
      modifies fast, size, value, nextCode
      ensures Filled(sizelist, |sizelist|)
    {
      hide Filled, NextCodes, Kraft, Code, RowsReady, LengthsOk;
      KraftLengths(sizelist);
      for i := 0 to |sizelist|
        invariant Filled(sizelist, i) && RowsReady(sizelist, MAX_LENGTH) && NextCodes(nextCode[..], sizelist, i, 16)
      {
        var s := sizelist[i];
        ghost var before := nextCode[..];
        LengthInTable(sizelist, i);
        CodeTaken(before, sizelist, i);
        if s != 0 {
          FillSymbol(sizelist, i, nextCode[s]);
          nextCode[s] := nextCode[s] + 1;
          assert nextCode[..] == before[s := before[s] + 1];
        } else {
          SkipUnused(sizelist, i);
        }
      }
    }

    lemma SkipUnused(sizelist: seq<nat>, i: nat)
      requires Shape() && i < |sizelist| <= MAX_SYMBOLS && sizelist[i] == 0
      requires Filled(sizelist, i)
      ensures Filled(sizelist, i + 1)
    {
      forall x: nat | x < FAST_SIZE
        ensures FastEntryOk(sizelist, i + 1, x, fast[x])
      {
        assert FastEntryOk(sizelist, i, x, fast[..][x]);
        FastStep(sizelist, i, x, fast[x], fast[x]);
      }
    }

    lemma RowsAreTable()
      requires Shape() && Kraft(lens) && |lens| <= MAX_SYMBOLS
      requires RowsReady(lens, MAX_LENGTH) && maxcode[16] == 0x10000 && Filled(lens, |lens|)
      ensures Ready()
    {
      forall len | 1 <= len <= MAX_LENGTH
        ensures LengthEntryOk(lens, len, firstcode[..], maxcode[..], firstsymbol[..])
      {
        assert RowReady(lens, len);
      }
    }

    /** Counts the lengths and lays out the codes, or finds that no prefix code has these lengths. */
    method LayOut(sizelist: seq<nat>) returns (ok: bool, nextCode: array<nat>)
      requires Shape() && |sizelist| <= MAX_SYMBOLS && LengthsOk(sizelist)
      modifies firstcode, maxcode, firstsymbol
      ensures ok <==> Kraft(sizelist)
      ensures ok ==> RowsReady(sizelist, MAX_LENGTH) && maxcode[16] == 0x10000
      ensures fresh(nextCode) && nextCode.Length == 16
      ensures ok ==> NextCodes(nextCode[..], sizelist, 0, 16)
    {
      hide First, Total, EndCode, Pow2, Kraft, NextCodes, RowsReady;
      KraftIff(sizelist);
      var sizes := CountLengths(sizelist);
      ok := SizesFit(sizelist, sizes);
      if !ok {
        TooManyOfOneLength(sizelist);
        nextCode := new nat[16];
        return;
      }
      ok, nextCode := AssignCodes(sizelist, sizes);
    }

    /** Builds the tables from a list of code lengths, or reports that no prefix code has them. */
    method Build(sizelist: seq<nat>) returns (ok: bool)
      requires Shape() && |sizelist| <= MAX_SYMBOLS && LengthsOk(sizelist)
      modifies Repr()
      ensures ok <==> Kraft(sizelist)
      ensures ok ==> Ready() && lens == sizelist
    {
      ClearFast(sizelist);
      var nextCode;
      ok, nextCode := LayOut(sizelist);
      if ok {
        FillTables(sizelist, nextCode);
        lens := sizelist;
        RowsAreTable();
      }
    }

    // ---------- reading the tables ----------

    lemma RowAt(len: nat)
      requires Ready() && 1 <= len <= MAX_LENGTH
      ensures firstcode[len] == First(lens, len) && firstsymbol[len] == FirstSymbol(lens, len)
      ensures maxcode[len] == RangeEnd(lens, len)
    {
      assert LengthEntryOk(lens, len, firstcode[..], maxcode[..], firstsymbol[..]);
    }

    lemma SlotAt(sym: nat)
      requires Ready() && sym < |lens| && lens[sym] > 0
      ensures Slot(lens, sym) < MAX_SYMBOLS
      ensures size[Slot(lens, sym)] == lens[sym] && value[Slot(lens, sym)] == sym
    {
      assert SlotOk(lens, sym, size[..], value[..]);
    }

    /** What the fast entry for the nine bits `x` at position `p` says. */
    lemma FastAt(s: Stream, p: nat, x: nat)
      requires Ready() && x == LsbVal(s, p, FAST_BITS) < FAST_SIZE
      ensures fast[x] != 0 ==> CodeAt(lens, s, p, fast[x] % FAST_SIZE)
      ensures fast[x] != 0 ==> lens[fast[x] % FAST_SIZE] == fast[x] / FAST_SIZE <= FAST_BITS
      ensures fast[x] == 0 ==> forall sym: nat :: CodeAt(lens, s, p, sym) ==> lens[sym] > FAST_BITS
    {
      FastLookup(lens, fast[..], s, p, x);
    }

    /** The first length above nine whose range ends above the window `k`; sixteen if none does. */
    method SlowLength(k: nat) returns (s: nat)
      requires Ready() && RangeEnd(lens, FAST_BITS) <= k < 0x10000
      ensures FAST_BITS < s <= 16 && RangeEnd(lens, s - 1) <= k
      ensures s < 16 ==> k < RangeEnd(lens, s)
    {
      s := FAST_BITS + 1;
      while k >= maxcode[s]
        invariant FAST_BITS < s <= 16 && RangeEnd(lens, s - 1) <= k
        decreases 16 - s
      {
        RowAt(s);
        s := s + 1;
      }
      if s < 16 { RowAt(s); }
    }

    /** The symbol in the slot that the window `k` falls into; the checks on the slot never fail. */
    method SlowSymbol(k: nat, s: nat, ghost hit: nat) returns (sym: int)
      requires Ready() && FAST_BITS < s <= MAX_LENGTH && hit < |lens| && lens[hit] == s
      requires Slot(lens, hit) == k / Pow2(16 - s) - First(lens, s) + FirstSymbol(lens, s)
      ensures sym == hit
    {
      RowAt(s);
      SlotAt(hit);
      ShrIsDivision(k, 16 - s);
      var b := Shr(k, 16 - s) - firstcode[s] + firstsymbol[s];
      if b >= MAX_SYMBOLS {
        assert false;
      } else if size[b] != s {
        assert false;
      } else {
        sym := value[b];
      }
    }
  }
}
