/** When the loops of the normal form end.  Left-recursion removal needs at most two passes unless a name
    is its own unit rule.  The loop around it ends if no chain of leading names is endless; on a cycle of
    three leading names it runs for ever. */
module NormalFormEnds {
  import opened Bits
  import opened Conversion
  import opened Grammar
  import opened Rounds
  import opened Wrappers

  // ---------- left-recursion removal ----------

  /** `a` alone is a rule of `a`. */
  ghost predicate SelfRule(g: Rules, a: Token)
  {
    HasRule(g, a, [a])
  }

  lemma AppendedIs(list: seq<Rule>, skip: nat, b: Token, r: Rule)
    requires forall q :: q in list ==> skip <= |q|
    ensures r in Appended(list, skip, b) <==> exists q :: q in list && r == q[skip..] + [b]
  {
    if r in Appended(list, skip, b) {
      var i :| 0 <= i < |list| && Appended(list, skip, b)[i] == r;
      assert list[i] in list;
    }
    if q :| q in list && r == q[skip..] + [b] {
      var i :| 0 <= i < |list| && list[i] == q;
      assert Appended(list, skip, b)[i] == r;
    }
  }

  /** What is kept while the names of a dictionary are rotated one by one. */
  ghost predicate Sound(m: Partial, count: nat)
  {
    count <= m.count && m.g.Ok() && NoEmptyRule(m.g.rules) && Bounded(m.g.rules, m.count)
  }

  ghost predicate ListFits(list: seq<Rule>, count: nat)
  {
    forall r :: r in list ==> r != [] && KnownRule(r, count)
  }

  lemma OthersRule(list: seq<Rule>, a: Token, now: nat, r: Rule)
    requires ListFits(list, now) && r in Appended(Starting(list, a, false), 0, Generated(now + 1))
    ensures r != [] && r[0] != a && KnownRule(r, now + 1)
  {
    AppendedIs(Starting(list, a, false), 0, Generated(now + 1), r);
    var q :| q in Starting(list, a, false) && r == q[0..] + [Generated(now + 1)];
    assert q in list && q != [];
  }

  lemma TailRule(list: seq<Rule>, a: Token, now: nat, r: Rule)
    requires ListFits(list, now) && r in Appended(Starting(list, a, true), 1, Generated(now + 1)) + [[SPACE]]
    ensures r != [] && KnownRule(r, now + 1)
    ensures r[0] == Generated(now + 1) ==> [a] in list
  {
    if r != [SPACE] {
      AppendedIs(Starting(list, a, true), 1, Generated(now + 1), r);
      var q :| q in Starting(list, a, true) && r == q[1..] + [Generated(now + 1)];
      assert q in list;
      TailOf(q, a, now);
    }
  }

  lemma TailOf(q: Rule, a: Token, now: nat)
    requires q != [] && q[0] == a && KnownRule(q, now)
    ensures KnownRule(q[1..] + [Generated(now + 1)], now + 1)
    ensures (q[1..] + [Generated(now + 1)])[0] == Generated(now + 1) ==> q == [a]
  {
    if |q| > 1 { assert Known(q[1], now); }
  }

  lemma SetRule(d: Dict, k: Token, list: seq<Rule>, a: Token, r: Rule)
    ensures HasRule(d.Set(k, list).rules, a, r) <==> if a == k then r in list else HasRule(d.rules, a, r)
  {
  }

  lemma KnownLater(r: Rule, count: nat, now: nat)
    requires KnownRule(r, count) && count <= now
    ensures KnownRule(r, now)
  {
  }

  lemma KnownIn(m: Partial, count: nat, x: Token, r: Rule)
    requires Sound(m, count) && HasRule(m.g.rules, x, r)
    ensures r != [] && KnownRule(r, m.count)
  {
  }

  /** The rules after one name more has been rotated. */
  lemma RotatedRule(m: Partial, a: Token, list: seq<Rule>, count: nat, x: Token, r: Rule)
    requires Sound(m, count) && !a.Terminal? && ListFits(list, m.count)
    requires RotateRules(m, a, list).Some? && HasRule(RotateRules(m, a, list).value.g.rules, x, r)
    ensures r != [] && KnownRule(r, RotateRules(m, a, list).value.count)
    ensures r[0] == x ==> [a] in list || HasRule(m.g.rules, x, r)
  {
    hide Dict.Set, KnownRule, Starting, Appended, RotateRules, Sound, ListFits;
    CountGrows(m, count);
    ListNonEmpty(list, m.count);
    RulesRotated(m, a, list);
    var left, others, b := Starting(list, a, true), Starting(list, a, false), Generated(m.count + 1);
    if left == [] {
      SetRule(m.g, a, others, x, r);
      if x == a { OthersFit(list, a, m.count, r); } else { KnownIn(m, count, x, r); }
    } else {
      var main, tail := Appended(others, 0, b), Appended(left, 1, b) + [[SPACE]];
      SetRule(m.g, a, main, x, r);
      SetRule(m.g.Set(a, main), b, tail, x, r);
      if x == b {
        TailRule(list, a, m.count, r);
      } else if x == a {
        OthersRule(list, a, m.count, r);
      } else {
        KnownIn(m, count, x, r);
        KnownLater(r, m.count, m.count + 1);
      }
    }
  }

  lemma ListNonEmpty(list: seq<Rule>, count: nat)
    requires ListFits(list, count)
    ensures NonEmptyList(list)
  {
  }

  lemma OthersFit(list: seq<Rule>, a: Token, now: nat, r: Rule)
    requires ListFits(list, now) && r in Starting(list, a, false)
    ensures r != [] && r[0] != a && KnownRule(r, now)
  {
  }

  lemma RotatedKeys(m: Partial, a: Token, list: seq<Rule>, x: Token)
    requires m.g.Ok() && !a.Terminal? && NonEmptyList(list)
    ensures RotateRules(m, a, list).Some?
    ensures var m' := RotateRules(m, a, list).value;
            m'.count <= m.count + 1 && m.count <= m'.count
            && (x in m'.g.rules ==> x == a || x in m.g.rules || (m'.count == m.count + 1 && x == Generated(m'.count)))
  {
    hide Starting, Appended;
    RulesRotated(m, a, list);
  }

  lemma SoundStep(m: Partial, a: Token, list: seq<Rule>, count: nat)
    requires Sound(m, count) && !a.Terminal? && Known(a, m.count) && ListFits(list, m.count)
    ensures RotateRules(m, a, list).Some? && Sound(RotateRules(m, a, list).value, count)
  {
    hide RotateRules, KnownRule, ListFits, Dict.Ok;
    ListNonEmpty(list, m.count);
    RotatedKeys(m, a, list, a);
    var m' := RotateRules(m, a, list).value;
    forall x | x in m'.g.rules
      ensures Known(x, m'.count)
    {
      RotatedKeys(m, a, list, x);
    }
    forall x, r: Rule | HasRule(m'.g.rules, x, r)
      ensures r != [] && KnownRule(r, m'.count)
    {
      RotatedRule(m, a, list, count, x, r);
    }
  }

  lemma FreeStep(m: Partial, a: Token, list: seq<Rule>, count: nat)
    requires Sound(m, count) && !a.Terminal? && ListFits(list, m.count) && RotateRules(m, a, list).Some?
    requires NoLeftRecursion(m.g.rules) && [a] !in list
    ensures NoLeftRecursion(RotateRules(m, a, list).value.g.rules)
  {
    hide RotateRules, ListFits, Sound, KnownRule;
    CountGrows(m, count);
    forall x, r: Rule | HasRule(RotateRules(m, a, list).value.g.rules, x, r)
      ensures r != [] && r[0] != x
    {
      RotatedRule(m, a, list, count, x, r);
    }
  }

  /** A new name is its own unit rule. */
  ghost predicate SelfAbove(m: Partial, count: nat, b: Token)
  {
    b.Generated? && count < b.n <= m.count && SelfRule(m.g.rules, b)
  }

  lemma SelfStep(m: Partial, a: Token, list: seq<Rule>, count: nat)
    requires Sound(m, count) && !a.Terminal? && NonEmptyList(list) && [a] in list
    ensures RotateRules(m, a, list).Some?
    ensures SelfAbove(RotateRules(m, a, list).value, count, Generated(m.count + 1))
  {
    hide Dict.Set, Dict.Ok, Bounded, NoEmptyRule;
    RulesRotated(m, a, list);
    var b, left, others := Generated(m.count + 1), Starting(list, a, true), Starting(list, a, false);
    var tail := Appended(left, 1, b) + [[SPACE]];
    assert [a] in left && [a][1..] + [b] == [b];
    AppendedIs(left, 1, b, [b]);
    SetRule(m.g.Set(a, Appended(others, 0, b)), b, tail, b, [b]);
  }

  lemma SelfStays(m: Partial, a: Token, list: seq<Rule>, count: nat, b: Token)
    requires m.g.Ok() && !a.Terminal? && NonEmptyList(list) && Known(a, count) && SelfAbove(m, count, b)
    ensures RotateRules(m, a, list).Some? && SelfAbove(RotateRules(m, a, list).value, count, b)
  {
    hide Dict.Set, Starting, Appended, Dict.Ok;
    RulesRotated(m, a, list);
    var left, others, c := Starting(list, a, true), Starting(list, a, false), Generated(m.count + 1);
    SetRule(m.g, a, others, b, [b]);
    var main, tail := Appended(others, 0, c), Appended(left, 1, c) + [[SPACE]];
    SetRule(m.g, a, main, b, [b]);
    SetRule(m.g.Set(a, main), c, tail, b, [b]);
  }

  lemma ListAt(d: Dict, count: nat, i: nat)
    requires d.Ok() && Bounded(d.rules, count) && NoEmptyRule(d.rules) && i < |d.keys|
    ensures var a := d.keys[i]; !a.Terminal? && Known(a, count) && ListFits(d.rules[a], count)
    ensures SelfRule(d.rules, d.keys[i]) <==> [d.keys[i]] in d.rules[d.keys[i]]
  {
    var a := d.keys[i];
    forall r | r in d.rules[a]
      ensures r != [] && KnownRule(r, count)
    {
      assert HasRule(d.rules, a, r);
    }
  }

  lemma FitsLater(list: seq<Rule>, count: nat, now: nat)
    requires ListFits(list, count) && count <= now
    ensures ListFits(list, now)
  {
  }

  lemma {:induction false} RotateSound(d: Dict, count: nat, n: nat)
    requires d.Ok() && Bounded(d.rules, count) && NoEmptyRule(d.rules) && n <= |d.keys|
    ensures RotateTo(d, count, n).Some? && Sound(RotateTo(d, count, n).value, count)
    ensures (forall a :: !SelfRule(d.rules, a)) ==> NoLeftRecursion(RotateTo(d, count, n).value.g.rules)
  {
    hide RotateRules, Sound, ListFits, SelfRule, NoLeftRecursion;
    if n == 0 {
      NothingRotated(count);
    } else {
      RotateSound(d, count, n - 1);
      var a, m := d.keys[n - 1], RotateTo(d, count, n - 1).value;
      ListAt(d, count, n - 1);
      CountGrows(m, count);
      FitsLater(d.rules[a], count, m.count);
      SoundStep(m, a, d.rules[a], count);
      if forall x :: !SelfRule(d.rules, x) {
        assert !SelfRule(d.rules, a);
        FreeStep(m, a, d.rules[a], count);
      }
    }
  }

  lemma CountGrows(m: Partial, count: nat)
    requires Sound(m, count)
    ensures count <= m.count && m.g.Ok()
  {
  }

  lemma NothingRotated(count: nat)
    ensures Sound(Partial(EMPTY, count), count) && NoLeftRecursion(EMPTY.rules)
  {
  }

  /** A name that is its own unit rule leaves a new one that is. */
  lemma {:induction false} RotateSelf(d: Dict, count: nat, n: nat, i: nat) returns (b: Token)
    requires d.Ok() && Bounded(d.rules, count) && NoEmptyRule(d.rules) && i < n <= |d.keys|
    requires SelfRule(d.rules, d.keys[i])
    ensures RotateTo(d, count, n).Some? && SelfAbove(RotateTo(d, count, n).value, count, b)
    decreases n
  {
    hide RotateRules, Sound, ListFits, SelfRule, SelfAbove, Bounded, NoEmptyRule;
    RotateSound(d, count, n - 1);
    var a, m := d.keys[n - 1], RotateTo(d, count, n - 1).value;
    ListAt(d, count, n - 1);
    CountGrows(m, count);
    ListNonEmpty(d.rules[a], count);
    if i == n - 1 {
      SelfStep(m, a, d.rules[a], count);
      b := Generated(m.count + 1);
    } else {
      b := RotateSelf(d, count, n - 1, i);
      SelfStays(m, a, d.rules[a], count, b);
    }
  }

  lemma EmptyStops(d: Dict, count: nat, a: Token)
    requires d.Ok() && HasRule(d.rules, a, [])
    ensures RotateTo(d, count, |d.keys|).None?
  {
    hide RotateTo;
    var i: nat :| i < |d.keys| && d.keys[i] == a;
    EmptyStopsAt(d, count, i);
    RotateStuck(d, count, i + 1);
  }

  lemma EmptyStopsAt(d: Dict, count: nat, i: nat)
    requires d.Ok() && i < |d.keys| && HasRule(d.rules, d.keys[i], [])
    ensures RotateTo(d, count, i + 1).None?
  {
  }

  lemma SoundIs(m: Partial, count: nat)
    requires Sound(m, count)
    ensures m.g.Ok() && Bounded(m.g.rules, m.count) && NoEmptyRule(m.g.rules)
    ensures NoLeftRecursion(m.g.rules) ==> forall a :: !SelfRule(m.g.rules, a)
  {
    hide Bounded;
  }

  lemma SelfIsRecursion(g: Rules, a: Token)
    requires SelfRule(g, a)
    ensures !NoLeftRecursion(g)
  {
  }

  lemma {:induction false} SelfForEver(d: Dict, count: nat, rounds: nat, a: Token)
    requires d.Ok() && Bounded(d.rules, count) && NoEmptyRule(d.rules) && SelfRule(d.rules, a)
    ensures LeftFree(d, count, rounds).outcome == Unfinished
    decreases rounds
  {
    hide RotateTo, Bounded, NoLeftRecursion, SelfRule, NoEmptyRule;
    if rounds > 0 {
      SelfIsRecursion(d.rules, a);
      var i: nat := SelfKey(d, a);
      var b := RotateSelf(d, count, |d.keys|, i);
      RotateSound(d, count, |d.keys|);
      var m := RotateTo(d, count, |d.keys|).value;
      SoundIs(m, count);
      SelfForEver(m.g, m.count, rounds - 1, b);
    }
  }

  lemma SelfKey(d: Dict, a: Token) returns (i: nat)
    requires d.Ok() && SelfRule(d.rules, a)
    ensures i < |d.keys| && d.keys[i] == a
  {
    i :| i < |d.keys| && d.keys[i] == a;
  }

  /** Left-recursion removal raises an exception exactly for an empty rule; otherwise two passes are enough,
      unless a name is its own unit rule: then no number of passes is. */
  lemma LeftRecursionRemovalEnds(d: Dict, count: nat, rounds: nat)
    requires d.Ok() && Bounded(d.rules, count) && rounds >= 2
    ensures LeftFree(d, count, rounds).outcome.Raised? <==> !NoEmptyRule(d.rules)
    ensures LeftFree(d, count, rounds).outcome.Converted? <==> NoEmptyRule(d.rules) && forall a :: !SelfRule(d.rules, a)
  {
    hide RotateTo, Bounded, NoLeftRecursion, SelfRule;
    if !NoEmptyRule(d.rules) {
      var a, r: Rule :| HasRule(d.rules, a, r) && r == [];
      EmptyStops(d, count, a);
    } else if a :| SelfRule(d.rules, a) {
      SelfForEver(d, count, rounds, a);
    } else {
      RotateSound(d, count, |d.keys|);
      var m := RotateTo(d, count, |d.keys|).value;
      SoundIs(m, count);
      RotateSound(m.g, m.count, |m.g.keys|);
      assert LeftFree(m.g, m.count, rounds - 1).outcome.Converted?;
    }
  }

  /** After unit removal it always ends. */
  lemma NoSelfRules(d: Dict, count: nat, rounds: nat)
    requires d.Ok() && Bounded(d.rules, count) && NoUnit(d.rules) && rounds >= 2
    ensures LeftFree(d, count, rounds).outcome != Unfinished
  {
    hide LeftFree, Bounded, NoEmptyRule;
    forall a
      ensures !SelfRule(d.rules, a)
    {
      if SelfRule(d.rules, a) { SelfIsUnit(d, a); }
    }
    LeftRecursionRemovalEnds(d, count, rounds);
  }

  lemma SelfIsUnit(d: Dict, a: Token)
    requires d.Ok() && SelfRule(d.rules, a)
    ensures !NoUnit(d.rules)
  {
    assert UnitRule([a]);
  }

  // ---------- the loop around it ----------

  ghost predicate Linked(g: Rules, a: Token, b: Token)
  {
    Link(LeadingNames, g, a, b)
  }

  lemma LeadingIs(g: Rules)
    ensures LeadingTerminals(g) <==> NoEmptyRule(g) && forall a, b :: !Linked(g, a, b)
  {
    hide Linked;
    if LeadingTerminals(g) {
      forall a, b
        ensures !Linked(g, a, b)
      {
        if Linked(g, a, b) { LinkedRule(g, a, b); }
      }
    } else if NoEmptyRule(g) {
      var a, r: Rule :| HasRule(g, a, r) && !StartsTerminal(r);
      LinkedBy(g, a, r);
    }
  }

  lemma LinkedRule(g: Rules, a: Token, b: Token)
    requires Linked(g, a, b)
    ensures !LeadingTerminals(g)
    ensures a == b ==> !NoLeftRecursion(g)
  {
  }

  lemma LinkedBy(g: Rules, a: Token, r: Rule)
    requires HasRule(g, a, r) && r != [] && !r[0].Terminal?
    ensures Linked(g, a, r[0])
  {
    LinkOf(LeadingNames, g, a, r);
  }

  lemma RecursionIs(d: Dict)
    requires d.Ok() && NoEmptyRule(d.rules) && forall a :: !Linked(d.rules, a, a)
    ensures NoLeftRecursion(d.rules)
  {
    hide Linked;
    forall a, r: Rule | HasRule(d.rules, a, r)
      ensures r != [] && r[0] != a
    {
      if r[0] == a { LinkedBy(d.rules, a, r); }
    }
  }

  /** The first `n` names of a dictionary. */
  ghost function FirstNames(d: Dict, n: nat): Dict
    requires n <= |d.keys|
  {
    Dict(d.keys[..n], map k | k in d.keys[..n] && k in d.rules :: d.rules[k])
  }

  lemma NextKey(d: Dict, n: nat)
    requires d.Ok() && n < |d.keys|
    ensures d.keys[n] in d.rules && d.keys[n] !in d.keys[..n] && d.keys[..n + 1] == d.keys[..n] + [d.keys[n]]
  {
  }

  lemma FirstNext(d: Dict, n: nat)
    requires d.Ok() && n < |d.keys|
    ensures FirstNames(d, n).Set(d.keys[n], d.rules[d.keys[n]]) == FirstNames(d, n + 1)
  {
    hide Dict.Ok;
    NextKey(d, n);
    var before, k := d.keys[..n], d.keys[n];
    var more := before + [k];
    assert forall x :: x in more <==> x in before || x == k;
    assert FirstNames(d, n).rules[k := d.rules[k]] == map x | x in more && x in d.rules :: d.rules[x];
  }

  lemma FirstAll(d: Dict)
    requires d.Ok()
    ensures FirstNames(d, |d.keys|) == d
  {
    assert d.keys[..|d.keys|] == d.keys;
  }

  /** Without left recursion a pass changes nothing. */
  lemma {:induction false} RotateKeeps(d: Dict, count: nat, n: nat)
    requires d.Ok() && NoLeftRecursion(d.rules) && n <= |d.keys|
    ensures RotateTo(d, count, n) == Some(Partial(FirstNames(d, n), count))
  {
    hide RotateRules, Dict.Ok, Dict.Set, FirstNames, NoLeftRecursion;
    if n == 0 {
      FirstNone(d);
    } else {
      RotateKeeps(d, count, n - 1);
      FirstNext(d, n - 1);
      NameKept(d, Partial(FirstNames(d, n - 1), count), n - 1);
    }
  }

  lemma FirstNone(d: Dict)
    ensures FirstNames(d, 0) == EMPTY
  {
  }

  lemma NameKept(d: Dict, m: Partial, i: nat)
    requires d.Ok() && NoLeftRecursion(d.rules) && i < |d.keys| && m.g.Ok()
    ensures RotateRules(m, d.keys[i], d.rules[d.keys[i]]) == Some(Partial(m.g.Set(d.keys[i], d.rules[d.keys[i]]), m.count))
  {
    hide RotateRules, Dict.Set;
    var a, list := d.keys[i], d.rules[d.keys[i]];
    forall r | r in list
      ensures r != [] && !StartsWith(r, a)
    {
      assert HasRule(d.rules, a, r);
    }
    NoneStart(list, a);
    AllElsewhere(list, a);
    RulesRotated(m, a, list);
  }

  lemma NoneStart(list: seq<Rule>, a: Token)
    requires forall r :: r in list ==> !StartsWith(r, a)
    ensures Starting(list, a, true) == []
  {
  }

  lemma FreeAtOnce(d: Dict, count: nat, rounds: nat)
    requires d.Ok() && NoLeftRecursion(d.rules) && rounds >= 1
    ensures LeftFree(d, count, rounds) == Counted(Converted(d), count)
  {
    hide RotateTo, NoLeftRecursion, Dict.Ok;
    RotateKeeps(d, count, |d.keys|);
    FirstAll(d);
  }

  /** Every leading name has rules, and no rule is empty. */
  ghost predicate LeadsHaveRules(g: Rules)
  {
    NoEmptyRule(g) && forall a, b :: Linked(g, a, b) ==> b in g && g[b] != []
  }

  lemma LeadRules(g: Rules, a: Token, b: Token)
    requires LeadsHaveRules(g) && Linked(g, a, b)
    ensures b in g && g[b] != []
  {
  }

  lemma LeadsReadable(g: Rules)
    requires LeadsHaveRules(g)
    ensures NoEmptyRule(g) && Readable(LeadingNames, g) && forall a, b :: !Missing(LeadingNames, g, a, b)
  {
    forall a, b
      ensures !Missing(LeadingNames, g, a, b)
    {
      if Link(LeadingNames, g, a, b) { LeadRules(g, a, b); }
    }
  }

  lemma NonEmptyReplacement(g: Rules, s: Rule, r: Rule)
    requires NoEmptyRule(g) && s != [] && Replacement(LeadingNames, g, s).Some? && r in Replacement(LeadingNames, g, s).value
    ensures r != []
  {
    if !s[0].Terminal? {
      var list := g[s[0]];
      var i :| 0 <= i < |list| && r == list[i] + s[1..];
      assert HasRule(g, s[0], list[i]);
    }
  }

  lemma NonEmptyAfter(g: Rules, h: Rules)
    requires NoEmptyRule(g) && Flattened(LeadingNames, g, h)
    ensures NoEmptyRule(h)
  {
    hide Replacement, Flat;
    forall a, r: Rule | HasRule(h, a, r)
      ensures r != []
    {
      FlatMembers(LeadingNames, g, g[a], r);
      var s :| s in g[a] && r in Replacement(LeadingNames, g, s).value;
      assert HasRule(g, a, s);
      NonEmptyReplacement(g, s, r);
    }
  }

  lemma EmptyLead(g: Rules, s: Rule)
    requires s != [] && Replacement(LeadingNames, g, s) == Some([])
    ensures !s[0].Terminal? && s[0] in g && g[s[0]] == []
  {
  }

  lemma LeadKeepsRules(g: Rules, h: Rules, a: Token, b: Token, c: Token)
    requires LeadsHaveRules(g) && Flattened(LeadingNames, g, h) && Chain(LeadingNames, g, a, b, c)
    ensures c in h && h[c] != []
  {
    hide Flat, LeadsHaveRules;
    LeadsReadable(g);
    LeadRules(g, b, c);
    if h[c] == [] {
      FlatEmpty(LeadingNames, g, g[c]);
      var s := g[c][0];
      assert s in g[c];
      assert HasRule(g, c, s);
      EmptyLead(g, s);
      LinkedBy(g, c, s);
      LeadRules(g, c, s[0]);
    }
  }

  lemma LeadsKeepRules(g: Rules, h: Rules)
    requires LeadsHaveRules(g) && Flattened(LeadingNames, g, h)
    ensures LeadsHaveRules(h)
  {
    hide Flattened, Chain, Link, Readable;
    LeadsReadable(g);
    NonEmptyAfter(g, h);
    forall a, c | Linked(h, a, c)
      ensures c in h && h[c] != []
    {
      LinksAfter(LeadingNames, g, h, a, c);
      var b :| Chain(LeadingNames, g, a, b, c);
      LeadKeepsRules(g, h, a, b, c);
    }
  }

  /** What one turn of the loop makes of rules that nothing stops and that are not left-recursive. */
  lemma Turn(d: Dict, count: nat, left: nat, rounds: nat) returns (m: Dict)
    requires d.Ok() && LeadsHaveRules(d.rules) && (forall a :: !Linked(d.rules, a, a)) && left >= 1 && rounds >= 1
    ensures m.Ok() && Flattened(LeadingNames, d.rules, m.rules) && LeadsHaveRules(m.rules)
    ensures NormalForm(d, count, left, rounds) ==
              if LeadingTerminals(m.rules) then Counted(Converted(m), count) else NormalForm(m, count, left - 1, rounds)
  {
    hide Round, LeftFree, LeadsHaveRules, Flattened, LeadingTerminals, Linked, Missing, Readable, NoLeftRecursion;
    LeadsReadable(d.rules);
    RecursionIs(d);
    FreeAtOnce(d, count, rounds);
    RoundStops(LeadingNames, d);
    RoundIs(LeadingNames, d);
    m := Round(LeadingNames, d).value;
    LeadsKeepRules(d.rules, m.rules);
  }

  lemma RankedFree(g: Rules, rank: map<Token, nat>)
    requires Ranked(LeadingNames, g, rank)
    ensures forall a :: !Linked(g, a, a)
  {
    hide Link;
  }

  /** If every leading name has rules and no chain of leading names is endless, the loop ends; the length of
      the longest chain halves with every turn. */
  lemma {:induction false} NormalFormEnds(d: Dict, count: nat, rank: map<Token, nat>, left: nat, rounds: nat)
    requires d.Ok() && LeadsHaveRules(d.rules) && left >= 1 && rounds >= 1
    requires Ranked(LeadingNames, d.rules, rank) && RankBelow(LeadingNames, d.rules, rank, Pow2(left))
    ensures NormalForm(d, count, left, rounds).outcome.Converted?
    decreases left
  {
    hide NormalForm, LeadsHaveRules, Flattened, Ranked, RankBelow, LeadingTerminals, Linked;
    RankedFree(d.rules, rank);
    var m := Turn(d, count, left, rounds);
    LeadsReadable(d.rules);
    HalvedRanks(LeadingNames, d.rules, m.rules, rank, Pow2(left - 1));
    LeadsReadable(m.rules);
    if left > 1 { NormalFormEnds(m, count, Halved(rank), left - 1, rounds); } else { NoLinkLeads(m.rules); }
  }

  lemma NoLinkLeads(g: Rules)
    requires NoEmptyRule(g) && forall a, b :: !Link(LeadingNames, g, a, b)
    ensures LeadingTerminals(g)
  {
    LeadingIs(g);
  }

  /** A number of turns that is enough. */
  lemma EnoughTurns(d: Dict, count: nat, rank: map<Token, nat>, rounds: nat) returns (left: nat)
    requires d.Ok() && LeadsHaveRules(d.rules) && rounds >= 1 && Ranked(LeadingNames, d.rules, rank)
    ensures NormalForm(d, count, left, rounds).outcome.Converted?
  {
    hide LeadsHaveRules, NormalForm, Ranked, Level;
    var top := Highest(d.rules.Keys, rank);
    left := top + 1;
    BelowPow2(left);
    forall a, b | Link(LeadingNames, d.rules, a, b)
      ensures Level(rank, a) < Pow2(left)
    {
      LinkOwner(LeadingNames, d.rules, a, b);
    }
    NormalFormEnds(d, count, rank, left, rounds);
  }

  // ---------- walks along leading names ----------

  /** `n` links lead from `a` to `b`. */
  ghost predicate Walk(g: Rules, a: Token, n: nat, b: Token)
    decreases n
  {
    if n == 0 then a == b else exists c :: Linked(g, a, c) && Walk(g, c, n - 1, b)
  }

  /** No name comes back to itself after a power of two of links: then no turn ever meets left recursion. */
  ghost predicate NoPowerWalk(g: Rules)
  {
    forall a, k: nat :: !Walk(g, a, Pow2(k), a)
  }

  lemma WalkOn(g: Rules, a: Token, c: Token, n: nat, b: Token)
    requires Linked(g, a, c) && Walk(g, c, n, b)
    ensures Walk(g, a, n + 1, b)
  {
    hide Linked;
  }

  lemma WalkFirst(g: Rules, a: Token, n: nat, b: Token) returns (c: Token)
    requires Walk(g, a, n, b) && n > 0
    ensures Linked(g, a, c) && Walk(g, c, n - 1, b)
  {
    hide Linked;
    c :| Linked(g, a, c) && Walk(g, c, n - 1, b);
  }

  lemma {:induction false} WalkJoin(g: Rules, a: Token, m: nat, b: Token, n: nat, c: Token)
    requires Walk(g, a, m, b) && Walk(g, b, n, c)
    ensures Walk(g, a, m + n, c)
    decreases m
  {
    hide Walk, Linked;
    if m == 0 {
      NoWalk(g, a, b);
    } else {
      var x := WalkFirst(g, a, m, b);
      WalkJoin(g, x, m - 1, b, n, c);
      WalkOn(g, a, x, m - 1 + n, c);
    }
  }

  lemma NoWalk(g: Rules, a: Token, b: Token)
    ensures Walk(g, a, 0, b) <==> a == b
  {
  }

  /** A walk after a turn is a walk of twice the length before it. */
  lemma {:induction false} WalkDoubles(g: Rules, h: Rules, a: Token, n: nat, b: Token)
    requires Flattened(LeadingNames, g, h) && Readable(LeadingNames, g)
    ensures Walk(h, a, n, b) <==> Walk(g, a, 2 * n, b)
    decreases n
  {
    hide Walk, Flattened, Readable, Link;
    if n == 0 {
      NoWalk(h, a, b);
      NoWalk(g, a, b);
    } else {
      if Walk(h, a, n, b) {
        var c := WalkFirst(h, a, n, b);
        LinksAfter(LeadingNames, g, h, a, c);
        var x :| Chain(LeadingNames, g, a, x, c);
        WalkDoubles(g, h, c, n - 1, b);
        WalkOn(g, x, c, 2 * (n - 1), b);
        WalkOn(g, a, x, 2 * (n - 1) + 1, b);
      }
      if Walk(g, a, 2 * n, b) {
        var x := WalkFirst(g, a, 2 * n, b);
        var c := WalkFirst(g, x, 2 * n - 1, b);
        assert Chain(LeadingNames, g, a, x, c);
        LinksAfter(LeadingNames, g, h, a, c);
        WalkDoubles(g, h, c, n - 1, b);
        WalkOn(h, a, c, n - 1, b);
      }
    }
  }

  lemma NoPowerLink(g: Rules)
    requires NoPowerWalk(g)
    ensures forall a :: !Linked(g, a, a)
  {
    hide Linked;
    forall a
      ensures !Linked(g, a, a)
    {
      if Linked(g, a, a) {
        NoWalk(g, a, a);
        WalkOn(g, a, a, 0, a);
        assert Pow2(0) == 1;
      }
    }
  }

  lemma NoPowerAfter(g: Rules, h: Rules)
    requires NoPowerWalk(g) && Flattened(LeadingNames, g, h) && Readable(LeadingNames, g)
    ensures NoPowerWalk(h)
  {
    hide Walk, Flattened, Readable;
    forall a, k: nat
      ensures !Walk(h, a, Pow2(k), a)
    {
      WalkDoubles(g, h, a, Pow2(k), a);
      var m: nat := k + 1;
      assert Pow2(m) == 2 * Pow2(k);
    }
  }

  /** A closed walk that is never met as left recursion keeps the loop going for ever. */
  lemma {:induction false} WalkForEver(d: Dict, count: nat, left: nat, rounds: nat, a: Token, n: nat)
    requires d.Ok() && LeadsHaveRules(d.rules) && NoPowerWalk(d.rules)
    requires n > 0 && Walk(d.rules, a, n, a)
    ensures NormalForm(d, count, left, rounds).outcome == Unfinished
    decreases left
  {
    hide NormalForm, LeadsHaveRules, Flattened, LeadingTerminals, Linked, Walk, NoPowerWalk, Readable;
    if left == 0 || rounds == 0 {
      NoTurns(d, count, left, rounds);
    } else {
      NoPowerLink(d.rules);
      var m := Turn(d, count, left, rounds);
      LeadsReadable(d.rules);
      NoPowerAfter(d.rules, m.rules);
      WalkJoin(d.rules, a, n, a, n, a);
      WalkDoubles(d.rules, m.rules, a, n, a);
      var c := WalkFirst(m.rules, a, n, a);
      LinkedRule(m.rules, a, c);
      WalkForEver(m, count, left - 1, rounds, a, n);
    }
  }

  lemma {:induction false} TurnsRanked(d: Dict, count: nat, left: nat, rounds: nat) returns (rank: map<Token, nat>)
    requires d.Ok() && LeadsHaveRules(d.rules) && NoPowerWalk(d.rules) && rounds >= 1
    requires NormalForm(d, count, left, rounds).outcome.Converted?
    ensures Ranked(LeadingNames, d.rules, rank)
    decreases left
  {
    hide NormalForm, LeadsHaveRules, Flattened, LeadingTerminals, Linked, Walk, NoPowerWalk, Readable, Ranked, Missing;
    if left == 0 { NoTurns(d, count, left, rounds); }
    NoPowerLink(d.rules);
    var m := Turn(d, count, left, rounds);
    LeadsReadable(d.rules);
    NoPowerAfter(d.rules, m.rules);
    if LeadingTerminals(m.rules) {
      rank := map[];
      LeadingRanked(m.rules);
    } else {
      rank := TurnsRanked(m, count, left - 1, rounds);
    }
    RanksBefore(LeadingNames, d.rules, m.rules, rank);
    rank := Lengthened(LeadingNames, d.rules, rank);
  }

  lemma LeadingRanked(g: Rules)
    requires LeadingTerminals(g)
    ensures Ranked(LeadingNames, g, map[])
  {
    hide LeadingTerminals, Link;
    LeadingIs(g);
    forall a, b
      ensures !Link(LeadingNames, g, a, b)
    {
      assert !Linked(g, a, b);
    }
  }

  /** Where left recursion is never met, the loop ends if and only if no chain of leading names is endless. */
  lemma LoopEndsIff(d: Dict, count: nat, rounds: nat)
    requires d.Ok() && LeadsHaveRules(d.rules) && NoPowerWalk(d.rules) && rounds >= 1
    ensures (exists left: nat :: NormalForm(d, count, left, rounds).outcome.Converted?) <==>
            exists rank :: Ranked(LeadingNames, d.rules, rank)
  {
    hide NormalForm, LeadsHaveRules, NoPowerWalk, Ranked;
    if rank :| Ranked(LeadingNames, d.rules, rank) { var left := EnoughTurns(d, count, rank, rounds); }
    if left: nat :| NormalForm(d, count, left, rounds).outcome.Converted? {
      var rank := TurnsRanked(d, count, left, rounds);
    }
  }

  lemma NoTurns(d: Dict, count: nat, left: nat, rounds: nat)
    requires d.Ok() && (left == 0 || rounds == 0)
    ensures NormalForm(d, count, left, rounds).outcome == Unfinished
  {
  }

  /** A -> B X, B -> C X, C -> A X, C -> 'd', X -> 'x'. */
  function Circular(): Dict
  {
    Dict([Named("A"), Named("B"), Named("C"), Named("X")],
         map[Named("A") := [[Named("B"), Named("X")]], Named("B") := [[Named("C"), Named("X")]],
             Named("C") := [[Named("A"), Named("X")], [Token.Terminal("d")]], Named("X") := [[Token.Terminal("x")]]])
  }

  lemma CircularRules(a: Token, r: Rule)
    ensures HasRule(Circular().rules, a, r) <==>
            (a == Named("A") && r == [Named("B"), Named("X")]) || (a == Named("B") && r == [Named("C"), Named("X")])
            || (a == Named("C") && (r == [Named("A"), Named("X")] || r == [Token.Terminal("d")]))
            || (a == Named("X") && r == [Token.Terminal("x")])
  {
  }

  lemma CircularNames()
    ensures Circular().Ok()
    ensures forall a :: a in [Named("A"), Named("B"), Named("C")] ==> a in Circular().rules && Circular().rules[a] != []
  {
  }

  lemma CircularOk()
    ensures NoUnit(Circular().rules) && NoEmptyRule(Circular().rules)
  {
    hide Circular;
    forall a, r: Rule | HasRule(Circular().rules, a, r)
      ensures !UnitRule(r) && r != []
    {
      CircularRules(a, r);
    }
  }

  lemma CircularLinks(a: Token, b: Token)
    ensures Linked(Circular().rules, a, b) <==>
            (a == Named("A") && b == Named("B")) || (a == Named("B") && b == Named("C")) || (a == Named("C") && b == Named("A"))
  {
    hide Circular;
    if Linked(Circular().rules, a, b) {
      var r: Rule :| HasRule(Circular().rules, a, r) && Replaced(LeadingNames, r) && r[0] == b;
      CircularRules(a, r);
    }
    CircularRules(a, [b, Named("X")]);
    if HasRule(Circular().rules, a, [b, Named("X")]) && !b.Terminal? {
      LinkedBy(Circular().rules, a, [b, Named("X")]);
    }
  }

  /** The place of a name on the circle. */
  function Place(a: Token): nat
  {
    if a == Named("A") then 0 else if a == Named("B") then 1 else 2
  }

  /** Walks on the circle go round by threes. */
  lemma {:induction false} CircularWalk(a: Token, n: nat, b: Token)
    requires Walk(Circular().rules, a, n, b) && a in [Named("A"), Named("B"), Named("C")]
    ensures b in [Named("A"), Named("B"), Named("C")] && (Place(a) + n) % 3 == Place(b)
    decreases n
  {
    hide Circular, Linked, Walk;
    if n == 0 {
      NoWalk(Circular().rules, a, b);
    } else {
      var c := WalkFirst(Circular().rules, a, n, b);
      CircularLinks(a, c);
      CircularWalk(c, n - 1, b);
    }
  }

  lemma TwiceAndThree(x: nat)
    requires x % 3 != 0
    ensures 2 * x % 3 != 0
  {
    var q := x / 3;
    if x % 3 == 1 { DivModUnique(2 * x, 3, 2 * q, 2); } else { DivModUnique(2 * x, 3, 2 * q + 1, 1); }
  }

  lemma {:induction false} PowersAndThree(k: nat)
    ensures Pow2(k) % 3 != 0
  {
    if k > 0 {
      PowersAndThree(k - 1);
      TwiceAndThree(Pow2(k - 1));
    }
  }

  lemma NotBack(p: nat, n: nat)
    requires p < 3 && (p + n) % 3 == p
    ensures n % 3 == 0
  {
  }

  lemma CircularNoPower()
    ensures NoPowerWalk(Circular().rules)
  {
    hide Circular, Linked, Walk, Pow2;
    forall a, k: nat
      ensures !Walk(Circular().rules, a, Pow2(k), a)
    {
      if Walk(Circular().rules, a, Pow2(k), a) {
        var c := WalkFirst(Circular().rules, a, Pow2(k), a);
        CircularLinks(a, c);
        CircularWalk(a, Pow2(k), a);
        NotBack(Place(a), Pow2(k));
        PowersAndThree(k);
      }
    }
  }

  lemma CircularReturns()
    ensures Walk(Circular().rules, Named("A"), 3, Named("A"))
  {
    hide Circular, Linked, Walk;
    var g := Circular().rules;
    NoWalk(g, Named("A"), Named("A"));
    CircularLinks(Named("C"), Named("A"));
    CircularLinks(Named("B"), Named("C"));
    CircularLinks(Named("A"), Named("B"));
    WalkOn(g, Named("C"), Named("A"), 0, Named("A"));
    WalkOn(g, Named("B"), Named("C"), 1, Named("A"));
    WalkOn(g, Named("A"), Named("B"), 2, Named("A"));
  }

  lemma CircularLeads()
    ensures LeadsHaveRules(Circular().rules)
  {
    hide Circular, Linked, NoUnit;
    CircularNames();
    CircularOk();
    forall a, b | Linked(Circular().rules, a, b)
      ensures b in Circular().rules && Circular().rules[b] != []
    {
      CircularLinks(a, b);
    }
  }

  /** A grammar without unit rules and without terminals behind the first token on which the loop never ends. */
  lemma CircularForEver(count: nat, left: nat, rounds: nat)
    ensures Circular().Ok() && NoUnit(Circular().rules)
    ensures NormalForm(Circular(), count, left, rounds).outcome == Unfinished
  {
    hide Circular, NormalForm, NoUnit, NoEmptyRule, LeadsHaveRules, NoPowerWalk, Walk, Dict.Ok;
    CircularNames();
    CircularOk();
    CircularLeads();
    CircularNoPower();
    CircularReturns();
    WalkForEver(Circular(), count, left, rounds, Named("A"), 3);
  }
}
