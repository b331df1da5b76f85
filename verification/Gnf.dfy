/** The grammar converter: unit removal, terminal lifting, left-recursion removal and leading-symbol
    substitution on ordered dictionaries of rules, with the counter for new names. */
module Gnf {
  import opened Conversion
  import opened Grammar
  import opened Substitution
  import opened LeftRecursion
  import L = Lifting
  import opened Wrappers

  // ---------- shapes ----------

  /** Terminals occur only at the beginning of rules. */
  ghost predicate TailsNonterminal(g: Rules)
  {
    forall a, r: Rule :: HasRule(g, a, r) ==> TailNonterminal(r)
  }

  ghost predicate TailNonterminal(r: Rule)
  {
    forall i :: 1 <= i < |r| ==> !r[i].Terminal?
  }

  // ---------- unit removal ----------

  /** The rules of `a` under construction: all of them stem from `g`, and the first ones of `g` are
      accounted for. */
  ghost predicate Progress(g: Rules, h: Rules, a: Token, done: seq<Rule>)
  {
    (forall r :: HasRule(h, a, r) ==> FromOld(g, a, r)) &&
    (forall s :: s in done ==> Covered(g, h, a, s))
  }

  lemma ProgressStep(g: Rules, h: Rules, h': Rules, a: Token, done: seq<Rule>, s: Rule, more: seq<Rule>)
    requires Progress(g, h, a, done)
    requires forall r :: HasRule(h', a, r) <==> HasRule(h, a, r) || r in more
    requires forall r :: r in more ==> FromOld(g, a, r)
    requires Covered(g, h', a, s)
    ensures Progress(g, h', a, done + [s])
  {
    hide FromOld;
    forall t | t in done + [s]
      ensures Covered(g, h', a, t)
    {
      if t in done { assert Covered(g, h, a, t); }
    }
  }

  lemma RewrittenElsewhere(g: Rules, h: Rules, h': Rules, a: Token)
    requires Rewritten(g, h, a)
    requires forall r :: HasRule(h', a, r) <==> HasRule(h, a, r)
    ensures Rewritten(g, h', a)
  {
    hide FromOld;
    forall s | HasRule(g, a, s)
      ensures Covered(g, h', a, s)
    {
      assert Covered(g, h, a, s);
    }
  }

  lemma ProgressDone(g: Rules, h: Rules, a: Token)
    requires a in g && Progress(g, h, a, g[a])
    ensures Rewritten(g, h, a)
  {
    hide FromOld, Covered;
  }

  /** The first `n` names are rewritten and no later one has rules yet. */
  ghost predicate RewrittenUpTo(old_: Dict, h: Rules, n: nat)
  {
    && n <= |old_.keys|
    && (forall i :: 0 <= i < n ==> Rewritten(old_.rules, h, old_.keys[i]))
    && (forall a :: a in h ==> a in old_.keys[..n])
  }

  lemma RewrittenAll(d: Dict, h: Rules)
    requires d.Ok() && RewrittenUpTo(d, h, |d.keys|)
    ensures SubstitutionStep(d.rules, h)
  {
    hide Covered, FromOld;
    forall a
      ensures Rewritten(d.rules, h, a)
    {
      if a in d.keys {
        var i :| 0 <= i < |d.keys| && d.keys[i] == a;
      }
    }
  }

  /** The rules that replace the unit rule `[b]` or, in general, a rule with leading nonterminal `b`. */
  lemma SubstitutesFromOld(g: Rules, h: Rules, a: Token, s: Rule, more: seq<Rule>)
    requires HasRule(g, a, s) && s != [] && !s[0].Terminal? && s[0] in g
    requires |more| == |g[s[0]]| && forall i :: 0 <= i < |more| ==> more[i] == g[s[0]][i] + s[1..]
    requires forall r :: r in more ==> HasRule(h, a, r)
    ensures forall r :: r in more ==> FromOld(g, a, r)
    ensures Covered(g, h, a, s)
  {
    forall r | r in more
      ensures FromOld(g, a, r)
    {
      var i :| 0 <= i < |more| && more[i] == r;
      assert Substituted(g, a, s, g[s[0]][i]);
    }
    forall d | HasRule(g, s[0], d)
      ensures HasRule(h, a, d + s[1..])
    {
      var i :| 0 <= i < |g[s[0]]| && g[s[0]][i] == d;
      assert more[i] in more;
    }
  }

  /** Accounts for one more rule of `lhs`. */
  lemma TakeRule(d: Dict, n: nat, new_: Dict, new': Dict, lhs: Token, j: nat, more: seq<Rule>)
    requires d.Ok() && n < |d.keys| && d.keys[n] == lhs && new_.Ok() && new' == new_.Extend(lhs, more)
    requires j < |d.rules[lhs]|
    requires UnderWay(d, new_, n, j)
    requires forall r :: r in more ==> FromOld(d.rules, lhs, r)
    requires Covered(d.rules, new'.rules, lhs, d.rules[lhs][j])
    ensures new'.Ok() && UnderWay(d, new', n, j + 1)
  {
    hide FromOld, Covered, Rewritten;
    var g, s := d.rules, d.rules[lhs][j];
    ExtendOk(new_, lhs, more);
    ProgressStep(g, new_.rules, new'.rules, lhs, g[lhs][..j], s, more);
    assert g[lhs][..j + 1] == g[lhs][..j] + [s];
    forall i | 0 <= i < n
      ensures Rewritten(g, new'.rules, d.keys[i])
    {
      RewrittenElsewhere(g, new_.rules, new'.rules, d.keys[i]);
    }
  }

  /** Names before number `n` are rewritten, and the first `j` rules of that one are accounted for. */
  ghost predicate UnderWay(d: Dict, new_: Dict, n: nat, j: nat)
    requires d.Ok() && n < |d.keys|
  {
    && (forall i :: 0 <= i < n ==> Rewritten(d.rules, new_.rules, d.keys[i]))
    && (forall a :: a in new_.rules ==> a in d.keys[..n + 1])
    && j <= |d.rules[d.keys[n]]|
    && Progress(d.rules, new_.rules, d.keys[n], d.rules[d.keys[n]][..j])
  }

  lemma StartName(d: Dict, new_: Dict, n: nat)
    requires d.Ok() && n < |d.keys| && RewrittenUpTo(d, new_.rules, n)
    ensures UnderWay(d, new_, n, 0)
  {
    hide Rewritten, FromOld, Covered;
  }

  lemma FinishName(d: Dict, new_: Dict, n: nat)
    requires d.Ok() && n < |d.keys| && UnderWay(d, new_, n, |d.rules[d.keys[n]]|)
    ensures RewrittenUpTo(d, new_.rules, n + 1)
  {
    hide Rewritten, FromOld, Covered;
    var list := d.rules[d.keys[n]];
    assert list[..|list|] == list;
    ProgressDone(d.rules, new_.rules, d.keys[n]);
  }

  /** One round: every unit rule is replaced by the rules of the name it consists of. */
  method RemoveUnitRound(d: Dict) returns (ok: bool, new_: Dict)
    requires d.Ok()
    ensures ok ==> new_.Ok() && RewrittenUpTo(d, new_.rules, |d.keys|)
    ensures Round(UnitRules, d) == if ok then Some(new_) else None
  {
    hide Rewritten, FromOld, Covered, UnderWay, RewrittenUpTo, RoundTo;
    new_ := EMPTY;
    NothingYet(d);
    RoundStart(UnitRules, d);
    for n := 0 to |d.keys|
      invariant new_.Ok() && RewrittenUpTo(d, new_.rules, n) && RoundTo(UnitRules, d, n, 0) == Some(new_)
    {
      var lhs := d.keys[n];
      var rules: seq<Rule> := d.rules[lhs];
      StartName(d, new_, n);
      for j := 0 to |rules|
        invariant new_.Ok() && UnderWay(d, new_, n, j) && RoundTo(UnitRules, d, n, j) == Some(new_)
      {
        var rhs := rules[j];
        var more := [rhs];
        RoundNext(UnitRules, d, n, j);
        if UnitRule(rhs) {
          if rhs[0] !in d.rules {
            RoundStuck(UnitRules, d, n, j + 1);
            return false, new_;
          }
          more := d.rules[rhs[0]];
          UnitSubstitutes(d.rules, new_, lhs, rhs, more);
        } else {
          KeptRule(d.rules, new_, lhs, rhs);
        }
        TakeRule(d, n, new_, new_.Extend(lhs, more), lhs, j, more);
        new_ := new_.Extend(lhs, more);
      }
      FinishName(d, new_, n);
      RoundName(UnitRules, d, n);
    }
    ok := true;
  }

  lemma NothingYet(d: Dict)
    ensures RewrittenUpTo(d, EMPTY.rules, 0) && EMPTY.Ok()
  {
  }

  lemma KeptRule(g: Rules, new_: Dict, a: Token, s: Rule)
    requires HasRule(g, a, s) && new_.Ok() && !a.Terminal?
    ensures forall r :: r in [s] ==> FromOld(g, a, r)
    ensures Covered(g, new_.Extend(a, [s]).rules, a, s)
  {
    ExtendOk(new_, a, [s]);
  }

  lemma UnitSubstitutes(g: Rules, new_: Dict, a: Token, s: Rule, more: seq<Rule>)
    requires HasRule(g, a, s) && UnitRule(s) && s[0] in g && more == g[s[0]] && new_.Ok() && !a.Terminal?
    ensures forall r :: r in more ==> FromOld(g, a, r)
    ensures Covered(g, new_.Extend(a, more).rules, a, s)
  {
    hide FromOld, Covered;
    ExtendOk(new_, a, more);
    forall i | 0 <= i < |more|
      ensures more[i] == g[s[0]][i] + s[1..]
    {
    }
    SubstitutesFromOld(g, new_.Extend(a, more).rules, a, s, more);
  }

  /** Looks for a remaining unit rule. */
  method HasUnit(d: Dict) returns (found: bool)
    requires d.Ok()
    ensures found <==> !NoUnit(d.rules)
  {
    hide UnitRule;
    for n := 0 to |d.keys|
      invariant forall i, r: Rule :: 0 <= i < n && HasRule(d.rules, d.keys[i], r) ==> !UnitRule(r)
    {
      var lhs := d.keys[n];
      var rules: seq<Rule> := d.rules[lhs];
      for j := 0 to |rules|
        invariant forall k :: 0 <= k < j ==> !UnitRule(rules[k])
      {
        if UnitRule(rules[j]) {
          assert HasRule(d.rules, lhs, rules[j]);
          return true;
        }
      }
    }
    forall a, r: Rule | HasRule(d.rules, a, r)
      ensures !UnitRule(r)
    {
      var i :| 0 <= i < |d.keys| && d.keys[i] == a;
    }
    found := false;
  }

  lemma UnitRoundStep(d: Dict, h: Rules, count: nat)
    requires d.Ok() && RewrittenUpTo(d, h, |d.keys|)
    ensures SubstitutionStep(d.rules, h) && SameLanguage(d.rules, h, count) && NoNewNames(d.rules, h)
    ensures Bounded(d.rules, count) ==> Bounded(h, count)
  {
    hide Rewritten, Bounded, SameLanguage, NoNewNames;
    RewrittenAll(d, h);
    SubstitutionPreserves(d.rules, h, count);
    assert forall a :: a in h ==> a in d.rules by {
      forall a | a in h
        ensures a in d.rules
      {
        assert a in d.keys[..|d.keys|] && d.keys[..|d.keys|] == d.keys;
      }
    }
    SubstitutionNames(d.rules, h);
    if Bounded(d.rules, count) { SubstitutionBounded(d.rules, h, count); }
  }

  /** Repeats the rounds until no unit rule is left. */
  method RemoveUnit(grammar: Dict, ghost count: nat, rounds: nat) returns (r: Outcome)
    requires grammar.Ok() && Bounded(grammar.rules, count)
    ensures r.Converted? ==> r.g.Ok() && NoUnit(r.g.rules) && Bounded(r.g.rules, count)
    ensures r.Converted? ==> SameLanguage(grammar.rules, r.g.rules, count) && NoNewNames(grammar.rules, r.g.rules)
    ensures r == UnitFree(grammar, rounds)
  {
    hide NoUnit, RewrittenUpTo, SameLanguage, Bounded, NoNewNames, Round;
    var old_ := grammar;
    SameAsItself(grammar.rules, count);
    for i := 0 to rounds
      invariant old_.Ok() && Bounded(old_.rules, count) && SameLanguage(grammar.rules, old_.rules, count)
      invariant NoNewNames(grammar.rules, old_.rules) && UnitFree(grammar, rounds) == UnitFree(old_, rounds - i)
    {
      var ok, new_ := RemoveUnitRound(old_);
      if !ok { return Raised; }
      UnitRoundStep(old_, new_.rules, count);
      SameLanguageTransitive(grammar.rules, old_.rules, new_.rules, count);
      NoNewNamesTransitive(grammar.rules, old_.rules, new_.rules);
      var found := HasUnit(new_);
      if !found { return Converted(new_); }
      old_ := new_;
    }
    r := Unfinished;
  }

  lemma SameAsItself(g: Rules, count: nat)
    ensures SameLanguage(g, g, count) && NoNewNames(g, g)
  {
  }

  // ---------- leading-symbol substitution ----------

  method Extensions(extendrules: seq<Rule>, endrule: Rule) returns (newrules: seq<Rule>)
    ensures newrules == Extended(extendrules, endrule)
  {
    newrules := [];
    for i := 0 to |extendrules|
      invariant |newrules| == i
      invariant forall k :: 0 <= k < i ==> newrules[k] == extendrules[k] + endrule
    {
      newrules := newrules + [extendrules[i] + endrule];
    }
  }

  lemma LeadingSubstitutes(g: Rules, new_: Dict, a: Token, s: Rule, more: seq<Rule>)
    requires HasRule(g, a, s) && s != [] && !s[0].Terminal? && s[0] in g && new_.Ok() && !a.Terminal?
    requires |more| == |g[s[0]]| && forall i :: 0 <= i < |more| ==> more[i] == g[s[0]][i] + s[1..]
    ensures forall r :: r in more ==> FromOld(g, a, r)
    ensures Covered(g, new_.Extend(a, more).rules, a, s)
  {
    hide FromOld, Covered;
    ExtendOk(new_, a, more);
    SubstitutesFromOld(g, new_.Extend(a, more).rules, a, s, more);
  }

  /** One round: a rule that starts with a nonterminal is replaced by one rule for each of that
      nonterminal's rules.  The check that the rule does not start with its own left-hand side
      never fails. */
  method SubstituteRound(d: Dict) returns (ok: bool, new_: Dict)
    requires d.Ok() && NoLeftRecursion(d.rules)
    ensures ok ==> new_.Ok() && RewrittenUpTo(d, new_.rules, |d.keys|)
    ensures Round(LeadingNames, d) == if ok then Some(new_) else None
  {
    hide Rewritten, FromOld, Covered, UnderWay, RewrittenUpTo, RoundTo, Extended;
    new_ := EMPTY;
    NothingYet(d);
    RoundStart(LeadingNames, d);
    for n := 0 to |d.keys|
      invariant new_.Ok() && RewrittenUpTo(d, new_.rules, n) && RoundTo(LeadingNames, d, n, 0) == Some(new_)
    {
      var lhs := d.keys[n];
      var rules: seq<Rule> := d.rules[lhs];
      StartName(d, new_, n);
      for j := 0 to |rules|
        invariant new_.Ok() && UnderWay(d, new_, n, j) && RoundTo(LeadingNames, d, n, j) == Some(new_)
      {
        var tokens: Rule := rules[j];
        assert HasRule(d.rules, lhs, tokens);
        RoundNext(LeadingNames, d, n, j);
        var more := [tokens];
        if (|tokens| == 1 && tokens[0].Terminal?) || tokens[0].Terminal? {
          KeptRule(d.rules, new_, lhs, tokens);
        } else {
          var startoken := tokens[0];
          assert startoken != lhs;
          var endrule := tokens[1..];
          if startoken !in d.rules {
            RoundStuck(LeadingNames, d, n, j + 1);
            return false, new_;
          }
          more := Extensions(d.rules[startoken], endrule);
          LeadingSubstitutes(d.rules, new_, lhs, tokens, more);
        }
        TakeRule(d, n, new_, new_.Extend(lhs, more), lhs, j, more);
        new_ := new_.Extend(lhs, more);
      }
      FinishName(d, new_, n);
      RoundName(LeadingNames, d, n);
    }
    ok := true;
  }

  /** Greibach normal form: every rule is one terminal followed only by nonterminals. */
  ghost predicate Greibach(g: Rules)
  {
    forall a, r: Rule :: HasRule(g, a, r) ==> StartsTerminal(r) && TailNonterminal(r)
  }

  lemma NotLeadingTerminal(r: Rule)
    requires r != [] && !r[0].Terminal?
    ensures !StartsTerminal(r)
  {
  }

  lemma LeadingTerminal(r: Rule)
    requires r != [] && r[0].Terminal?
    ensures StartsTerminal(r)
  {
  }

  /** Looks for a rule that starts with a nonterminal; an empty rule is an error. */
  method CheckGnf(d: Dict) returns (ok: bool, isgnf: bool)
    requires d.Ok()
    ensures ok ==> (isgnf <==> LeadingTerminals(d.rules))
    ensures (forall a, r: Rule :: HasRule(d.rules, a, r) ==> r != []) ==> ok
  {
    hide StartsTerminal;
    for n := 0 to |d.keys|
      invariant forall i, r: Rule :: 0 <= i < n && HasRule(d.rules, d.keys[i], r) ==> StartsTerminal(r)
    {
      var rules: seq<Rule> := d.rules[d.keys[n]];
      for j := 0 to |rules|
        invariant forall k :: 0 <= k < j ==> StartsTerminal(rules[k])
      {
        var tokens: Rule := rules[j];
        assert HasRule(d.rules, d.keys[n], tokens);
        if tokens == [] { return false, false; }
        if !tokens[0].Terminal? {
          NotLeadingTerminal(tokens);
          return true, false;
        }
        LeadingTerminal(tokens);
      }
    }
    forall a, r: Rule | HasRule(d.rules, a, r)
      ensures StartsTerminal(r)
    {
      var i :| 0 <= i < |d.keys| && d.keys[i] == a;
    }
    ok, isgnf := true, true;
  }

  /** Substitution keeps the shape of the rules. */
  lemma SubstitutionShape(g: Rules, h: Rules)
    requires SubstitutionStep(g, h) && NoUnit(g) && TailsNonterminal(g) && NoLeftRecursion(g)
    ensures NoUnit(h) && TailsNonterminal(h)
  {
    forall a, r: Rule | HasRule(h, a, r)
      ensures !UnitRule(r) && TailNonterminal(r)
    {
      assert Rewritten(g, h, a) && FromOld(g, a, r);
      if !HasRule(g, a, r) {
        var s, d :| Substituted(g, a, s, d) && r == d + s[1..];
        assert !UnitRule(s) && TailNonterminal(s) && TailNonterminal(d) && d != [];
        assert r[0] == d[0];
        forall i | 1 <= i < |r|
          ensures !r[i].Terminal?
        {
          if i >= |d| { assert r[i] == s[1 + (i - |d|)]; }
        }
      }
    }
  }

  /** No rule becomes empty. */
  lemma SubstitutionNonEmpty(d: Dict, new_: Dict)
    requires d.Ok() && RewrittenUpTo(d, new_.rules, |d.keys|) && NoLeftRecursion(d.rules)
    ensures forall a, r: Rule :: HasRule(new_.rules, a, r) ==> r != []
  {
    hide RewrittenUpTo;
    RewrittenAll(d, new_.rules);
    forall a, r: Rule | HasRule(new_.rules, a, r)
      ensures r != []
    {
      assert Rewritten(d.rules, new_.rules, a) && FromOld(d.rules, a, r);
      if !HasRule(d.rules, a, r) {
        var s, e :| Substituted(d.rules, a, s, e) && r == e + s[1..];
        assert e != [];
      }
    }
  }

  // ---------- left-recursion removal ----------

  /** New names are used for nothing but tails. */
  ghost predicate OnlyTails(h: Rules, tails: map<Token, Token>, count: nat)
  {
    forall b :: b in h && !Known(b, count) ==> exists a :: a in tails && tails[a] == b
  }

  /** Splits the rules of a name into those that start with it and the others. */
  method Partition(rules: seq<Rule>, lhs: Token) returns (ok: bool, left: seq<Rule>, others: seq<Rule>)
    ensures ok <==> NonEmptyList(rules)
    ensures ok ==> left == Starting(rules, lhs, true) && others == Starting(rules, lhs, false)
    ensures ok ==> forall r :: r in left <==> r in rules && r != [] && r[0] == lhs
    ensures ok ==> forall r :: r in others <==> r in rules && r != [] && r[0] != lhs
    ensures ok && left == [] ==> others == rules
  {
    hide Starting;
    left, others := [], [];
    NoneStarting(lhs);
    for j := 0 to |rules|
      invariant forall k :: 0 <= k < j ==> rules[k] != []
      invariant left == Starting(rules[..j], lhs, true) && others == Starting(rules[..j], lhs, false)
    {
      var tokens: Rule := rules[j];
      if tokens == [] {
        assert tokens in rules;
        return false, left, others;
      }
      StartingNext(rules, lhs, j);
      if tokens[0] == lhs {
        left := left + [tokens];
      } else {
        others := others + [tokens];
      }
    }
    assert rules[..|rules|] == rules;
    AllElsewhere(rules, lhs);
    ok := true;
  }

  lemma NoneStarting(a: Token)
    ensures Starting([], a, true) == [] && Starting([], a, false) == []
  {
  }

  lemma StartingNext(list: seq<Rule>, a: Token, j: nat)
    requires j < |list|
    ensures Starting(list[..j + 1], a, true) == Starting(list[..j], a, true) + if StartsWith(list[j], a) then [list[j]] else []
    ensures Starting(list[..j + 1], a, false) == Starting(list[..j], a, false) + if StartsWith(list[j], a) then [] else [list[j]]
  {
    assert list[..j + 1][..j] == list[..j];
  }

  /** Puts the new name at the end of every rule, dropping the first `skip` tokens. */
  method AppendName(list: seq<Rule>, skip: nat, name: Token) returns (out: seq<Rule>)
    requires forall r :: r in list ==> skip <= |r|
    ensures out == Appended(list, skip, name)
    ensures forall r :: r in out <==> exists s :: s in list && r == s[skip..] + [name]
  {
    out := [];
    for j := 0 to |list|
      invariant out == Appended(list, skip, name)[..j]
    {
      out := out + [list[j][skip..] + [name]];
    }
    AppendedMembers(list, skip, name);
  }

  lemma AppendedMembers(list: seq<Rule>, skip: nat, name: Token)
    requires forall r :: r in list ==> skip <= |r|
    ensures forall r :: r in Appended(list, skip, name) <==> exists s :: s in list && r == s[skip..] + [name]
  {
    var out := Appended(list, skip, name);
    forall s | s in list
      ensures s[skip..] + [name] in out
    {
      var i :| 0 <= i < |list| && list[i] == s;
      assert out[i] == s[skip..] + [name];
    }
  }

  ghost predicate IsTail(tails: map<Token, Token>, b: Token)
  {
    exists a :: a in tails && tails[a] == b
  }

  ghost predicate Before(d: Dict, n: nat, a: Token)
  {
    n <= |d.keys| && a in d.keys[..n]
  }

  ghost predicate TailsUpTo(d: Dict, tails: map<Token, Token>, count: nat, now: nat, n: nat)
  {
    TailsOk(tails, count) && count <= now && forall a :: a in tails ==> Before(d, n, a) && tails[a].n <= now
  }

  ghost predicate KeysUpTo(d: Dict, new_: Dict, tails: map<Token, Token>, n: nat)
  {
    forall a :: a in new_.rules <==> Before(d, n, a) || IsTail(tails, a)
  }

  ghost predicate NamesUpTo(d: Dict, new_: Dict, tails: map<Token, Token>, n: nat)
  {
    forall a :: Before(d, n, a) ==> RotatedName(d.rules, new_.rules, tails, a)
  }

  /** Names before number `n` have their left recursion removed, `tails` being the new names. */
  ghost predicate RotatedUpTo(d: Dict, new_: Dict, tails: map<Token, Token>, count: nat, now: nat, n: nat)
  {
    && d.Ok() && new_.Ok() && n <= |d.keys| && Bounded(d.rules, count)
    && TailsUpTo(d, tails, count, now, n)
    && KeysUpTo(d, new_, tails, n)
    && NamesUpTo(d, new_, tails, n)
    && (NoLeftRecursion(d.rules) ==> tails == map[] && CopiedUpTo(d, new_, n))
  }

  ghost predicate CopiedUpTo(d: Dict, new_: Dict, n: nat)
    requires n <= |d.keys|
  {
    new_.keys == d.keys[..n] && forall a :: a in d.keys[..n] ==> a in d.rules && a in new_.rules && new_.rules[a] == d.rules[a]
  }

  ghost predicate RotatedName(g: Rules, h: Rules, tails: map<Token, Token>, a: Token)
  {
    (forall r :: HasRule(g, a, r) ==> r != []) &&
    if a in tails then Rotated(g, h, a, tails[a]) else Unchanged(g, h, a)
  }

  /** Changing the rules of other names does not matter. */
  lemma RotatedNameFrame(g: Rules, h: Rules, h': Rules, tails: map<Token, Token>, tails': map<Token, Token>, a: Token)
    requires RotatedName(g, h, tails, a)
    requires a in tails <==> a in tails'
    requires a in tails ==> tails'[a] == tails[a]
    requires forall r :: HasRule(h, a, r) <==> HasRule(h', a, r)
    requires a in tails ==> forall r :: HasRule(h, tails[a], r) <==> HasRule(h', tails[a], r)
    ensures RotatedName(g, h', tails', a)
  {
    hide Recursive, Other, HasRule;
  }

  /** The rules of a left-recursive name and of its new tail name after the change. */
  lemma RotatedFromLists(g: Rules, h: Rules, a: Token, b: Token, left: seq<Rule>, others: seq<Rule>,
                         mains: seq<Rule>, ends: seq<Rule>)
    requires a in g && a != b
    requires forall r :: r in left <==> r in g[a] && r != [] && r[0] == a
    requires forall r :: r in others <==> r in g[a] && r != [] && r[0] != a
    requires forall r :: r in mains <==> exists s :: s in others && r == s[0..] + [b]
    requires forall r :: r in ends <==> exists s :: s in left && r == s[1..] + [b]
    requires forall r :: HasRule(h, a, r) <==> r in mains
    requires forall r :: HasRule(h, b, r) <==> r in ends + [[SPACE]]
    ensures Rotated(g, h, a, b)
  {
    forall r | HasRule(h, a, r)
      ensures exists y :: Other(g, a, y) && r == y + [b]
    {
      var s :| s in others && r == s[0..] + [b];
      assert s[0..] == s;
      assert Other(g, a, s);
    }
    forall y | Other(g, a, y)
      ensures HasRule(h, a, y + [b])
    {
      assert y in others && y[0..] == y;
    }
    forall r | HasRule(h, b, r) && r != [SPACE]
      ensures exists x :: Recursive(g, a, x) && r == x + [b]
    {
      var s :| s in left && r == s[1..] + [b];
      assert [a] + s[1..] == s;
      assert Recursive(g, a, s[1..]);
    }
    forall x | Recursive(g, a, x)
      ensures HasRule(h, b, x + [b])
    {
      assert [a] + x in left && ([a] + x)[1..] == x;
    }
  }

  lemma BeforeNext(d: Dict, n: nat)
    requires d.Ok() && n < |d.keys|
    ensures forall a :: Before(d, n + 1, a) <==> Before(d, n, a) || a == d.keys[n]
    ensures !Before(d, n, d.keys[n])
  {
    assert d.keys[..n + 1] == d.keys[..n] + [d.keys[n]];
    forall a
      ensures Before(d, n + 1, a) <==> Before(d, n, a) || a == d.keys[n]
    {
      assert a in d.keys[..n + 1] <==> a in d.keys[..n] || a == d.keys[n];
    }
  }

  /** A name not yet reached has no tail and is not a new name. */
  lemma FreshKey(d: Dict, tails: map<Token, Token>, count: nat, now: nat, n: nat)
    requires Bounded(d.rules, count) && n < |d.keys| && d.Ok() && TailsUpTo(d, tails, count, now, n)
    ensures d.keys[n] !in tails && Known(d.keys[n], count) && !d.keys[n].Terminal? && !IsTail(tails, d.keys[n])
  {
    BeforeNext(d, n);
    assert d.keys[n] in d.rules;
  }

  lemma UnchangedName(g: Rules, h: Rules, tails: map<Token, Token>, a: Token)
    requires a in g && a in h && h[a] == g[a] && a !in tails
    requires forall r :: r in g[a] ==> r != []
    ensures RotatedName(g, h, tails, a)
  {
  }

  /** Entering rules under fresh names leaves the names already done as they are. */
  lemma NamesFrame(d: Dict, new_: Dict, new': Dict, tails: map<Token, Token>, tails': map<Token, Token>, n: nat,
                   lhs: Token, b: Token)
    requires NamesUpTo(d, new_, tails, n)
    requires !Before(d, n, lhs) && !Before(d, n, b) && !IsTail(tails, lhs) && !IsTail(tails, b)
    requires forall a, r :: a != lhs && a != b ==> (HasRule(new'.rules, a, r) <==> HasRule(new_.rules, a, r))
    requires forall a :: a != lhs ==> (a in tails <==> a in tails') && (a in tails ==> tails'[a] == tails[a])
    ensures forall a :: Before(d, n, a) ==> RotatedName(d.rules, new'.rules, tails', a)
  {
    hide Rotated, Unchanged, HasRule, RotatedName;
    forall a | Before(d, n, a)
      ensures RotatedName(d.rules, new'.rules, tails', a)
    {
      if a in tails { assert IsTail(tails, tails[a]); }
      RotatedNameFrame(d.rules, new_.rules, new'.rules, tails, tails', a);
    }
  }

  lemma CopiedStep(d: Dict, new_: Dict, n: nat)
    requires d.Ok() && new_.Ok() && n < |d.keys| && CopiedUpTo(d, new_, n)
    ensures CopiedUpTo(d, new_.Set(d.keys[n], d.rules[d.keys[n]]), n + 1)
  {
    assert d.keys[..n + 1] == d.keys[..n] + [d.keys[n]];
    assert d.keys[n] !in new_.rules;
  }

  lemma SetFrame(d: Dict, k: Token, list: seq<Rule>)
    ensures forall r :: HasRule(d.Set(k, list).rules, k, r) <==> r in list
    ensures forall a, r :: a != k ==> (HasRule(d.Set(k, list).rules, a, r) <==> HasRule(d.rules, a, r))
  {
  }

  /** A name without left recursion keeps its rules. */
  lemma CopyName(d: Dict, new_: Dict, tails: map<Token, Token>, count: nat, now: nat, n: nat)
    requires n < |d.keys| && RotatedUpTo(d, new_, tails, count, now, n)
    requires forall r :: r in d.rules[d.keys[n]] ==> r != [] && r[0] != d.keys[n]
    ensures RotatedUpTo(d, new_.Set(d.keys[n], d.rules[d.keys[n]]), tails, count, now, n + 1)
  {
    hide NoLeftRecursion, CopiedUpTo, RotatedName, TailsOk, Bounded, Before, IsTail, HasRule;
    var lhs := d.keys[n];
    var new' := new_.Set(lhs, d.rules[lhs]);
    FreshKey(d, tails, count, now, n);
    BeforeNext(d, n);
    SetOk(new_, lhs, d.rules[lhs]);
    SetFrame(new_, lhs, d.rules[lhs]);
    NamesFrame(d, new_, new', tails, tails, n, lhs, lhs);
    UnchangedName(d.rules, new'.rules, tails, lhs);
    if NoLeftRecursion(d.rules) { CopiedStep(d, new_, n); }
  }

  /** A left-recursive name is split into itself and a new name for its tails. */
  lemma RotateName(d: Dict, new_: Dict, tails: map<Token, Token>, count: nat, now: nat, n: nat,
                   left: seq<Rule>, others: seq<Rule>, mains: seq<Rule>, ends: seq<Rule>, b: Token)
    requires n < |d.keys| && RotatedUpTo(d, new_, tails, count, now, n)
    requires b == Generated(now + 1) && left != []
    requires forall r :: r in d.rules[d.keys[n]] ==> r != []
    requires forall r :: r in left <==> r in d.rules[d.keys[n]] && r != [] && r[0] == d.keys[n]
    requires forall r :: r in others <==> r in d.rules[d.keys[n]] && r != [] && r[0] != d.keys[n]
    requires forall r :: r in mains <==> exists s :: s in others && r == s[0..] + [b]
    requires forall r :: r in ends <==> exists s :: s in left && r == s[1..] + [b]
    ensures RotatedUpTo(d, new_.Set(d.keys[n], mains).Set(b, ends + [[SPACE]]), tails[d.keys[n] := b], count, now + 1, n + 1)
  {
    hide NoLeftRecursion, CopiedUpTo, RotatedName, Bounded, Before, IsTail, HasRule, NamesUpTo, KeysUpTo, TailsUpTo;
    var lhs := d.keys[n];
    var mid := new_.Set(lhs, mains);
    var new', tails' := mid.Set(b, ends + [[SPACE]]), tails[lhs := b];
    BeforeNext(d, n);
    FreshKey(d, tails, count, now, n);
    FreshName(d, tails, count, now, n, b);
    SetOk(new_, lhs, mains);
    SetOk(mid, b, ends + [[SPACE]]);
    SetFrame(new_, lhs, mains);
    SetFrame(mid, b, ends + [[SPACE]]);
    NamesFrame(d, new_, new', tails, tails', n, lhs, b);
    RotatedFromLists(d.rules, new'.rules, lhs, b, left, others, mains, ends);
    RotatedIsName(d.rules, new'.rules, tails', lhs);
    NamesNext(d, new', tails', n);
    LeftRecursive(d, lhs, left[0]);
    TailsNext(d, tails, count, now, n, b);
    KeysNext(d, new_, new', tails, n, b);
  }

  lemma LeftRecursive(d: Dict, lhs: Token, r: Rule)
    requires HasRule(d.rules, lhs, r) && r != [] && r[0] == lhs
    ensures !NoLeftRecursion(d.rules)
  {
  }

  lemma NamesNext(d: Dict, new': Dict, tails: map<Token, Token>, n: nat)
    requires d.Ok() && n < |d.keys| && RotatedName(d.rules, new'.rules, tails, d.keys[n])
    requires forall a :: Before(d, n, a) ==> RotatedName(d.rules, new'.rules, tails, a)
    ensures NamesUpTo(d, new', tails, n + 1)
  {
    hide RotatedName, Before;
    BeforeNext(d, n);
  }

  lemma FreshName(d: Dict, tails: map<Token, Token>, count: nat, now: nat, n: nat, b: Token)
    requires d.Ok() && n < |d.keys| && Bounded(d.rules, count) && TailsUpTo(d, tails, count, now, n)
    requires b == Generated(now + 1)
    ensures b != d.keys[n] && !Before(d, n, b) && !IsTail(tails, b)
  {
    assert b !in d.rules;
    assert d.keys[n] in d.rules;
    forall a | a in d.keys[..n]
      ensures a in d.rules
    {
    }
  }

  lemma TailsNext(d: Dict, tails: map<Token, Token>, count: nat, now: nat, n: nat, b: Token)
    requires d.Ok() && n < |d.keys| && Bounded(d.rules, count) && TailsUpTo(d, tails, count, now, n)
    requires b == Generated(now + 1)
    ensures TailsUpTo(d, tails[d.keys[n] := b], count, now + 1, n + 1)
  {
    hide Before;
    BeforeNext(d, n);
    FreshKey(d, tails, count, now, n);
  }

  lemma KeysNext(d: Dict, new_: Dict, new': Dict, tails: map<Token, Token>, n: nat, b: Token)
    requires d.Ok() && n < |d.keys| && KeysUpTo(d, new_, tails, n) && d.keys[n] !in tails
    requires new'.rules.Keys == new_.rules.Keys + {d.keys[n]} + {b}
    ensures KeysUpTo(d, new', tails[d.keys[n] := b], n + 1)
  {
    hide Before;
    BeforeNext(d, n);
    var lhs, tails' := d.keys[n], tails[d.keys[n] := b];
    assert lhs in tails' && tails'[lhs] == b;
    assert IsTail(tails', b);
    forall a | IsTail(tails, a)
      ensures IsTail(tails', a)
    {
      var k :| k in tails && tails[k] == a;
      assert k in tails' && tails'[k] == a;
    }
  }

  lemma RotatedIsName(g: Rules, h: Rules, tails: map<Token, Token>, a: Token)
    requires a in tails && Rotated(g, h, a, tails[a]) && a in g && forall r :: r in g[a] ==> r != []
    ensures RotatedName(g, h, tails, a)
  {
  }

  lemma NothingRotated(d: Dict, count: nat)
    requires d.Ok() && Bounded(d.rules, count)
    ensures RotatedUpTo(d, EMPTY, map[], count, count, 0)
  {
    assert d.keys[..0] == [];
  }

  /** When all names are done the change is the removal of left recursion. */
  lemma RotatedAll(d: Dict, new_: Dict, tails: map<Token, Token>, count: nat, now: nat)
    requires RotatedUpTo(d, new_, tails, count, now, |d.keys|)
    ensures RotationStep(d.rules, new_.rules, tails, count)
    ensures OnlyTails(new_.rules, tails, count) && Bounded(new_.rules, now) && count <= now
    ensures NoNewNames(d.rules, new_.rules)
    ensures NoLeftRecursion(d.rules) ==> new_ == d
  {
    hide Rotated, Unchanged, NoLeftRecursion;
    assert d.keys[..|d.keys|] == d.keys;
    forall a
      ensures Before(d, |d.keys|, a) <==> a in d.rules
    {
    }
    RotatedIsStep(d, new_, tails, count);
    RotationBounded(d.rules, new_.rules, tails, count, now);
    RotationNames(d.rules, new_.rules, tails, count);
  }

  lemma RotatedIsStep(d: Dict, new_: Dict, tails: map<Token, Token>, count: nat)
    requires d.Ok() && Bounded(d.rules, count) && TailsOk(tails, count)
    requires forall a :: a in tails ==> a in d.rules
    requires forall a :: a in new_.rules <==> a in d.rules || IsTail(tails, a)
    requires forall a :: a in d.rules ==> RotatedName(d.rules, new_.rules, tails, a)
    ensures RotationStep(d.rules, new_.rules, tails, count) && OnlyTails(new_.rules, tails, count)
  {
    hide Rotated;
    forall a, r | HasRule(d.rules, a, r)
      ensures r != []
    {
      assert RotatedName(d.rules, new_.rules, tails, a);
    }
    forall a | Known(a, count) && a !in tails
      ensures Unchanged(d.rules, new_.rules, a)
    {
      if a in d.rules { assert RotatedName(d.rules, new_.rules, tails, a); }
    }
    forall a | a in tails
      ensures Rotated(d.rules, new_.rules, a, tails[a])
    {
      assert RotatedName(d.rules, new_.rules, tails, a);
    }
  }

  /** Where a rule of the changed grammar comes from. */
  lemma RotationOrigin(g: Rules, h: Rules, tails: map<Token, Token>, count: nat, a: Token, r: Rule)
    returns (b: Token, s: Rule)
    requires RotationStep(g, h, tails, count) && OnlyTails(h, tails, count) && HasRule(h, a, r)
    ensures (Known(a, count) && HasRule(g, a, r)) || (r == [SPACE] && IsTail(tails, a)) ||
            (b in tails && HasRule(g, b, s) && s != [] &&
             ((a == b && s[0] != b && r == s + [tails[b]]) || (a == tails[b] && s[0] == b && r == s[1..] + [tails[b]])))
  {
    b, s := a, r;
    if Known(a, count) {
      if a in tails {
        assert Rotated(g, h, a, tails[a]);
        s :| Other(g, a, s) && r == s + [tails[a]];
      } else {
        assert Unchanged(g, h, a);
      }
    } else {
      b :| b in tails && tails[b] == a;
      assert Rotated(g, h, b, a);
      if r != [SPACE] {
        var x :| Recursive(g, b, x) && r == x + [a];
        s := [b] + x;
        assert s[1..] == x;
      }
    }
  }

  lemma RotationBounded(g: Rules, h: Rules, tails: map<Token, Token>, count: nat, now: nat)
    requires RotationStep(g, h, tails, count) && OnlyTails(h, tails, count) && count <= now
    requires forall a :: a in tails ==> tails[a].n <= now
    ensures Bounded(h, now)
  {
    hide RotationStep, OnlyTails;
    forall a, r | HasRule(h, a, r)
      ensures KnownRule(r, now)
    {
      var b, s := RotationOrigin(g, h, tails, count, a, r);
      RotationKnown(g, h, tails, count, now, a, r, b, s);
    }
    forall a | a in h
      ensures Known(a, now)
    {
      RotationKeyKnown(h, tails, count, now, a);
    }
  }

  lemma RotationKeyKnown(h: Rules, tails: map<Token, Token>, count: nat, now: nat, a: Token)
    requires OnlyTails(h, tails, count) && a in h && count <= now
    requires forall a :: a in tails ==> tails[a].Generated? ==> tails[a].n <= now
    ensures Known(a, now)
  {
  }

  lemma RotationKnown(g: Rules, h: Rules, tails: map<Token, Token>, count: nat, now: nat, a: Token, r: Rule, b: Token, s: Rule)
    requires RotationStep(g, h, tails, count) && count <= now
    requires forall a :: a in tails ==> tails[a].n <= now
    requires (Known(a, count) && HasRule(g, a, r)) || (r == [SPACE] && IsTail(tails, a)) ||
             (b in tails && HasRule(g, b, s) && s != [] && (r == s + [tails[b]] || r == s[1..] + [tails[b]]))
    ensures KnownRule(r, now)
  {
    if HasRule(g, a, r) {
      assert KnownRule(r, count);
    } else if r != [SPACE] {
      assert KnownRule(s, count);
    }
  }

  /** Removing left recursion keeps the shape of the rules. */
  lemma RotationShape(g: Rules, h: Rules, tails: map<Token, Token>, count: nat)
    requires RotationStep(g, h, tails, count) && OnlyTails(h, tails, count)
    requires NoUnit(g) && TailsNonterminal(g)
    ensures NoUnit(h) && TailsNonterminal(h)
  {
    hide RotationStep, OnlyTails, UnitRule, TailNonterminal;
    forall a, r: Rule | HasRule(h, a, r)
      ensures !UnitRule(r) && TailNonterminal(r)
    {
      var b, s := RotationOrigin(g, h, tails, count, a, r);
      if HasRule(g, a, r) {
      } else if r == [SPACE] {
        SpaceShape();
      } else {
        TailIsName(g, h, tails, count, b);
        if a == b && s[0] != b && r == s + [tails[b]] { MainShape(s, tails[b]); } else { EndShape(s, tails[b]); }
      }
    }
  }

  lemma SpaceShape()
    ensures !UnitRule([SPACE]) && TailNonterminal([SPACE])
  {
  }

  lemma TailIsName(g: Rules, h: Rules, tails: map<Token, Token>, count: nat, b: Token)
    requires RotationStep(g, h, tails, count) && b in tails
    ensures !tails[b].Terminal? && !b.Terminal?
  {
  }

  /** A rule with the new name at the end ... */
  lemma MainShape(s: Rule, name: Token)
    requires s != [] && TailNonterminal(s) && !name.Terminal?
    ensures !UnitRule(s + [name]) && TailNonterminal(s + [name])
  {
  }

  /** ... and one that has lost its first token as well; it was no unit rule, so something is left. */
  lemma EndShape(s: Rule, name: Token)
    requires s != [] && !UnitRule(s) && !s[0].Terminal? && TailNonterminal(s) && !name.Terminal?
    ensures !UnitRule(s[1..] + [name]) && TailNonterminal(s[1..] + [name])
  {
    if |s| > 1 { assert (s[1..] + [name])[0] == s[1]; }
  }

  /** Looks for a rule that starts with its own left-hand side. */
  method HasLeftRecursion(d: Dict) returns (found: bool)
    requires d.Ok() && NonEmptyRules(d.rules)
    ensures found <==> !NoLeftRecursion(d.rules)
  {
    for n := 0 to |d.keys|
      invariant forall i, r: Rule :: 0 <= i < n && HasRule(d.rules, d.keys[i], r) ==> StartsElsewhere(d.keys[i], r)
    {
      var lhs := d.keys[n];
      var rules: seq<Rule> := d.rules[lhs];
      for j := 0 to |rules|
        invariant forall k :: 0 <= k < j ==> StartsElsewhere(lhs, rules[k])
      {
        assert HasRule(d.rules, lhs, rules[j]);
        if rules[j][0] == lhs { return true; }
      }
    }
    forall a, r: Rule | HasRule(d.rules, a, r)
      ensures StartsElsewhere(a, r)
    {
      var i :| 0 <= i < |d.keys| && d.keys[i] == a;
    }
    found := false;
  }

  predicate StartsElsewhere(a: Token, r: Rule)
  {
    r != [] && r[0] != a
  }

  /** What one pass keeps and changes, for the loop around it. */
  lemma RotateRoundDone(d: Dict, new_: Dict, tails: map<Token, Token>, count: nat, now: nat)
    requires RotatedUpTo(d, new_, tails, count, now, |d.keys|)
    ensures new_.Ok() && SameUpToSpace(d.rules, new_.rules, count) && Bounded(new_.rules, now) && NonEmptyRules(d.rules)
    ensures NoNewNames(d.rules, new_.rules)
    ensures NoUnit(d.rules) && TailsNonterminal(d.rules) ==> NoUnit(new_.rules) && TailsNonterminal(new_.rules)
    ensures NoLeftRecursion(d.rules) ==> new_ == d
  {
    hide SameUpToSpace, Bounded, NoNewNames, NoUnit, TailsNonterminal, NoLeftRecursion, OnlyTails, Rotated, Unchanged;
    RotatedAll(d, new_, tails, count, now);
    RotationPreserves(d.rules, new_.rules, tails, count);
    if NoUnit(d.rules) && TailsNonterminal(d.rules) { RotationShape(d.rules, new_.rules, tails, count); }
  }

  lemma SpaceSameAsItself(g: Rules, count: nat)
    ensures SameUpToSpace(g, g, count) && NoNewNames(g, g)
  {
    SameAsItself(g, count);
    SameLanguageIsUpToSpace(g, g, count);
  }

  lemma IsGreibach(g: Rules)
    requires LeadingTerminals(g) && TailsNonterminal(g)
    ensures Greibach(g)
  {
  }

  lemma SubstituteRoundDone(d: Dict, new_: Dict, count: nat)
    requires d.Ok() && RewrittenUpTo(d, new_.rules, |d.keys|) && Bounded(d.rules, count)
    requires NoUnit(d.rules) && TailsNonterminal(d.rules) && NoLeftRecursion(d.rules)
    ensures SameUpToSpace(d.rules, new_.rules, count) && Bounded(new_.rules, count) && NoNewNames(d.rules, new_.rules)
    ensures NoUnit(new_.rules) && TailsNonterminal(new_.rules)
  {
    hide SameLanguage, SameUpToSpace, NoNewNames, Bounded, NoUnit, TailsNonterminal, NoLeftRecursion, RewrittenUpTo, SubstitutionStep;
    UnitRoundStep(d, new_.rules, count);
    SameLanguageIsUpToSpace(d.rules, new_.rules, count);
    SubstitutionShape(d.rules, new_.rules);
  }

  // ---------- terminal lifting ----------

  function RulesOf(h: Rules, a: Token): seq<Rule>
  {
    if a in h then h[a] else []
  }

  /** `r'` is `r` with the terminals after its first token replaced by names for them. */
  ghost predicate LiftedRule(lift: map<Token, Token>, r': Rule, r: Rule)
  {
    |r'| == |r| && (r != [] ==> r'[0] == r[0]) && TailNonterminal(r') &&
    forall i :: 0 <= i < |r| ==> LiftedToken(lift, r'[i], r[i])
  }

  ghost predicate LiftedToken(lift: map<Token, Token>, t': Token, t: Token)
  {
    t' == t || (t' in lift && lift[t'] == t)
  }

  ghost predicate LiftedList(lift: map<Token, Token>, list': seq<Rule>, list: seq<Rule>)
  {
    |list'| == |list| && forall i :: 0 <= i < |list| ==> LiftedRule(lift, list'[i], list[i])
  }

  lemma LiftedListMore(lift: map<Token, Token>, lift': map<Token, Token>, list': seq<Rule>, list: seq<Rule>)
    requires LiftedList(lift, list', list)
    requires forall k :: k in lift ==> k in lift' && lift'[k] == lift[k]
    ensures LiftedList(lift', list', list)
  {
    hide TailNonterminal;
    forall i | 0 <= i < |list|
      ensures LiftedRule(lift', list'[i], list[i])
    {
      assert LiftedRule(lift, list'[i], list[i]);
    }
  }

  lemma LiftedListSnoc(lift: map<Token, Token>, list': seq<Rule>, list: seq<Rule>, r': Rule, r: Rule)
    requires LiftedList(lift, list', list) && LiftedRule(lift, r', r)
    ensures LiftedList(lift, list' + [r'], list + [r])
  {
    hide LiftedRule;
  }

  ghost predicate LiftsUpTo(new_: Dict, lift: map<Token, Token>, count: nat, now: nat)
  {
    && count <= now
    && forall k :: k in lift ==> k.Generated? && count < k.n <= now && lift[k].Terminal? && RulesOf(new_.rules, k) == [[lift[k]]]
  }

  /** Names before number `n` are done, and so are the first `j` rules of that one. */
  ghost predicate MixedUpTo(d: Dict, new_: Dict, lift: map<Token, Token>, count: nat, now: nat, n: nat, j: nat)
  {
    && d.Ok() && new_.Ok() && n < |d.keys| && Bounded(d.rules, count) && j <= |d.rules[d.keys[n]]|
    && LiftsUpTo(new_, lift, count, now)
    && (forall a :: a in new_.rules ==> Before(d, n + 1, a) || a in lift)
    && (forall a :: Before(d, n, a) ==> a in d.rules && LiftedList(lift, RulesOf(new_.rules, a), d.rules[a]))
    && LiftedList(lift, RulesOf(new_.rules, d.keys[n]), d.rules[d.keys[n]][..j])
  }

  /** A new name for a terminal. */
  lemma LiftTerminal(d: Dict, new_: Dict, lift: map<Token, Token>, count: nat, now: nat, n: nat, j: nat, k: Token, t: Token)
    requires MixedUpTo(d, new_, lift, count, now, n, j) && k == Generated(now + 1) && t.Terminal?
    ensures k !in lift && MixedUpTo(d, new_.Extend(k, [[t]]), lift[k := t], count, now + 1, n, j)
  {
    hide LiftedList, Before;
    var lift', new' := lift[k := t], new_.Extend(k, [[t]]);
    LiftNameFresh(d, new_, lift, count, now, n, j, k);
    ExtendOk(new_, k, [[t]]);
    LiftedListMore(lift, lift', RulesOf(new_.rules, d.keys[n]), d.rules[d.keys[n]][..j]);
    forall a | Before(d, n, a)
      ensures LiftedList(lift', RulesOf(new'.rules, a), d.rules[a])
    {
      LiftedListMore(lift, lift', RulesOf(new_.rules, a), d.rules[a]);
    }
  }

  lemma LiftNameFresh(d: Dict, new_: Dict, lift: map<Token, Token>, count: nat, now: nat, n: nat, j: nat, k: Token)
    requires MixedUpTo(d, new_, lift, count, now, n, j) && k == Generated(now + 1)
    ensures k !in lift && k !in new_.rules && k != d.keys[n]
    ensures forall a :: Before(d, n, a) ==> a != k
  {
    hide LiftedList;
    assert k !in d.rules;
    assert d.keys[n] in d.rules;
    BeforeNext(d, n);
  }

  /** One more rule of the current name. */
  lemma TakeMixed(d: Dict, new_: Dict, lift: map<Token, Token>, count: nat, now: nat, n: nat, j: nat, r': Rule)
    requires MixedUpTo(d, new_, lift, count, now, n, j) && j < |d.rules[d.keys[n]]|
    requires LiftedRule(lift, r', d.rules[d.keys[n]][j])
    ensures MixedUpTo(d, new_.Extend(d.keys[n], [r']), lift, count, now, n, j + 1)
  {
    hide LiftedRule, LiftedList, Before;
    var lhs := d.keys[n];
    var new' := new_.Extend(lhs, [r']);
    assert lhs in d.rules;
    ExtendOk(new_, lhs, [r']);
    BeforeNext(d, n);
    assert RulesOf(new'.rules, lhs) == RulesOf(new_.rules, lhs) + [r'];
    assert d.rules[lhs][..j + 1] == d.rules[lhs][..j] + [d.rules[lhs][j]];
    LiftedListSnoc(lift, RulesOf(new_.rules, lhs), d.rules[lhs][..j], r', d.rules[lhs][j]);
    forall a | a != lhs
      ensures RulesOf(new'.rules, a) == RulesOf(new_.rules, a)
    {
    }
  }

  /** On to the next name. */
  lemma NothingLifted(lift: map<Token, Token>, list: seq<Rule>)
    ensures LiftedList(lift, [], list[..0])
  {
  }

  lemma NextMixed(d: Dict, new_: Dict, lift: map<Token, Token>, count: nat, now: nat, n: nat)
    requires n + 1 < |d.keys| && d.Ok() && MixedUpTo(d, new_, lift, count, now, n, |d.rules[d.keys[n]]|)
    ensures MixedUpTo(d, new_, lift, count, now, n + 1, 0)
  {
    hide LiftedList, Before;
    var list := d.rules[d.keys[n]];
    assert list[..|list|] == list;
    BeforeNext(d, n);
    BeforeNext(d, n + 1);
    NothingLifted(lift, d.rules[d.keys[n + 1]]);
    assert d.keys[n + 1] !in new_.rules by {
      assert d.keys[n + 1] in d.rules;
    }
  }

  ghost predicate MixedDone(d: Dict, new_: Dict, lift: map<Token, Token>, count: nat, now: nat)
  {
    && d.Ok() && new_.Ok() && Bounded(d.rules, count)
    && LiftsUpTo(new_, lift, count, now)
    && (forall a :: a in new_.rules ==> a in d.rules || a in lift)
    && (forall a :: a in d.rules ==> LiftedList(lift, RulesOf(new_.rules, a), d.rules[a]))
  }

  /** The state of the conversion when the turn of name number `n` comes. */
  ghost predicate MixedAt(d: Dict, new_: Dict, lift: map<Token, Token>, count: nat, now: nat, n: nat)
  {
    if n < |d.keys| then MixedUpTo(d, new_, lift, count, now, n, 0) else MixedDone(d, new_, lift, count, now)
  }

  lemma MixedStart(d: Dict, count: nat)
    requires d.Ok() && Bounded(d.rules, count)
    ensures MixedAt(d, EMPTY, map[], count, count, 0)
  {
    if |d.keys| > 0 {
      assert d.keys[0] in d.rules;
      assert d.keys[..0] == [];
    } else {
      assert forall a :: a in d.rules ==> a in d.keys;
    }
  }

  lemma MixedNext(d: Dict, new_: Dict, lift: map<Token, Token>, count: nat, now: nat, n: nat)
    requires d.Ok() && n < |d.keys| && MixedUpTo(d, new_, lift, count, now, n, |d.rules[d.keys[n]]|)
    ensures MixedAt(d, new_, lift, count, now, n + 1)
  {
    hide LiftedList, LiftsUpTo, Bounded;
    if n + 1 < |d.keys| {
      NextMixed(d, new_, lift, count, now, n);
    } else {
      var list := d.rules[d.keys[n]];
      assert list[..|list|] == list;
      assert d.keys[..n + 1] == d.keys;
      BeforeNext(d, n);
      forall a
        ensures a in d.rules <==> Before(d, n + 1, a)
      {
      }
    }
  }

  /** A lifted rule with the terminals put back is the rule it came from. */
  lemma {:induction false} LowerLifted(lift: map<Token, Token>, r': Rule, r: Rule, count: nat)
    requires |r'| == |r| && KnownRule(r, count) && L.LiftOk(lift, count)
    requires forall i :: 0 <= i < |r| ==> LiftedToken(lift, r'[i], r[i])
    ensures L.Lower(lift, r') == r
    decreases |r|
  {
    if r != [] {
      assert LiftedToken(lift, r'[0], r[0]) && Known(r[0], count);
      forall i | 0 <= i < |r[1..]|
        ensures LiftedToken(lift, r'[1..][i], r[1..][i]) && Known(r[1..][i], count)
      {
        assert LiftedToken(lift, r'[i + 1], r[i + 1]) && Known(r[i + 1], count);
      }
      LowerLifted(lift, r'[1..], r[1..], count);
      assert r == [r[0]] + r[1..];
    }
  }

  lemma LiftedRuleLowers(d: Dict, lift: map<Token, Token>, count: nat, a: Token, i: nat, r': Rule)
    requires a in d.rules && i < |d.rules[a]| && Bounded(d.rules, count) && L.LiftOk(lift, count)
    requires LiftedRule(lift, r', d.rules[a][i])
    ensures L.Lower(lift, r') == d.rules[a][i]
  {
    assert HasRule(d.rules, a, d.rules[a][i]);
    LowerLifted(lift, r', d.rules[a][i], count);
  }

  /** The whole pass is a lifting step. */
  lemma MixedIsLift(d: Dict, new_: Dict, lift: map<Token, Token>, count: nat, now: nat)
    requires MixedDone(d, new_, lift, count, now)
    ensures L.LiftStep(d.rules, new_.rules, lift, count)
  {
    hide LiftedRule, Bounded;
    forall k | k in lift
      ensures L.NamesTerminal(new_.rules, lift, k)
    {
    }
    forall a | a !in lift
      ensures L.LiftedFrom(d.rules, new_.rules, lift, a)
    {
      LiftedName(d, new_, lift, count, now, a);
    }
  }

  lemma LiftedName(d: Dict, new_: Dict, lift: map<Token, Token>, count: nat, now: nat, a: Token)
    requires MixedDone(d, new_, lift, count, now) && a !in lift
    ensures L.LiftedFrom(d.rules, new_.rules, lift, a)
  {
    hide LiftedRule, Bounded;
    if a in d.rules {
      var list', list := RulesOf(new_.rules, a), d.rules[a];
      forall i | 0 <= i < |list|
        ensures L.Lower(lift, list'[i]) == list[i]
      {
        assert LiftedRule(lift, list'[i], list[i]);
        LiftedRuleLowers(d, lift, count, a, i, list'[i]);
      }
      forall r | HasRule(new_.rules, a, r)
        ensures HasRule(d.rules, a, L.Lower(lift, r))
      {
        var i :| 0 <= i < |list'| && list'[i] == r;
      }
      forall r | HasRule(d.rules, a, r)
        ensures exists r' :: HasRule(new_.rules, a, r') && L.Lower(lift, r') == r
      {
        var i :| 0 <= i < |list| && list[i] == r;
        assert HasRule(new_.rules, a, list'[i]);
      }
    }
  }

  /** Lifting leaves terminals only at the beginning of rules and makes no unit rule. */
  lemma MixedShape(d: Dict, new_: Dict, lift: map<Token, Token>, count: nat, now: nat)
    requires MixedDone(d, new_, lift, count, now) && NoUnit(d.rules)
    ensures NoUnit(new_.rules) && TailsNonterminal(new_.rules)
  {
    forall a, r: Rule | HasRule(new_.rules, a, r)
      ensures !UnitRule(r) && TailNonterminal(r)
    {
      if a in lift {
        assert r == [lift[a]];
      } else {
        var list', list := RulesOf(new_.rules, a), d.rules[a];
        var i :| 0 <= i < |list'| && list'[i] == r;
        assert LiftedRule(lift, list'[i], list[i]);
        assert HasRule(d.rules, a, list[i]);
      }
    }
  }

  lemma LiftedKnown(new_: Dict, lift: map<Token, Token>, count: nat, now: nat, r': Rule, r: Rule)
    requires LiftsUpTo(new_, lift, count, now) && LiftedRule(lift, r', r) && KnownRule(r, count)
    ensures KnownRule(r', now)
  {
    forall i | 0 <= i < |r'|
      ensures Known(r'[i], now)
    {
      assert LiftedToken(lift, r'[i], r[i]);
    }
  }

  lemma MixedOk(d: Dict, new_: Dict, lift: map<Token, Token>, count: nat, now: nat, n: nat, j: nat)
    requires MixedUpTo(d, new_, lift, count, now, n, j)
    ensures d.Ok() && new_.Ok() && n < |d.keys| && j <= |d.rules[d.keys[n]]| && count <= now
  {
  }

  lemma MixedFinal(d: Dict, new_: Dict, lift: map<Token, Token>, count: nat, now: nat)
    requires MixedDone(d, new_, lift, count, now)
    ensures new_.Ok() && Bounded(new_.rules, now) && NoNewNames(d.rules, new_.rules)
    ensures NoUnit(d.rules) ==> NoUnit(new_.rules) && TailsNonterminal(new_.rules)
  {
    MixedBounded(d, new_, lift, count, now);
    MixedNames(d, new_, lift, count, now);
    if NoUnit(d.rules) { MixedShape(d, new_, lift, count, now); }
  }

  lemma MixedBounded(d: Dict, new_: Dict, lift: map<Token, Token>, count: nat, now: nat)
    requires MixedDone(d, new_, lift, count, now)
    ensures Bounded(new_.rules, now)
  {
    forall a, r: Rule | HasRule(new_.rules, a, r)
      ensures KnownRule(r, now)
    {
      if a in lift {
        assert r == [lift[a]];
      } else {
        var list', list := RulesOf(new_.rules, a), d.rules[a];
        var i :| 0 <= i < |list'| && list'[i] == r;
        assert LiftedRule(lift, list'[i], list[i]);
        assert HasRule(d.rules, a, list[i]);
        LiftedKnown(new_, lift, count, now, r, list[i]);
      }
    }
  }

  lemma SingleToken(lift: map<Token, Token>, tokens: Rule)
    requires |tokens| == 1
    ensures LiftedRule(lift, tokens, tokens)
  {
  }

  lemma GrowRule(lift: map<Token, Token>, lift': map<Token, Token>, regen: Rule, tokens: Rule, i: nat, name: Token)
    requires 1 <= i < |tokens| && LiftedRule(lift, regen, tokens[..i]) && !name.Terminal?
    requires forall k :: k in lift ==> k in lift' && lift'[k] == lift[k]
    requires LiftedToken(lift', name, tokens[i])
    ensures LiftedRule(lift', regen + [name], tokens[..i + 1])
  {
    forall m | 0 <= m < i + 1
      ensures LiftedToken(lift', (regen + [name])[m], tokens[..i + 1][m])
    {
      if m < i { assert LiftedToken(lift, regen[m], tokens[..i][m]); }
    }
  }

  /** The number of characters of a token as it stands in a rule, with its quotes. */
  function TokenLength(t: Token): nat
    requires t.Terminal?
  {
    |t.text| + 2
  }

  /** Looks for a name that stands for the terminal.  Only a token of one character could be found,
      and no quoted terminal is that short, so nothing ever is. */
  method TerminalExist(token: Token, grammar: Dict) returns (name: Option<Token>)
    requires grammar.Ok() && token.Terminal?
    ensures name == None
  {
    for n := 0 to |grammar.keys|
    {
      var rules := grammar.rules[grammar.keys[n]];
      if [token] in rules && TokenLength(token) == 1 {
        assert false;
      }
    }
    name := None;
  }

  // ---------- names ----------

  lemma SubstitutionNames(g: Rules, h: Rules)
    requires SubstitutionStep(g, h) && forall a :: a in h ==> a in g
    ensures NoNewNames(g, h)
  {
    forall x, a, r | Avoids(g, x) && HasRule(h, a, r)
      ensures x !in r
    {
      assert Rewritten(g, h, a) && FromOld(g, a, r);
      if !HasRule(g, a, r) {
        var s, d :| Substituted(g, a, s, d) && r == d + s[1..];
        assert x !in s && x !in d;
      }
    }
  }

  lemma RotationNames(g: Rules, h: Rules, tails: map<Token, Token>, count: nat)
    requires RotationStep(g, h, tails, count) && OnlyTails(h, tails, count)
    requires forall a :: a in h && Known(a, count) ==> a in g
    ensures NoNewNames(g, h)
  {
    forall x: Token | x.Named? && Avoids(g, x)
      ensures Avoids(h, x)
    {
      forall a, r | HasRule(h, a, r)
        ensures x !in r
      {
        var b, s := RotationOrigin(g, h, tails, count, a, r);
        if !HasRule(g, a, r) && r != [SPACE] { assert x !in s; }
      }
    }
  }

  lemma MixedNames(d: Dict, new_: Dict, lift: map<Token, Token>, count: nat, now: nat)
    requires MixedDone(d, new_, lift, count, now)
    ensures NoNewNames(d.rules, new_.rules)
  {
    forall x: Token, a, r: Rule | x.Named? && Avoids(d.rules, x) && HasRule(new_.rules, a, r)
      ensures x !in r
    {
      if a in lift {
        assert r == [lift[a]];
      } else {
        var list', list := RulesOf(new_.rules, a), d.rules[a];
        var i :| 0 <= i < |list'| && list'[i] == r;
        assert LiftedRule(lift, list'[i], list[i]) && HasRule(d.rules, a, list[i]);
        forall m | 0 <= m < |r|
          ensures r[m] != x
        {
          assert LiftedToken(lift, r[m], list[i][m]);
        }
      }
    }
  }

  /** Every name but the start name keeps its language up to the empty-tail terminal, and the start
      name has that of the start symbol. */
  ghost predicate ConvertedRight(g: Rules, h: Rules, start: Token, count: nat)
  {
    && (forall a {:trigger Includes(h, g, a)} {:trigger Includes(g, h, a)} ::
          Known(a, count) && a != START ==> Includes(h, g, a) && Includes(g, h, a))
    && (forall w :: InLanguage(h, START, w) <==> InLanguage(h, start, w))
  }

  lemma AvoidsStart(g: Rules, h: Rules)
    requires Avoids(g, START) && NoNewNames(g, h)
    ensures Avoids(h, START)
  {
    hide Avoids;
  }

  lemma FinalGrammar(g: Rules, h: Rules, start: Token, count: nat)
    requires SameUpToSpace(g, h, count) && Avoids(h, START) && start != START && Greibach(h)
    ensures ConvertedRight(g, h[START := [[start]]], start, count)
    ensures h[START := [[start]]] - {START} == h && Greibach(h[START := [[start]]] - {START})
  {
    hide Avoids, InLanguage, Greibach, SameUpToSpace;
    var k := h[START := [[start]]];
    AddStart(h, START, start);
    assert k - {START} == h by { assert START !in h by { AvoidedKey(h, START); } }
    forall a | Known(a, count) && a != START
      ensures Includes(k, g, a) && Includes(g, k, a)
    {
      SameFor(g, h, count, a);
      forall w
        ensures InLanguage(k, a, w) <==> InLanguage(h, a, w)
      {
      }
      SameWords(g, h, k, a);
    }
    forall w
      ensures InLanguage(k, START, w) <==> InLanguage(k, start, w)
    {
      assert InLanguage(k, start, w) <==> InLanguage(h, start, w);
    }
  }

  lemma AvoidedKey(h: Rules, x: Token)
    requires Avoids(h, x)
    ensures x !in h
  {
  }

  lemma SameFor(g: Rules, h: Rules, count: nat, a: Token)
    requires SameUpToSpace(g, h, count) && Known(a, count)
    ensures Includes(h, g, a) && Includes(g, h, a)
  {
  }

  lemma SameWords(g: Rules, h: Rules, k: Rules, a: Token)
    requires Includes(h, g, a) && Includes(g, h, a)
    requires forall w :: InLanguage(k, a, w) <==> InLanguage(h, a, w)
    ensures Includes(k, g, a) && Includes(g, k, a)
  {
    hide InLanguage;
    forall w | InLanguage(g, a, w)
      ensures exists w' :: InLanguage(k, a, w') && Erase(w') == Erase(w)
    {
      var w' :| InLanguage(h, a, w') && Erase(w') == Erase(w);
      assert InLanguage(k, a, w');
    }
  }

  lemma RotateStart(d: Dict, count: nat)
    requires d.Ok()
    ensures RotateTo(d, count, 0) == Some(Partial(EMPTY, count))
  {
  }

  lemma RotateNext(d: Dict, count: nat, n: nat)
    requires d.Ok() && n < |d.keys| && RotateTo(d, count, n).Some?
    ensures RotateTo(d, count, n + 1) == RotateRules(RotateTo(d, count, n).value, d.keys[n], d.rules[d.keys[n]])
  {
    hide RotateRules;
  }

  lemma MixedBegins(d: Dict, count: nat)
    requires d.Ok()
    ensures MixedTo(d, count, 0, 0) == Some(Partial(EMPTY, count))
  {
  }

  lemma MixedRule(d: Dict, count: nat, n: nat, j: nat)
    requires d.Ok() && n < |d.keys| && j < |d.rules[d.keys[n]]| && MixedTo(d, count, n, j).Some?
    ensures MixedTo(d, count, n, j + 1) == LiftInto(MixedTo(d, count, n, j).value, d.keys[n], d.rules[d.keys[n]][j])
  {
    hide LiftInto;
  }

  lemma MixedName(d: Dict, count: nat, n: nat)
    requires d.Ok() && n < |d.keys|
    ensures MixedTo(d, count, n + 1, 0) == MixedTo(d, count, n, |d.rules[d.keys[n]]|)
  {
    hide LiftInto;
  }

  lemma LiftStart(tokens: Rule, d: Dict, count: nat)
    requires d.Ok() && tokens != []
    ensures LiftTo(tokens, 1, d, count) == Lifted([tokens[0]], d, count)
  {
  }

  lemma LiftNext(tokens: Rule, i: nat, d: Dict, count: nat)
    requires d.Ok() && 1 <= i < |tokens|
    ensures var l := LiftTo(tokens, i, d, count);
            LiftTo(tokens, i + 1, d, count) ==
              if tokens[i].Terminal? then
                Lifted(l.regen + [Generated(l.count + 1)], l.g.Extend(Generated(l.count + 1), [[tokens[i]]]), l.count + 1)
              else Lifted(l.regen + [tokens[i]], l.g, l.count)
  {
  }

  /** The counter behind `get_nonterminal`. */
  class Converter {
    var count: nat

    constructor ()
      ensures count == 1
    {
      count := 1;
    }

    method GetNonterminal() returns (name: Token)
      modifies this
      ensures count == old(count) + 1 && name == Generated(count)
    {
      count := count + 1;
      name := Generated(count);
    }

    /** Replaces the terminals after the first token of one rule by new names. */
    method LiftRule(d: Dict, tokens: Rule, new0: Dict, ghost lift0: map<Token, Token>, ghost count0: nat, ghost n: nat, ghost j: nat)
      returns (regen: Rule, new_: Dict, ghost lift: map<Token, Token>)
      requires tokens != [] && MixedUpTo(d, new0, lift0, count0, count, n, j)
      modifies this
      ensures MixedUpTo(d, new_, lift, count0, count, n, j) && LiftedRule(lift, regen, tokens)
      ensures new0.Ok() && Lifted(regen, new_, count) == LiftTo(tokens, |tokens|, new0, old(count))
    {
      hide MixedUpTo, LiftTo;
      MixedOk(d, new0, lift0, count0, count, n, j);
      LiftStart(tokens, new0, count);
      new_, lift, regen := new0, lift0, [tokens[0]];
      for i := 1 to |tokens|
        invariant MixedUpTo(d, new_, lift, count0, count, n, j)
        invariant |regen| == i && LiftedRule(lift, regen, tokens[..i])
        invariant Lifted(regen, new_, count) == LiftTo(tokens, i, new0, old(count))
      {
        var token := tokens[i];
        LiftNext(tokens, i, new0, old(count));
        if token.Terminal? {
          MixedOk(d, new_, lift, count0, count, n, j);
          var name := TerminalExist(token, new_);
          if name.Some? {
            assert false;
          }
          ghost var now := count;
          var newNonterm := GetNonterminal();
          LiftTerminal(d, new_, lift, count0, now, n, j, newNonterm, token);
          GrowRule(lift, lift[newNonterm := token], regen, tokens, i, newNonterm);
          lift := lift[newNonterm := token];
          new_ := new_.Extend(newNonterm, [[token]]);
          regen := regen + [newNonterm];
        } else {
          GrowRule(lift, lift, regen, tokens, i, token);
          regen := regen + [token];
        }
      }
      assert tokens[..|tokens|] == tokens;
    }

    /** Gives every terminal that is not first in its rule a name of its own. */
    method RemoveMixed(grammar: Dict) returns (r: Outcome)
      requires grammar.Ok() && Bounded(grammar.rules, count)
      modifies this
      ensures count >= old(count) && !r.Unfinished?
      ensures r.Converted? ==> r.g.Ok() && Bounded(r.g.rules, count)
      ensures r.Converted? ==> SameLanguage(grammar.rules, r.g.rules, old(count)) && NoNewNames(grammar.rules, r.g.rules)
      ensures r.Converted? && NoUnit(grammar.rules) ==> NoUnit(r.g.rules) && TailsNonterminal(r.g.rules)
      ensures if NoEmptyRule(grammar.rules) then r.Converted? else r == Raised
      ensures r == Unmixed(grammar, old(count)).outcome
      ensures r.Converted? ==> count == Unmixed(grammar, old(count)).count
    {
      hide MixedUpTo, Bounded, SameLanguage, NoNewNames, NoUnit, TailsNonterminal, MixedDone, MixedTo, LiftTo, NoEmptyRule;
      UnmixedIff(grammar, count);
      var new_ := EMPTY;
      ghost var count0 := count;
      ghost var lift := map[];
      MixedStart(grammar, count);
      MixedBegins(grammar, count);
      for n := 0 to |grammar.keys|
        invariant count >= count0 && MixedAt(grammar, new_, lift, count0, count, n)
        invariant MixedTo(grammar, count0, n, 0) == Some(Partial(new_, count))
      {
        var lhs := grammar.keys[n];
        var rules := grammar.rules[lhs];
        for j := 0 to |rules|
          invariant count >= count0 && MixedUpTo(grammar, new_, lift, count0, count, n, j)
          invariant MixedTo(grammar, count0, n, j) == Some(Partial(new_, count))
        {
          var tokens: Rule := rules[j];
          MixedRule(grammar, count0, n, j);
          if tokens == [] {
            MixedStuck(grammar, count0, n, j + 1);
            return Raised;
          }
          var regen := tokens;
          if |tokens| == 1 {
            MixedOk(grammar, new_, lift, count0, count, n, j);
            LiftStart(tokens, new_, count);
            SingleToken(lift, tokens);
            assert tokens == [tokens[0]];
          } else {
            regen, new_, lift := LiftRule(grammar, tokens, new_, lift, count0, n, j);
          }
          MixedOk(grammar, new_, lift, count0, count, n, j);
          TakeMixed(grammar, new_, lift, count0, count, n, j, regen);
          new_ := new_.Extend(lhs, [regen]);
        }
        MixedNext(grammar, new_, lift, count0, count, n);
        MixedName(grammar, count0, n);
      }
      MixedIsLift(grammar, new_, lift, count0, count);
      L.LiftingPreserves(grammar.rules, new_.rules, lift, count0);
      MixedFinal(grammar, new_, lift, count0, count);
      r := Converted(new_);
    }

    /** One pass over all names. */
    method RotateRound(d: Dict) returns (ok: bool, new_: Dict, ghost tails: map<Token, Token>)
      requires d.Ok() && Bounded(d.rules, count)
      modifies this
      ensures count >= old(count)
      ensures ok ==> RotatedUpTo(d, new_, tails, old(count), count, |d.keys|)
      ensures RotateTo(d, old(count), |d.keys|) == if ok then Some(Partial(new_, count)) else None
    {
      hide RotatedUpTo, Bounded, RotateTo, RotateRules, Starting, Appended, Dict.Set;
      ghost var count0 := count;
      new_, tails := EMPTY, map[];
      NothingRotated(d, count);
      RotateStart(d, count);
      for n := 0 to |d.keys|
        invariant count >= count0 && RotatedUpTo(d, new_, tails, count0, count, n)
        invariant RotateTo(d, count0, n) == Some(Partial(new_, count))
      {
        var lhs := d.keys[n];
        var left, others;
        RotateNext(d, count0, n);
        ok, left, others := Partition(d.rules[lhs], lhs);
        if !ok {
          NotRotated(Partial(new_, count), lhs, d.rules[lhs]);
          RotateStuck(d, count0, n + 1);
          return;
        }
        RulesRotated(Partial(new_, count), lhs, d.rules[lhs]);
        if left != [] {
          ghost var now := count;
          var newRule := GetNonterminal();
          var mains := AppendName(others, 0, newRule);
          var ends := AppendName(left, 1, newRule);
          RotateName(d, new_, tails, count0, now, n, left, others, mains, ends, newRule);
          new_ := new_.Set(lhs, mains).Set(newRule, ends + [[SPACE]]);
          tails := tails[lhs := newRule];
        } else {
          CopyName(d, new_, tails, count0, count, n);
          new_ := new_.Set(lhs, others);
        }
      }
      ok := true;
    }

    /** Repeats the passes until one finds nothing to remove. */
    method RemoveLeftRecursion(grammar: Dict, rounds: nat) returns (r: Outcome)
      requires grammar.Ok() && Bounded(grammar.rules, count)
      modifies this
      ensures count >= old(count)
      ensures r.Converted? ==> r.g.Ok() && Bounded(r.g.rules, count) && NoLeftRecursion(r.g.rules)
      ensures r.Converted? ==> SameUpToSpace(grammar.rules, r.g.rules, old(count)) && NoNewNames(grammar.rules, r.g.rules)
      ensures r.Converted? && NoUnit(grammar.rules) && TailsNonterminal(grammar.rules) ==>
                NoUnit(r.g.rules) && TailsNonterminal(r.g.rules)
      ensures r == LeftFree(grammar, old(count), rounds).outcome
      ensures r.Converted? ==> count == LeftFree(grammar, old(count), rounds).count
    {
      hide SameUpToSpace, NoNewNames, Bounded, NoUnit, TailsNonterminal, NoLeftRecursion, RotatedUpTo, NonEmptyRules, RotateTo;
      ghost var count0 := count;
      var old_ := grammar;
      SpaceSameAsItself(grammar.rules, count);
      for i := 0 to rounds
        invariant count >= count0 && old_.Ok() && Bounded(old_.rules, count)
        invariant SameUpToSpace(grammar.rules, old_.rules, count0) && NoNewNames(grammar.rules, old_.rules)
        invariant NoUnit(grammar.rules) && TailsNonterminal(grammar.rules) ==>
                    NoUnit(old_.rules) && TailsNonterminal(old_.rules)
        invariant LeftFree(grammar, count0, rounds) == LeftFree(old_, count, rounds - i)
      {
        ghost var now := count;
        ghost var tails;
        var ok, new_;
        ok, new_, tails := RotateRound(old_);
        if !ok { return Raised; }
        RotateRoundDone(old_, new_, tails, now, count);
        UpToSpaceTransitive(grammar.rules, old_.rules, new_.rules, count0, now);
        NoNewNamesTransitive(grammar.rules, old_.rules, new_.rules);
        var found := HasLeftRecursion(old_);
        if !found { return Converted(new_); }
        old_ := new_;
      }
      r := Unfinished;
    }

    /** Alternates left-recursion removal and substitution until every rule starts with a terminal. */
    method Gnf(grammar: Dict, rounds: nat) returns (r: Outcome)
      requires grammar.Ok() && Bounded(grammar.rules, count)
      requires NoUnit(grammar.rules) && TailsNonterminal(grammar.rules)
      modifies this
      ensures count >= old(count)
      ensures r.Converted? ==> r.g.Ok() && Bounded(r.g.rules, count) && Greibach(r.g.rules)
      ensures r.Converted? ==> SameUpToSpace(grammar.rules, r.g.rules, old(count)) && NoNewNames(grammar.rules, r.g.rules)
      ensures r == NormalForm(grammar, old(count), rounds, rounds).outcome
    {
      hide SameUpToSpace, NoNewNames, Bounded, NoUnit, TailsNonterminal, NoLeftRecursion, RewrittenUpTo, Greibach, LeadingTerminals,
        LeftFree, Round;
      ghost var count0 := count;
      var old_ := grammar;
      SpaceSameAsItself(grammar.rules, count);
      for i := 0 to rounds
        invariant count >= count0 && old_.Ok() && Bounded(old_.rules, count)
        invariant SameUpToSpace(grammar.rules, old_.rules, count0) && NoNewNames(grammar.rules, old_.rules)
        invariant NoUnit(old_.rules) && TailsNonterminal(old_.rules)
        invariant NormalForm(grammar, count0, rounds, rounds) == NormalForm(old_, count, rounds - i, rounds)
      {
        ghost var now := count;
        var s := RemoveLeftRecursion(old_, rounds);
        if !s.Converted? { return s; }
        UpToSpaceTransitive(grammar.rules, old_.rules, s.g.rules, count0, now);
        NoNewNamesTransitive(grammar.rules, old_.rules, s.g.rules);
        var ok, new_ := SubstituteRound(s.g);
        if !ok { return Raised; }
        SubstituteRoundDone(s.g, new_, count);
        SubstitutionNonEmpty(s.g, new_);
        UpToSpaceTransitive(grammar.rules, s.g.rules, new_.rules, count0, count);
        NoNewNamesTransitive(grammar.rules, s.g.rules, new_.rules);
        var isgnf;
        ok, isgnf := CheckGnf(new_);
        if !ok { assert false; }
        if isgnf {
          IsGreibach(new_.rules);
          return Converted(new_);
        }
        old_ := new_;
      }
      r := Unfinished;
    }

    /** The whole conversion.  The result is in Greibach normal form except for the start rule that is
        added last; every original name derives what it derived before, up to the empty-tail
        terminal, and the start name stands for the start symbol. */
    method ConvertToGnf(grammar: Dict, start: Token, rounds: nat) returns (r: Outcome)
      requires grammar.Ok() && Bounded(grammar.rules, count)
      requires Avoids(grammar.rules, START) && start != START
      modifies this
      ensures r.Converted? ==> START in r.g.rules && r.g.rules[START] == [[start]] && Greibach(r.g.rules - {START})
      ensures r.Converted? ==> Avoids(r.g.rules - {START}, START)
      ensures r.Converted? ==> ConvertedRight(grammar.rules, r.g.rules, start, old(count))
      ensures r == InNormalForm(grammar, start, old(count), rounds)
    {
      hide UnitFree, Unmixed, NormalForm;
      hide SameLanguage, SameUpToSpace, NoNewNames, Bounded, NoUnit, TailsNonterminal, Greibach, Avoids, ConvertedRight;
      ghost var count0 := count;
      r := RemoveUnit(grammar, count, rounds);
      if !r.Converted? { return; }
      ghost var g1 := r.g.rules;
      r := RemoveMixed(r.g);
      if !r.Converted? { return; }
      ghost var g2, now := r.g.rules, count;
      SameLanguageTransitive(grammar.rules, g1, g2, count0);
      SameLanguageIsUpToSpace(grammar.rules, g2, count0);
      NoNewNamesTransitive(grammar.rules, g1, g2);
      r := Gnf(r.g, rounds);
      if !r.Converted? { return; }
      UpToSpaceTransitive(grammar.rules, g2, r.g.rules, count0, now);
      NoNewNamesTransitive(grammar.rules, g2, r.g.rules);
      AvoidsStart(grammar.rules, r.g.rules);
      FinalGrammar(grammar.rules, r.g.rules, start, count0);
      r := Converted(r.g.Set(START, [[start]]));
    }
  }
}
