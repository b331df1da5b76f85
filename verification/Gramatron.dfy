/** From a grammar to its automaton: the converter and the construction, one after the other. */
module Gramatron {
  import opened Automaton
  import opened Conversion
  import opened Gnf
  import opened Grammar
  import opened Ordering
  import opened Paths
  import opened Reduction

  // ---------- reading the converted grammar ----------

  /** A rule in Greibach normal form, taken apart. */
  function Tokenize(r: Rule): GnfRule
    requires r != []
  {
    GnfRule(r[0], r[1..])
  }

  function TokenizeAll(list: seq<Rule>): (rules: seq<GnfRule>)
    requires forall i :: 0 <= i < |list| ==> list[i] != []
    ensures |rules| == |list|
  {
    seq(|list|, i requires 0 <= i < |list| => Tokenize(list[i]))
  }

  function FromRules(h: Rules): Gram
    requires Greibach(h)
  {
    map a | a in h :: ListOf(h, a)
  }

  function ListOf(h: Rules, a: Token): seq<GnfRule>
    requires Greibach(h) && a in h
  {
    NonEmpty(h, a);
    assert forall i :: 0 <= i < |h[a]| ==> h[a][i] in h[a];
    TokenizeAll(h[a])
  }

  lemma NonEmpty(h: Rules, a: Token)
    requires Greibach(h) && a in h
    ensures forall r: Rule :: r in h[a] ==> r != [] && r[0].Terminal? && TailNonterminal(r)
  {
    forall r: Rule | r in h[a]
      ensures r != [] && r[0].Terminal? && TailNonterminal(r)
    {
      assert HasRule(h, a, r);
    }
  }

  lemma TokenizedBack(r: Rule)
    requires r != []
    ensures AsRule(Tokenize(r)) == r
  {
  }

  /** Taking the rules apart loses nothing. */
  lemma FromRulesBack(h: Rules)
    requires Greibach(h)
    ensures AsGrammar(FromRules(h)) == h
  {
    hide Greibach, AsRule, Tokenize;
    forall a | a in h
      ensures AsRules(FromRules(h)[a]) == h[a]
    {
      NonEmpty(h, a);
      forall i | 0 <= i < |h[a]|
        ensures AsRules(FromRules(h)[a])[i] == h[a][i]
      {
        assert h[a][i] in h[a];
        TokenizedBack(h[a][i]);
      }
    }
  }

  lemma FromRulesShape(h: Rules)
    requires Greibach(h)
    ensures GnfShape(FromRules(h))
  {
    hide Greibach, TailNonterminal;
    var g := FromRules(h);
    forall a, r: GnfRule | a in g && r in g[a]
      ensures r.terminal.Terminal? && forall i :: 0 <= i < |r.ss| ==> !r.ss[i].Terminal?
    {
      NonEmpty(h, a);
      var k :| 0 <= k < |g[a]| && g[a][k] == r;
      TokenizedShape(h[a][k]);
    }
  }

  lemma TokenizedShape(r: Rule)
    requires r != [] && r[0].Terminal? && TailNonterminal(r)
    ensures Tokenize(r).terminal.Terminal? && forall i :: 0 <= i < |Tokenize(r).ss| ==> !Tokenize(r).ss[i].Terminal?
  {
  }

  // ---------- words of the input grammar ----------

  /** The terminals without the one that stands for an empty tail, each as often as it occurs. */
  ghost function Letters(w: seq<Token>): multiset<Token>
  {
    multiset(Erase(w))
  }

  lemma {:induction false} LettersAre(w: seq<Token>)
    ensures Letters(w) == multiset(w)[SPACE := 0]
  {
    if w != [] {
      LettersAre(w[1..]);
      assert w == [w[0]] + w[1..];
    }
  }

  lemma SameLetters(v: seq<Token>, w: seq<Token>)
    requires multiset(v) == multiset(w)
    ensures Letters(v) == Letters(w)
  {
    hide Letters;
    LettersAre(v);
    LettersAre(w);
  }

  /** Every accepting path puts out the letters of a word of the grammar. */
  ghost predicate OnlyLetters(g: Rules, start: Token, stacks: seq<seq<Token>>, pda: seq<Transition>)
  {
    forall path, dest :: Accepting(start, stacks, pda, path, dest) ==>
      exists w :: InLanguage(g, start, w) && Letters(w) == Letters(Word(Expansions(path)))
  }

  /** The letters of every word of the grammar are put out on an accepting path. */
  ghost predicate AllLetters(g: Rules, start: Token, stacks: seq<seq<Token>>, pda: seq<Transition>)
  {
    forall w :: InLanguage(g, start, w) ==>
      exists path, dest :: Accepting(start, stacks, pda, path, dest) && Letters(Word(Expansions(path))) == Letters(w)
  }

  /** Without its start rule the converted grammar says the same of the start symbol. */
  lemma WithoutStartRule(h: Rules, start: Token, w: seq<Token>)
    requires START in h && h[START] == [[start]] && Avoids(h - {START}, START) && start != START
    ensures InLanguage(h - {START}, start, w) <==> InLanguage(h, start, w)
  {
    hide Avoids, InLanguage;
    assert (h - {START})[START := [[start]]] == h;
    AddStart(h - {START}, START, start);
  }

  lemma OnlyLettersOf(g: Rules, h: Rules, start: Token, stacks: seq<seq<Token>>, pda: seq<Transition>)
    requires START in h && h[START] == [[start]] && Avoids(h - {START}, START) && start != START && Greibach(h - {START})
    requires Includes(g, h, start) && OnlyWords(FromRules(h - {START}), start, stacks, pda)
    ensures OnlyLetters(g, start, stacks, pda)
  {
    hide Avoids, InLanguage, Accepting, Greibach, FromRules, Expansions, Word, AsGrammar, Erase;
    FromRulesBack(h - {START});
    forall path, dest | Accepting(start, stacks, pda, path, dest)
      ensures exists w :: InLanguage(g, start, w) && Letters(w) == Letters(Word(Expansions(path)))
    {
      var v :| InLanguage(AsGrammar(FromRules(h - {START})), start, v) && multiset(v) == multiset(Word(Expansions(path)));
      WithoutStartRule(h, start, v);
      SameLetters(v, Word(Expansions(path)));
      var w :| InLanguage(g, start, w) && Erase(w) == Erase(v);
    }
  }

  lemma AllLettersOf(g: Rules, h: Rules, start: Token, stacks: seq<seq<Token>>, pda: seq<Transition>)
    requires START in h && h[START] == [[start]] && Avoids(h - {START}, START) && start != START && Greibach(h - {START})
    requires Includes(h, g, start) && AllWords(FromRules(h - {START}), start, stacks, pda)
    ensures AllLetters(g, start, stacks, pda)
  {
    hide Avoids, InLanguage, Accepting, Greibach, FromRules, Expansions, Word, AsGrammar, Erase;
    FromRulesBack(h - {START});
    forall w | InLanguage(g, start, w)
      ensures exists path, dest :: Accepting(start, stacks, pda, path, dest) && Letters(Word(Expansions(path))) == Letters(w)
    {
      var v :| InLanguage(h, start, v) && Erase(v) == Erase(w);
      WithoutStartRule(h, start, v);
      var path, dest :| Accepting(start, stacks, pda, path, dest) && multiset(Word(Expansions(path))) == multiset(v);
      SameLetters(Word(Expansions(path)), v);
    }
  }

  /** Up to the empty-tail terminal, every accepting path puts out a word of the grammar. */
  ghost predicate OnlyErased(g: Rules, start: Token, stacks: seq<seq<Token>>, pda: seq<Transition>)
  {
    forall v :: Accepts(start, stacks, pda, v) ==> exists w :: InLanguage(g, start, w) && Erase(w) == Erase(v)
  }

  /** Up to the empty-tail terminal, every word of the grammar is put out on an accepting path. */
  ghost predicate AllErased(g: Rules, start: Token, stacks: seq<seq<Token>>, pda: seq<Transition>)
  {
    forall w :: InLanguage(g, start, w) ==> exists v :: Accepts(start, stacks, pda, v) && Erase(v) == Erase(w)
  }

  lemma OnlyErasedOf(g: Rules, h: Rules, start: Token, stacks: seq<seq<Token>>, pda: seq<Transition>)
    requires START in h && h[START] == [[start]] && Avoids(h - {START}, START) && start != START && Greibach(h - {START})
    requires Includes(g, h, start) && PathsAreWords(FromRules(h - {START}), start, stacks, pda)
    ensures OnlyErased(g, start, stacks, pda)
  {
    hide Avoids, InLanguage, Accepting, Greibach, FromRules, Expansions, Word, AsGrammar, Erase;
    FromRulesBack(h - {START});
    forall v | Accepts(start, stacks, pda, v)
      ensures exists w :: InLanguage(g, start, w) && Erase(w) == Erase(v)
    {
      var path, dest :| Accepting(start, stacks, pda, path, dest) && Word(Expansions(path)) == v;
      assert InLanguage(AsGrammar(FromRules(h - {START})), start, v);
      WithoutStartRule(h, start, v);
    }
  }

  lemma AllErasedOf(g: Rules, h: Rules, start: Token, stacks: seq<seq<Token>>, pda: seq<Transition>)
    requires START in h && h[START] == [[start]] && Avoids(h - {START}, START) && start != START && Greibach(h - {START})
    requires Includes(h, g, start) && ExactLanguage(FromRules(h - {START}), start, stacks, pda)
    ensures AllErased(g, start, stacks, pda)
  {
    hide Avoids, InLanguage, Accepts, Greibach, FromRules, AsGrammar, Erase;
    FromRulesBack(h - {START});
    forall w | InLanguage(g, start, w)
      ensures exists v :: Accepts(start, stacks, pda, v) && Erase(v) == Erase(w)
    {
      var v :| InLanguage(h, start, v) && Erase(v) == Erase(w);
      WithoutStartRule(h, start, v);
      assert InLanguage(AsGrammar(FromRules(h - {START})), start, v);
    }
  }

  // ---------- both programs ----------

  /** The name of the start symbol is read from the rule of the start name; that rule is not used again. */
  method GrammarToAutomaton(grammar: Dict, start: Token, rounds: nat, limit: nat)
    returns (r: Outcome, ok: bool, stacks: seq<seq<Token>>, pda: seq<Transition>, dropped: set<Expansion>)
    requires grammar.Ok() && Bounded(grammar.rules, 1) && Avoids(grammar.rules, START)
    requires start.Named? && start != START && limit > 0
    ensures r == InNormalForm(grammar, start, 1, rounds) && (ok ==> r.Converted?)
    ensures r.Converted? ==> Greibach(r.g.rules - {START}) && (Closed(FromRules(r.g.rules - {START}), start) ==> ok)
    ensures ok ==> OnlyLetters(grammar.rules, start, stacks, pda)
    ensures ok && dropped == {} ==> AllLetters(grammar.rules, start, stacks, pda)
    ensures ok && OneOrder(FromRules(r.g.rules - {START}), start) ==> OnlyErased(grammar.rules, start, stacks, pda)
    ensures ok && OneOrder(FromRules(r.g.rules - {START}), start) && dropped == {} ==> AllErased(grammar.rules, start, stacks, pda)
  {
    hide Avoids, Bounded, Greibach, OnlyWords, AllWords, OnlyLetters, AllLetters, InNormalForm, Closed, OnlyDerivations,
      AllDerivations, DropsOk, DistinctStates, AllLeftmost, OrderKept, PathsAreWords, OneOrder, StacksFit, ExactLanguage, OnlyErased, AllErased, FromRules, GnfShape, Includes;
    var converter := new Converter();
    r := converter.ConvertToGnf(grammar, start, rounds);
    ok, stacks, pda, dropped := false, [], [], {};
    if r.Converted? {
      var h := r.g.rules - {START};
      var g := FromRules(h);
      FromRulesShape(h);
      StartIncluded(grammar.rules, r.g.rules, start);
      ok, stacks, pda, dropped := BuildAutomaton(g, start, limit);
      if ok {
        OnlyLettersOf(grammar.rules, r.g.rules, start, stacks, pda);
        if dropped == {} { AllLettersOf(grammar.rules, r.g.rules, start, stacks, pda); }
        if OneOrder(g, start) {
          OnlyErasedOf(grammar.rules, r.g.rules, start, stacks, pda);
          if dropped == {} { AllErasedOf(grammar.rules, r.g.rules, start, stacks, pda); }
        }
      }
    }
  }

  lemma StartIncluded(g: Rules, h: Rules, start: Token)
    requires ConvertedRight(g, h, start, 1) && start.Named? && start != START
    ensures Includes(g, h, start) && Includes(h, g, start)
  {
    hide Includes, InLanguage;
  }
}
