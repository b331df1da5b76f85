/** Derivations up to reordering: a multiset of pending nonterminals is expanded in any order.
    Any such run can be rearranged into a leftmost derivation that uses the same rules equally often. */
module Reduction {
  import opened Grammar

  /** A rule in Greibach normal form: a terminal and the nonterminals to be expanded after it. */
  datatype GnfRule = GnfRule(terminal: Token, ss: seq<Token>)

  type Gram = map<Token, seq<GnfRule>>

  /** The use of a rule at a nonterminal. */
  datatype Expansion = Expansion(lhs: Token, rule: GnfRule)

  ghost predicate Uses(g: Gram, run: seq<Expansion>)
  {
    forall e :: e in run ==> IsRule(g, e)
  }

  ghost predicate IsRule(g: Gram, e: Expansion)
  {
    e.lhs in g && e.rule in g[e.lhs]
  }

  ghost function After(m: multiset<Token>, e: Expansion): multiset<Token>
  {
    m - multiset{e.lhs} + multiset(e.rule.ss)
  }

  /** The expansions, in this order, use up all of `m`. */
  ghost predicate Reduces(m: multiset<Token>, run: seq<Expansion>)
    decreases |run|
  {
    if run == [] then m == multiset{} else run[0].lhs in m && Reduces(After(m, run[0]), run[1..])
  }

  /** The expansions are those of a complete leftmost derivation from the nonterminals of `stack`. */
  ghost predicate Leftmost(stack: seq<Token>, run: seq<Expansion>)
    decreases |run|
  {
    if stack == [] then run == []
    else run != [] && run[0].lhs == stack[0] && Leftmost(run[0].rule.ss + stack[1..], run[1..])
  }

  lemma AfterFirst(x: Token, rest: seq<Token>, e: Expansion)
    requires e.lhs == x
    ensures After(multiset([x] + rest), e) == multiset(e.rule.ss + rest)
  {
    assert multiset([x] + rest) == multiset{x} + multiset(rest);
  }

  /** A leftmost derivation is a run. */
  lemma {:induction false} LeftmostReduces(stack: seq<Token>, run: seq<Expansion>)
    requires Leftmost(stack, run)
    ensures Reduces(multiset(stack), run)
    decreases |run|
  {
    if stack != [] {
      var x, rest := stack[0], stack[1..];
      assert stack == [x] + rest;
      AfterFirst(x, rest, run[0]);
      LeftmostReduces(run[0].rule.ss + rest, run[1..]);
      assert x in multiset(stack);
    }
  }

  /** Any pending nonterminal can be expanded first: its first expansion commutes with those before it. */
  lemma {:induction false} MoveToFront(m: multiset<Token>, run: seq<Expansion>, x: Token) returns (i: nat)
    requires Reduces(m, run) && x in m
    ensures i < |run| && run[i].lhs == x
    ensures Reduces(After(m, run[i]), run[..i] + run[i + 1..])
    decreases |run|
  {
    hide After;
    var e := run[0];
    if e.lhs == x {
      i := 0;
      assert run[..0] + run[1..] == run[1..];
    } else {
      StillPending(m, e, x);
      var j := MoveToFront(After(m, e), run[1..], x);
      i := j + 1;
      assert run[1..][j] == run[i];
      SkipOne(run, j);
      FrontStep(m, e, run[i], run[1..][..j] + run[1..][j + 1..]);
    }
  }

  lemma StillPending(m: multiset<Token>, e: Expansion, x: Token)
    requires x in m && e.lhs != x
    ensures x in After(m, e)
  {
  }

  lemma SkipOne(run: seq<Expansion>, j: nat)
    requires j + 1 < |run|
    ensures run[..j + 1] + run[j + 2..] == [run[0]] + (run[1..][..j] + run[1..][j + 1..])
  {
  }

  lemma FrontStep(m: multiset<Token>, e: Expansion, f: Expansion, rest: seq<Expansion>)
    requires e.lhs != f.lhs && e.lhs in m && f.lhs in m
    requires Reduces(After(After(m, e), f), rest)
    ensures Reduces(After(m, f), [e] + rest)
  {
    Commute(m, e, f);
    StillPending(m, f, e.lhs);
    assert ([e] + rest)[1..] == rest;
  }

  lemma Commute(m: multiset<Token>, e: Expansion, f: Expansion)
    requires e.lhs != f.lhs && e.lhs in m && f.lhs in m
    ensures After(After(m, e), f) == After(After(m, f), e)
  {
  }

  lemma PickOut(run: seq<Expansion>, i: nat)
    requires i < |run|
    ensures multiset(run) == multiset{run[i]} + multiset(run[..i] + run[i + 1..])
    ensures multiset([run[i]] + (run[..i] + run[i + 1..])) == multiset(run)
  {
    assert run == run[..i] + [run[i]] + run[i + 1..];
  }

  lemma UsesSame(g: Gram, run: seq<Expansion>, run': seq<Expansion>)
    requires Uses(g, run) && multiset(run) == multiset(run')
    ensures Uses(g, run')
  {
    forall e | e in run'
      ensures IsRule(g, e)
    {
      assert e in multiset(run');
      assert e in multiset(run);
    }
  }

  lemma NothingPending(run: seq<Expansion>)
    requires Reduces(multiset{}, run)
    ensures run == []
  {
  }

  /** Every run can be rearranged into a leftmost derivation with the same rules. */
  lemma {:induction false} Rearrange(stack: seq<Token>, run: seq<Expansion>) returns (derivation: seq<Expansion>)
    requires Reduces(multiset(stack), run)
    ensures Leftmost(stack, derivation) && multiset(derivation) == multiset(run)
    decreases |run|
  {
    if stack == [] {
      NothingPending(run);
      derivation := [];
    } else {
      var x, rest := stack[0], stack[1..];
      assert stack == [x] + rest;
      var i := MoveToFront(multiset(stack), run, x);
      var e, others := run[i], run[..i] + run[i + 1..];
      AfterFirst(x, rest, e);
      PickOut(run, i);
      var d := Rearrange(e.rule.ss + rest, others);
      derivation := [e] + d;
      assert derivation[1..] == d;
    }
  }

  // ---------- the same derivations in terms of grammars ----------

  function AsRule(r: GnfRule): Rule
  {
    [r.terminal] + r.ss
  }

  ghost function AsRules(list: seq<GnfRule>): seq<Rule>
  {
    seq(|list|, i requires 0 <= i < |list| => AsRule(list[i]))
  }

  ghost function AsGrammar(g: Gram): Rules
  {
    map a | a in g :: AsRules(g[a])
  }

  ghost predicate GnfShape(g: Gram)
  {
    forall a, r :: a in g && r in g[a] ==> r.terminal.Terminal? && forall i :: 0 <= i < |r.ss| ==> !r.ss[i].Terminal?
  }

  /** The terminals that the expansions put out, in order. */
  ghost function Word(run: seq<Expansion>): seq<Token>
  {
    if run == [] then [] else [run[0].rule.terminal] + Word(run[1..])
  }

  lemma {:induction false} WordConcat(a: seq<Expansion>, b: seq<Expansion>)
    ensures Word(a + b) == Word(a) + Word(b)
    decreases |a|
  {
    if a == [] {
      assert a + b == b;
    } else {
      WordConcat(a[1..], b);
      assert (a + b)[1..] == a[1..] + b;
    }
  }

  ghost function Without(run: seq<Expansion>, i: nat): (rest: seq<Expansion>)
    requires i < |run|
    ensures |rest| == |run| - 1
  {
    run[..i] + run[i + 1..]
  }

  lemma RunWithout(run: seq<Expansion>, i: nat)
    requires i < |run|
    ensures multiset(run) == multiset{run[i]} + multiset(Without(run, i))
  {
    PickOut(run, i);
  }

  lemma Apart(run: seq<Expansion>, i: nat)
    requires i < |run|
    ensures run == run[..i] + ([run[i]] + run[i + 1..])
  {
  }

  lemma WordWithout(run: seq<Expansion>, i: nat)
    requires i < |run|
    ensures multiset(Word(run)) == multiset{run[i].rule.terminal} + multiset(Word(Without(run, i)))
  {
    hide Word;
    Apart(run, i);
    WordAround(run[..i], run[i], run[i + 1..]);
  }

  lemma WordAround(before: seq<Expansion>, e: Expansion, after: seq<Expansion>)
    ensures multiset(Word(before + ([e] + after))) == multiset{e.rule.terminal} + multiset(Word(before + after))
  {
    hide Word;
    WordConcat(before, [e] + after);
    WordConcat([e], after);
    WordConcat(before, after);
    WordOne(e);
    Around(Word(before), e.rule.terminal, Word(after));
  }

  lemma Around(a: seq<Token>, x: Token, b: seq<Token>)
    ensures multiset(a + ([x] + b)) == multiset{x} + multiset(a + b)
  {
  }

  lemma WordOne(e: Expansion)
    ensures Word([e]) == [e.rule.terminal]
  {
  }

  /** The same rules put out the same terminals, each as often. */
  lemma {:induction false} SameTerminals(run: seq<Expansion>, run': seq<Expansion>)
    requires multiset(run) == multiset(run')
    ensures multiset(Word(run)) == multiset(Word(run'))
    decreases |run|
  {
    hide Word, Without;
    if run == [] {
      assert |run'| == |multiset(run')|;
    } else {
      var i := IndexOf(run', run[0], run);
      RunWithout(run, 0);
      RunWithout(run', i);
      WordWithout(run, 0);
      WordWithout(run', i);
      Cancel(run[0], multiset(Without(run, 0)), multiset(Without(run', i)));
      SameTerminals(Without(run, 0), Without(run', i));
    }
  }

  lemma IndexOf(run: seq<Expansion>, e: Expansion, other: seq<Expansion>) returns (i: nat)
    requires multiset(run) == multiset(other) && e in other
    ensures i < |run| && run[i] == e
  {
    assert e in multiset(other);
    assert e in multiset(run);
    i :| i < |run| && run[i] == e;
  }

  lemma Cancel(e: Expansion, a: multiset<Expansion>, b: multiset<Expansion>)
    requires multiset{e} + a == multiset{e} + b
    ensures a == b
  {
    assert multiset{e} + a - multiset{e} == a && multiset{e} + b - multiset{e} == b;
  }

  ghost function Bodies(run: seq<Expansion>): seq<Rule>
  {
    if run == [] then [] else [AsRule(run[0].rule)] + Bodies(run[1..])
  }

  /** A leftmost run from the stack is a derivation in the grammar of the terminals it puts out. */
  lemma {:induction false} LeftmostDerives(g: Gram, stack: seq<Token>, run: seq<Expansion>)
    requires GnfShape(g) && Uses(g, run) && Leftmost(stack, run)
    requires forall i :: 0 <= i < |stack| ==> !stack[i].Terminal?
    ensures Derives(AsGrammar(g), stack, Word(run), Bodies(run))
    decreases |run|
  {
    if stack != [] {
      var e, rest := run[0], stack[1..];
      assert stack == [stack[0]] + rest;
      assert e in run && IsRule(g, e);
      var next := e.rule.ss + rest;
      assert forall f :: f in run[1..] ==> f in run;
      LeftmostDerives(g, next, run[1..]);
      assert AsRule(e.rule) + rest == [e.rule.terminal] + next;
      assert ([e.rule.terminal] + next)[1..] == next;
      RuleOfGrammar(g, e);
      DerivesStep(AsGrammar(g), stack[0], rest, AsRule(e.rule), Word(run), Bodies(run[1..]));
    }
  }

  lemma RuleOfGrammar(g: Gram, e: Expansion)
    requires IsRule(g, e)
    ensures HasRule(AsGrammar(g), e.lhs, AsRule(e.rule))
  {
    var i :| 0 <= i < |g[e.lhs]| && g[e.lhs][i] == e.rule;
    assert AsRules(g[e.lhs])[i] == AsRule(e.rule);
  }

  lemma GrammarRule(g: Gram, a: Token, r: Rule) returns (e: Expansion)
    requires HasRule(AsGrammar(g), a, r)
    ensures IsRule(g, e) && e.lhs == a && AsRule(e.rule) == r
  {
    var i :| 0 <= i < |AsRules(g[a])| && AsRules(g[a])[i] == r;
    e := Expansion(a, g[a][i]);
  }

  /** Every derivation in the grammar is a leftmost run that puts out the same word. */
  lemma {:induction false} DerivesLeftmost(g: Gram, stack: seq<Token>, w: seq<Token>, steps: seq<Rule>)
    returns (run: seq<Expansion>)
    requires GnfShape(g) && Derives(AsGrammar(g), stack, w, steps)
    requires forall i :: 0 <= i < |stack| ==> !stack[i].Terminal?
    ensures Uses(g, run) && Leftmost(stack, run) && Word(run) == w && Bodies(run) == steps
    decreases |steps|
  {
    if stack == [] {
      run := [];
    } else {
      hide AsGrammar, AsRules;
      var e := GrammarRule(g, stack[0], steps[0]);
      var next := e.rule.ss + stack[1..];
      assert AsRule(e.rule) + stack[1..] == [e.rule.terminal] + next;
      assert ([e.rule.terminal] + next)[1..] == next;
      var rest := DerivesLeftmost(g, next, w[1..], steps[1..]);
      run := [e] + rest;
      assert run[1..] == rest;
      assert w == [w[0]] + w[1..] && steps == [steps[0]] + steps[1..];
    }
  }
}
