/** Paths of a finished automaton: what they have to do with derivations and with words. */
module Paths {
  import opened Grammar
  import opened Reduction

  datatype Transition = Transition(source: nat, dest: nat, trigger: nat, lhs: Token, rule: GnfRule)

  ghost function ExpansionOf(t: Transition): Expansion
  {
    Expansion(t.lhs, t.rule)
  }

  ghost function Expansions(path: seq<Transition>): seq<Expansion>
  {
    if path == [] then [] else [ExpansionOf(path[0])] + Expansions(path[1..])
  }

  /** A path of transitions of the automaton. */
  ghost predicate Path(pda: seq<Transition>, source: nat, path: seq<Transition>, dest: nat)
    decreases |path|
  {
    if path == [] then source == dest
    else path[0] in pda && path[0].source == source && Path(pda, path[0].dest, path[1..], dest)
  }

  // ---------- what the construction keeps ----------

  /** The stack of a state; state 0 stands for the start symbol and is not recorded. */
  ghost function StackOf(start: Token, stacks: seq<seq<Token>>, state: nat): seq<Token>
    requires state <= |stacks|
  {
    if state == 0 then [start] else stacks[state - 1]
  }

  ghost function Pending(start: Token, stacks: seq<seq<Token>>, state: nat): multiset<Token>
    requires state <= |stacks|
  {
    multiset(StackOf(start, stacks, state))
  }

  /** The stack after expanding the top of `stack` with `r`. */
  function NextStack(stack: seq<Token>, r: GnfRule): seq<Token>
    requires stack != []
  {
    r.ss + stack[1..]
  }

  lemma NextPending(stack: seq<Token>, e: Expansion)
    requires stack != [] && e.lhs == stack[0]
    ensures multiset(NextStack(stack, e.rule)) == After(multiset(stack), e)
  {
    assert stack == [stack[0]] + stack[1..];
    AfterFirst(stack[0], stack[1..], e);
  }

  /** A transition expands the top of its source's stack and leads to a state with what is then pending. */
  ghost predicate TransitionOk(g: Gram, start: Token, stacks: seq<seq<Token>>, t: Transition)
  {
    && t.source <= |stacks| && 1 <= t.dest <= |stacks|
    && StackOf(start, stacks, t.source) != [] && StackOf(start, stacks, t.source)[0] == t.lhs
    && IsRule(g, ExpansionOf(t))
    && Pending(start, stacks, t.dest) == After(Pending(start, stacks, t.source), ExpansionOf(t))
  }

  ghost predicate TransitionsOk(g: Gram, start: Token, stacks: seq<seq<Token>>, pda: seq<Transition>)
  {
    forall t :: t in pda ==> TransitionOk(g, start, stacks, t)
  }

  /** No two recorded states hold the same nonterminals. */
  ghost predicate DistinctStates(stacks: seq<seq<Token>>)
  {
    forall i, j :: 0 <= i < j < |stacks| ==> multiset(stacks[i]) != multiset(stacks[j])
  }

  /** The rule has a transition from the state, or was dropped because of the stack limit. */
  ghost predicate RuleTaken(pda: seq<Transition>, dropped: set<Expansion>, state: nat, lhs: Token, r: GnfRule)
  {
    Expansion(lhs, r) in dropped || exists t :: t in pda && t.source == state && t.lhs == lhs && t.rule == r
  }

  ghost predicate ExpandedState(g: Gram, start: Token, stacks: seq<seq<Token>>, pda: seq<Transition>,
                                dropped: set<Expansion>, state: nat)
    requires state <= |stacks|
  {
    var stack := StackOf(start, stacks, state);
    stack != [] ==> stack[0] in g && forall r :: r in g[stack[0]] ==> RuleTaken(pda, dropped, state, stack[0], r)
  }

  /** All states below `n` have all their transitions. */
  ghost predicate ExpandedUpTo(g: Gram, start: Token, stacks: seq<seq<Token>>, pda: seq<Transition>,
                               dropped: set<Expansion>, n: nat)
  {
    n <= |stacks| + 1 && forall s :: 0 <= s < n ==> ExpandedState(g, start, stacks, pda, dropped, s)
  }

  // ---------- soundness ----------

  lemma {:induction false} PathReduces(g: Gram, start: Token, stacks: seq<seq<Token>>, pda: seq<Transition>,
                                       source: nat, path: seq<Transition>, dest: nat)
    requires TransitionsOk(g, start, stacks, pda) && Path(pda, source, path, dest)
    requires source <= |stacks| && dest <= |stacks| && StackOf(start, stacks, dest) == []
    ensures Uses(g, Expansions(path)) && Reduces(Pending(start, stacks, source), Expansions(path))
    decreases |path|
  {
    if path != [] {
      var t := path[0];
      assert TransitionOk(g, start, stacks, t);
      PathReduces(g, start, stacks, pda, t.dest, path[1..], dest);
      assert Expansions(path)[1..] == Expansions(path[1..]);
      assert t.lhs in Pending(start, stacks, source);
    }
  }

  /** Every path from the initial state to an empty stack uses exactly the rules, each as often, of a
      complete leftmost derivation from the start symbol. */
  lemma PathIsDerivation(g: Gram, start: Token, stacks: seq<seq<Token>>, pda: seq<Transition>,
                         path: seq<Transition>, dest: nat) returns (derivation: seq<Expansion>)
    requires TransitionsOk(g, start, stacks, pda) && Path(pda, 0, path, dest)
    requires dest <= |stacks| && StackOf(start, stacks, dest) == []
    ensures Leftmost([start], derivation) && Uses(g, derivation)
    ensures multiset(derivation) == multiset(Expansions(path))
  {
    PathReduces(g, start, stacks, pda, 0, path, dest);
    derivation := Rearrange([start], Expansions(path));
    UsesSame(g, Expansions(path), derivation);
  }

  // ---------- completeness ----------

  lemma {:induction false} RunHasPath(g: Gram, start: Token, stacks: seq<seq<Token>>, pda: seq<Transition>,
                                      source: nat, run: seq<Expansion>) returns (path: seq<Transition>, dest: nat)
    requires TransitionsOk(g, start, stacks, pda) && source <= |stacks|
    requires forall s :: 0 <= s <= |stacks| ==> ExpandedState(g, start, stacks, pda, {}, s)
    requires Uses(g, run) && Reduces(Pending(start, stacks, source), run)
    ensures Path(pda, source, path, dest) && dest <= |stacks| && StackOf(start, stacks, dest) == []
    ensures multiset(Expansions(path)) == multiset(run)
    decreases |run|
  {
    hide After;
    var stack := StackOf(start, stacks, source);
    if stack == [] {
      NothingPending(run);
      path, dest := [], source;
    } else {
      var i := MoveToFront(multiset(stack), run, stack[0]);
      var e, rest := run[i], run[..i] + run[i + 1..];
      PickOut(run, i);
      UsesSame(g, run, [e] + rest);
      assert e in [e] + rest && IsRule(g, e);
      assert ExpandedState(g, start, stacks, pda, {}, source);
      assert RuleTaken(pda, {}, source, stack[0], e.rule);
      var t :| t in pda && t.source == source && t.lhs == stack[0] && t.rule == e.rule;
      assert TransitionOk(g, start, stacks, t) && ExpansionOf(t) == e;
      assert forall f :: f in rest ==> f in [e] + rest;
      var tail;
      tail, dest := RunHasPath(g, start, stacks, pda, t.dest, rest);
      path := [t] + tail;
      assert path[1..] == tail;
      assert Expansions(path) == [e] + Expansions(tail);
    }
  }

  /** If no rule was dropped, the rules of every complete derivation from the start symbol label,
      each as often, a path from the initial state to an empty stack. */
  lemma DerivationHasPath(g: Gram, start: Token, stacks: seq<seq<Token>>, pda: seq<Transition>, derivation: seq<Expansion>)
    returns (path: seq<Transition>, dest: nat)
    requires TransitionsOk(g, start, stacks, pda)
    requires forall s :: 0 <= s <= |stacks| ==> ExpandedState(g, start, stacks, pda, {}, s)
    requires Leftmost([start], derivation) && Uses(g, derivation)
    ensures Path(pda, 0, path, dest) && dest <= |stacks| && StackOf(start, stacks, dest) == []
    ensures multiset(Expansions(path)) == multiset(derivation)
  {
    LeftmostReduces([start], derivation);
    path, dest := RunHasPath(g, start, stacks, pda, 0, derivation);
  }

  // ---------- the finished automaton ----------

  /** The path ends in a state with nothing left to expand. */
  ghost predicate Accepting(start: Token, stacks: seq<seq<Token>>, pda: seq<Transition>, path: seq<Transition>, dest: nat)
  {
    Path(pda, 0, path, dest) && dest <= |stacks| && StackOf(start, stacks, dest) == []
  }

  ghost predicate IsDerivation(g: Gram, start: Token, run: seq<Expansion>)
  {
    Leftmost([start], run) && Uses(g, run)
  }

  /** Every accepting path uses the rules of a complete derivation, each as often. */
  ghost predicate OnlyDerivations(g: Gram, start: Token, stacks: seq<seq<Token>>, pda: seq<Transition>)
  {
    forall path, dest :: Accepting(start, stacks, pda, path, dest) ==>
      exists run :: IsDerivation(g, start, run) && multiset(run) == multiset(Expansions(path))
  }

  /** The rules of every complete derivation label an accepting path, each as often. */
  ghost predicate AllDerivations(g: Gram, start: Token, stacks: seq<seq<Token>>, pda: seq<Transition>)
  {
    forall run :: IsDerivation(g, start, run) ==>
      exists path, dest :: Accepting(start, stacks, pda, path, dest) && multiset(Expansions(path)) == multiset(run)
  }

  lemma SoundAutomaton(g: Gram, start: Token, stacks: seq<seq<Token>>, pda: seq<Transition>)
    requires TransitionsOk(g, start, stacks, pda)
    ensures OnlyDerivations(g, start, stacks, pda)
  {
    forall path, dest | Accepting(start, stacks, pda, path, dest)
      ensures exists run :: IsDerivation(g, start, run) && multiset(run) == multiset(Expansions(path))
    {
      var run := PathIsDerivation(g, start, stacks, pda, path, dest);
      assert IsDerivation(g, start, run);
    }
  }

  lemma CompleteAutomaton(g: Gram, start: Token, stacks: seq<seq<Token>>, pda: seq<Transition>)
    requires TransitionsOk(g, start, stacks, pda) && ExpandedUpTo(g, start, stacks, pda, {}, |stacks| + 1)
    ensures AllDerivations(g, start, stacks, pda)
  {
    forall run | IsDerivation(g, start, run)
      ensures exists path, dest :: Accepting(start, stacks, pda, path, dest) && multiset(Expansions(path)) == multiset(run)
    {
      var path, dest := DerivationHasPath(g, start, stacks, pda, run);
      assert Accepting(start, stacks, pda, path, dest);
    }
  }

  // ---------- words ----------

  /** Every accepting path puts out the terminals of a word of the language, each as often. */
  ghost predicate OnlyWords(g: Gram, start: Token, stacks: seq<seq<Token>>, pda: seq<Transition>)
  {
    forall path, dest :: Accepting(start, stacks, pda, path, dest) ==>
      exists w :: InLanguage(AsGrammar(g), start, w) && multiset(w) == multiset(Word(Expansions(path)))
  }

  /** The terminals of every word of the language, each as often, are put out on an accepting path. */
  ghost predicate AllWords(g: Gram, start: Token, stacks: seq<seq<Token>>, pda: seq<Transition>)
  {
    forall w :: InLanguage(AsGrammar(g), start, w) ==>
      exists path, dest :: Accepting(start, stacks, pda, path, dest) && multiset(Word(Expansions(path))) == multiset(w)
  }

  lemma DerivationsToWords(g: Gram, start: Token, stacks: seq<seq<Token>>, pda: seq<Transition>)
    requires GnfShape(g) && !start.Terminal? && OnlyDerivations(g, start, stacks, pda)
    ensures OnlyWords(g, start, stacks, pda)
  {
    hide Accepting, AsGrammar, GnfShape;
    forall path, dest | Accepting(start, stacks, pda, path, dest)
      ensures exists w :: InLanguage(AsGrammar(g), start, w) && multiset(w) == multiset(Word(Expansions(path)))
    {
      var run :| IsDerivation(g, start, run) && multiset(run) == multiset(Expansions(path));
      LeftmostDerives(g, [start], run);
      SameTerminals(run, Expansions(path));
      assert InLanguage(AsGrammar(g), start, Word(run));
    }
  }

  lemma WordsFromDerivations(g: Gram, start: Token, stacks: seq<seq<Token>>, pda: seq<Transition>)
    requires GnfShape(g) && !start.Terminal? && AllDerivations(g, start, stacks, pda)
    ensures AllWords(g, start, stacks, pda)
  {
    hide Accepting, AsGrammar, GnfShape;
    forall w | InLanguage(AsGrammar(g), start, w)
      ensures exists path, dest :: Accepting(start, stacks, pda, path, dest) && multiset(Word(Expansions(path))) == multiset(w)
    {
      var steps :| Derives(AsGrammar(g), [start], w, steps);
      var run := DerivesLeftmost(g, [start], w, steps);
      assert IsDerivation(g, start, run);
      var path, dest :| Accepting(start, stacks, pda, path, dest) && multiset(Expansions(path)) == multiset(run);
      SameTerminals(Expansions(path), run);
    }
  }
}
