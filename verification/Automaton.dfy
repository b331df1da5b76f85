/** The automaton construction: states are stacks of pending nonterminals, merged when they hold the
    same nonterminals in any order. */
module Automaton {
  import opened Grammar
  import opened Layout
  import opened Ordering
  import opened Paths
  import opened Reduction

  // ---------- growing the automaton ----------

  /** The nonterminals that rules push. */
  ghost function Alphabet(g: Gram): set<Token>
  {
    set a, k: nat, i: nat | a in g && k < |g[a]| && i < |g[a][k].ss| :: g[a][k].ss[i]
  }

  ghost predicate StacksOk(g: Gram, limit: nat, stacks: seq<seq<Token>>)
  {
    forall k :: 0 <= k < |stacks| ==> StackFits(g, limit, stacks[k])
  }

  ghost predicate StackFits(g: Gram, limit: nat, stack: seq<Token>)
  {
    (limit > 0 ==> |stack| <= limit) && forall i :: 0 <= i < |stack| ==> stack[i] in Alphabet(g)
  }

  /** The waiting states are the last ones, in order: each state waits once. */
  ghost predicate WorklistOk(start: Token, stacks: seq<seq<Token>>, worklist: seq<(nat, seq<Token>)>)
  {
    |worklist| <= |stacks| + 1 &&
    forall k :: 0 <= k < |worklist| ==>
      worklist[k] == (|stacks| + 1 - |worklist| + k, StackOf(start, stacks, |stacks| + 1 - |worklist| + k))
  }

  lemma NewStateTransitions(g: Gram, start: Token, stacks: seq<seq<Token>>, stack: seq<Token>, pda: seq<Transition>)
    requires TransitionsOk(g, start, stacks, pda)
    ensures TransitionsOk(g, start, stacks + [stack], pda)
  {
    forall t | t in pda
      ensures TransitionOk(g, start, stacks + [stack], t)
    {
      assert TransitionOk(g, start, stacks, t);
      SameStack(start, stacks, stack, t.source);
      SameStack(start, stacks, stack, t.dest);
    }
  }

  lemma SameStack(start: Token, stacks: seq<seq<Token>>, stack: seq<Token>, state: nat)
    requires state <= |stacks|
    ensures StackOf(start, stacks + [stack], state) == StackOf(start, stacks, state)
  {
  }

  lemma NewWaiting(start: Token, stacks: seq<seq<Token>>, worklist: seq<(nat, seq<Token>)>, stack: seq<Token>)
    requires WorklistOk(start, stacks, worklist)
    ensures WorklistOk(start, stacks + [stack], worklist + [(|stacks| + 1, stack)])
  {
  }

  lemma NextInAlphabet(g: Gram, limit: nat, start: Token, stacks: seq<seq<Token>>, state: nat, e: Expansion)
    requires state <= |stacks| && StacksOk(g, limit, stacks) && IsRule(g, e)
    requires StackOf(start, stacks, state) != []
    ensures forall i :: 0 <= i < |NextStack(StackOf(start, stacks, state), e.rule)| ==>
              NextStack(StackOf(start, stacks, state), e.rule)[i] in Alphabet(g)
  {
    var stack := StackOf(start, stacks, state);
    var k: nat :| k < |g[e.lhs]| && g[e.lhs][k] == e.rule;
    forall i | 0 <= i < |NextStack(stack, e.rule)|
      ensures NextStack(stack, e.rule)[i] in Alphabet(g)
    {
      if i < |e.rule.ss| {
        assert g[e.lhs][k].ss[i] in Alphabet(g);
      } else {
        var j := i - |e.rule.ss| + 1;
        assert StackFits(g, limit, stacks[state - 1]);
        assert stack[j] in Alphabet(g);
      }
    }
  }

  /** What holds at every moment of the construction. */
  ghost predicate SoundState(g: Gram, start: Token, limit: nat, stacks: seq<seq<Token>>, pda: seq<Transition>)
  {
    TransitionsOk(g, start, stacks, pda) && DistinctStates(stacks) && StacksOk(g, limit, stacks)
  }

  /** No rule is dropped without need. */
  ghost predicate DropsOk(g: Gram, start: Token, limit: nat, stacks: seq<seq<Token>>, dropped: set<Expansion>)
  {
    forall e :: e in dropped ==> exists s: nat :: TooLarge(g, start, limit, stacks, e, s)
  }

  lemma DropsStay(g: Gram, start: Token, limit: nat, stacks: seq<seq<Token>>, stack: seq<Token>, dropped: set<Expansion>)
    requires DropsOk(g, start, limit, stacks, dropped)
    ensures DropsOk(g, start, limit, stacks + [stack], dropped)
  {
    hide IsRule, NextStack;
    forall e | e in dropped
      ensures exists s: nat :: TooLarge(g, start, limit, stacks + [stack], e, s)
    {
      var s: nat :| TooLarge(g, start, limit, stacks, e, s);
      assert TooLarge(g, start, limit, stacks + [stack], e, s);
    }
  }

  lemma DropOne(g: Gram, start: Token, limit: nat, stacks: seq<seq<Token>>, dropped: set<Expansion>, e: Expansion, s: nat)
    requires DropsOk(g, start, limit, stacks, dropped) && TooLarge(g, start, limit, stacks, e, s)
    ensures DropsOk(g, start, limit, stacks, dropped + {e})
  {
    hide TooLarge;
  }

  /** Every nonterminal that can be on a stack has rules, and every rule can be taken apart. */
  ghost predicate Closed(g: Gram, start: Token)
  {
    start in g && Alphabet(g) <= g.Keys && forall a, r :: a in g && r in g[a] ==> Tokenizes(r)
  }

  lemma TopHasRules(g: Gram, start: Token, limit: nat, stacks: seq<seq<Token>>, pda: seq<Transition>, s: nat)
    requires SoundState(g, start, limit, stacks, pda) && Closed(g, start)
    requires s <= |stacks| && StackOf(start, stacks, s) != []
    ensures StackOf(start, stacks, s)[0] in g
  {
    hide Alphabet, TransitionsOk, DistinctStates;
    if s > 0 {
      assert StackFits(g, limit, stacks[s - 1]);
    }
  }

  /** A new transition to a recorded state with the right contents. */
  lemma AddTransition(g: Gram, start: Token, limit: nat, stacks: seq<seq<Token>>, pda: seq<Transition>, t: Transition)
    requires SoundState(g, start, limit, stacks, pda)
    requires t.source <= |stacks| && 1 <= t.dest <= |stacks| && IsRule(g, ExpansionOf(t))
    requires StackOf(start, stacks, t.source) != [] && StackOf(start, stacks, t.source)[0] == t.lhs
    requires multiset(stacks[t.dest - 1]) == multiset(NextStack(StackOf(start, stacks, t.source), t.rule))
    ensures SoundState(g, start, limit, stacks, pda + [t])
  {
    hide DistinctStates, StacksOk;
    NextPending(StackOf(start, stacks, t.source), ExpansionOf(t));
    assert TransitionOk(g, start, stacks, t);
    forall u | u in pda + [t]
      ensures TransitionOk(g, start, stacks, u)
    {
      if u in pda { assert TransitionOk(g, start, stacks, u); }
    }
  }

  /** A new state for a stack that no recorded state holds. */
  lemma AddState(g: Gram, start: Token, limit: nat, stacks: seq<seq<Token>>, pda: seq<Transition>, stack: seq<Token>)
    requires SoundState(g, start, limit, stacks, pda) && StackFits(g, limit, stack)
    requires forall i :: 0 <= i < |stacks| ==> multiset(stacks[i]) != multiset(stack)
    ensures SoundState(g, start, limit, stacks + [stack], pda)
  {
    hide TransitionsOk, StackFits;
    NewStateTransitions(g, start, stacks, stack, pda);
  }

  lemma BornStay(start: Token, stacks: seq<seq<Token>>, pda: seq<Transition>, pda': seq<Transition>)
    requires Born(start, stacks, pda) && pda <= pda'
    ensures Born(start, stacks, pda')
  {
    hide InOrder;
    forall k: nat | 1 <= k <= |stacks|
      ensures BornAt(start, stacks, pda', k)
    {
      assert BornAt(start, stacks, pda, k);
      var t :| t in pda && t.dest == k && t.source < k && InOrder(start, stacks, t);
      assert t in pda';
    }
  }

  /** The transition that makes a state. */
  lemma BornNext(start: Token, stacks: seq<seq<Token>>, stack: seq<Token>, pda: seq<Transition>, t: Transition)
    requires Born(start, stacks, pda) && t.source <= |stacks| && t.dest == |stacks| + 1
    requires StackOf(start, stacks, t.source) != [] && stack == NextStack(StackOf(start, stacks, t.source), t.rule)
    ensures Born(start, stacks + [stack], pda + [t])
  {
    hide NextStack, StackOf;
    var more := stacks + [stack];
    forall k: nat | 1 <= k <= |more|
      ensures BornAt(start, more, pda + [t], k)
    {
      if k <= |stacks| {
        assert BornAt(start, stacks, pda, k);
        var u :| u in pda && u.dest == k && u.source < k && InOrder(start, stacks, u);
        SameStack(start, stacks, stack, u.source);
        SameStack(start, stacks, stack, u.dest);
        assert u in pda + [t];
      } else {
        SameStack(start, stacks, stack, t.source);
        NewStack(start, stacks, stack);
        assert t in pda + [t];
      }
    }
  }

  lemma NewStack(start: Token, stacks: seq<seq<Token>>, stack: seq<Token>)
    ensures StackOf(start, stacks + [stack], |stacks| + 1) == stack
  {
  }

  /** The globals of the construction script. */
  class Builder {
    const gram: Gram
    const start: Token
    /** The bound on the stack size; zero means that there is none. */
    const limit: nat
    var stateCount: nat
    var pda: seq<Transition>
    var worklist: seq<(nat, seq<Token>)>
    /** The stacks of states 1, 2, ... in the order in which the states were created. */
    var stateStacks: seq<seq<Token>>
    var unexpanded: set<Expansion>

    constructor (g: Gram, startSymbol: Token, stackLimit: nat)
      ensures gram == g && start == startSymbol && limit == stackLimit
      ensures Valid() && Finished() == 0
    {
      gram, start, limit := g, startSymbol, stackLimit;
      stateCount, pda, stateStacks, unexpanded := 1, [], [], {};
      worklist := [(0, [startSymbol])];
    }

    /** How many states have left the worklist. */
    ghost function Finished(): int
      reads this
    {
      stateCount - |worklist|
    }

    ghost predicate Sound()
      reads this
    {
      && stateCount == |stateStacks| + 1 && |worklist| <= stateCount
      && SoundState(gram, start, limit, stateStacks, pda)
      && WorklistOk(start, stateStacks, worklist) && DropsOk(gram, start, limit, stateStacks, unexpanded)
      && Born(start, stateStacks, pda)
    }

    /** Between two worklist elements: every state that is not waiting has all its transitions. */
    ghost predicate Valid()
      reads this
    {
      && Sound()
      && LaidBelow(gram, start, limit, stateStacks, pda, unexpanded, Finished()) && SourcesBelow(pda, Finished())
    }

    /** While state `s` is being expanded: its first `j` rules are dealt with. */
    ghost predicate Expanding(s: nat, j: nat)
      reads this
    {
      && Sound() && s == Finished() - 1
      && LaidBelow(gram, start, limit, stateStacks, pda, unexpanded, s) && SourcesBelow(pda, s + 1)
      && RulesLaid(gram, start, limit, stateStacks, pda, unexpanded, s, j)
    }

    /** The first recorded state with the same nonterminals.  Two stacks are equal when sorted exactly
        if they hold the same nonterminals equally often. */
    method FindState(stack: seq<Token>) returns (found: bool, state: nat)
      ensures found ==> 1 <= state <= |stateStacks| && multiset(stateStacks[state - 1]) == multiset(stack)
      ensures !found ==> forall i :: 0 <= i < |stateStacks| ==> multiset(stateStacks[i]) != multiset(stack)
    {
      for i := 0 to |stateStacks|
        invariant forall k :: 0 <= k < i ==> multiset(stateStacks[k]) != multiset(stack)
      {
        if multiset(stateStacks[i]) == multiset(stack) {
          return true, i + 1;
        }
      }
      found, state := false, 0;
    }

    /** The stack reached from `state` by a rule. */
    method MakeStack(state: nat, r: GnfRule) returns (stack: seq<Token>)
      requires state <= |stateStacks| && StackOf(start, stateStacks, state) != []
      ensures stack == NextStack(StackOf(start, stateStacks, state), r)
    {
      stack := if 1 <= state then stateStacks[state - 1] else [];
      if |stack| > 0 {
        stack := stack[1..];
      }
      ghost var below := stack;
      for i := |r.ss| downto 0
        invariant stack == r.ss[i..] + below
      {
        stack := [r.ss[i]] + stack;
      }
    }

    /** Deals with one rule: a transition to a state that holds the same nonterminals, nothing if the
        stack would be too large, or else a transition to a new state, which then waits. */
    method TakeRule(state: nat, j: nat, lhs: Token, count: nat) returns (count': nat)
      requires Expanding(state, j) && lhs == StackOf(start, stateStacks, state)[0] && j < |gram[lhs]|
      requires count == |RulesFrom(pda, state)| + 1 && Tokenizes(gram[lhs][j])
      modifies this`stateCount, this`pda, this`worklist, this`stateStacks, this`unexpanded
      ensures Expanding(state, j + 1) && lhs == StackOf(start, stateStacks, state)[0]
      ensures count' == |RulesFrom(pda, state)| + 1
      ensures if count' == count then pda == old(pda) && Expansion(lhs, gram[lhs][j]) in unexpanded
              else count' == count + 1 && NextNumbered(old(pda), pda, state, count, lhs, gram[lhs][j])
    {
      hide TransitionsOk, After, DistinctStates, StacksOk, StackFits, NextStack, StackOf, DropsOk, Born, LaidBelow, Fitting,
        RulesFrom, FitsIn;
      ghost var stacks0, pda0 := stateStacks, pda;
      var r := gram[lhs][j];
      var e := Expansion(lhs, r);
      var stack := MakeStack(state, r);
      NextInAlphabet(gram, limit, start, stateStacks, state, e);
      NextSize(limit, StackOf(start, stateStacks, state), r);
      count' := count;
      var found, dest := FindState(stack);
      if found {
        var t := Transition(state, dest, count, lhs, r);
        pda := pda + [t];
        count' := count + 1;
        FoundFits(gram, limit, stateStacks, dest, stack);
        AddTransition(gram, start, limit, stateStacks, pda0, t);
        BornStay(start, stateStacks, pda0, pda);
        LayTransition(gram, start, limit, stateStacks, stateStacks, pda0, unexpanded, t, j);
      } else if limit > 0 && |stack| > limit {
        DropOne(gram, start, limit, stateStacks, unexpanded, e, state);
        LayDrop(gram, start, limit, stateStacks, pda, unexpanded, state, j, e);
        unexpanded := unexpanded + {e};
      } else {
        var t := Transition(state, stateCount, count, lhs, r);
        NewWaiting(start, stateStacks, worklist, stack);
        SameStack(start, stateStacks, stack, state);
        FitsLimit(gram, limit, stack);
        AddState(gram, start, limit, stateStacks, pda, stack);
        DropsStay(gram, start, limit, stateStacks, stack, unexpanded);
        pda := pda + [t];
        worklist := worklist + [(stateCount, stack)];
        stateStacks := stateStacks + [stack];
        stateCount := stateCount + 1;
        count' := count + 1;
        AddTransition(gram, start, limit, stateStacks, pda0, t);
        BornNext(start, stacks0, stack, pda0, t);
        LayTransition(gram, start, limit, stacks0, stateStacks, pda0, unexpanded, t, j);
      }
    }

    /** Gives one state its transitions; fails if the name on top of its stack has no rules, or a rule that
        cannot be taken apart. */
    method PrepTransitions(state: nat, stack: seq<Token>) returns (ok: bool)
      requires Sound() && state == Finished() - 1 && stack == StackOf(start, stateStacks, state)
      requires LaidBelow(gram, start, limit, stateStacks, pda, unexpanded, state) && SourcesBelow(pda, state)
      modifies this`stateCount, this`pda, this`worklist, this`stateStacks, this`unexpanded
      ensures ok ==> Valid() && Finished() == old(Finished())
      ensures Closed(gram, start) ==> ok
    {
      hide SoundState, StackOf, WorklistOk, DropsOk, Closed, Born, LaidBelow, RulesFrom, Fitting, FitsIn;
      if stack == [] {
        LayState(gram, start, limit, stateStacks, pda, unexpanded, state);
        return true;
      }
      var nonterminal := stack[0];
      if Closed(gram, start) { TopHasRules(gram, start, limit, stateStacks, pda, state); }
      if nonterminal !in gram { return false; }
      LayNone(gram, start, limit, stateStacks, pda, unexpanded, state);
      var count := 1;
      for j := 0 to |gram[nonterminal]|
        invariant Expanding(state, j) && nonterminal == StackOf(start, stateStacks, state)[0]
        invariant count == |RulesFrom(pda, state)| + 1
      {
        if !Tokenizes(gram[nonterminal][j]) {
          NotClosed(gram, start, nonterminal, j);
          return false;
        }
        count := TakeRule(state, j, nonterminal, count);
      }
      LayState(gram, start, limit, stateStacks, pda, unexpanded, state);
      ok := true;
    }

    /** Takes the first element from the worklist and expands it. */
    method Step() returns (ok: bool)
      requires Valid() && worklist != []
      modifies this`stateCount, this`pda, this`worklist, this`stateStacks, this`unexpanded
      ensures ok ==> Valid() && Finished() == old(Finished()) + 1
      ensures Closed(gram, start) ==> ok
    {
      hide SoundState, LaidBelow, StackOf, DropsOk, Closed, Born;
      var element := worklist[0];
      worklist := worklist[1..];
      ok := PrepTransitions(element.0, element.1);
    }

    /** The construction with a stack limit: it ends, since each state waits once and there are only
        finitely many multisets within the limit. */
    method MainBounded() returns (ok: bool)
      requires Valid() && limit > 0
      modifies this`stateCount, this`pda, this`worklist, this`stateStacks, this`unexpanded
      ensures ok ==> Valid() && worklist == []
      ensures Closed(gram, start) ==> ok
    {
      hide SoundState, LaidBelow, StackOf, WorklistOk, BoundedMultisets, Alphabet, DropsOk, Closed, Born;
      ok := true;
      while worklist != []
        invariant Valid()
        decreases |BoundedMultisets(Alphabet(gram), limit)| + 1 - Finished()
      {
        StatesBounded(gram, start, limit, stateStacks, pda);
        ok := Step();
        if !ok { return; }
        StatesBounded(gram, start, limit, stateStacks, pda);
      }
    }

    /** The construction without a stack limit need not end; it is followed for `rounds` elements. */
    method MainUnbounded(rounds: nat) returns (ok: bool)
      requires Valid() && Finished() == 0
      modifies this`stateCount, this`pda, this`worklist, this`stateStacks, this`unexpanded
      ensures ok ==> Valid() && worklist == []
      ensures Closed(gram, start) ==> ok || |stateStacks| >= rounds
    {
      hide SoundState, LaidBelow, StackOf, WorklistOk, DropsOk, Closed, Born;
      for i := 0 to rounds
        invariant Valid() && Finished() == i
      {
        if worklist == [] { return true; }
        ok := Step();
        if !ok { return; }
      }
      ok := worklist == [];
    }
  }

  lemma NotClosed(g: Gram, start: Token, a: Token, j: nat)
    requires a in g && j < |g[a]| && !Tokenizes(g[a][j])
    ensures !Closed(g, start)
  {
    hide Alphabet, Tokenizes;
    assert g[a][j] in g[a];
  }

  /** One transition more: the rule `r` of `lhs`, numbered `trigger`. */
  ghost predicate NextNumbered(was: seq<Transition>, now: seq<Transition>, state: nat, trigger: nat, lhs: Token, r: GnfRule)
  {
    |now| == |was| + 1 && was <= now &&
    var t := now[|was|];
    t.source == state && t.trigger == trigger && t.lhs == lhs && t.rule == r
  }

  lemma NextSize(limit: nat, stack: seq<Token>, r: GnfRule)
    requires stack != []
    ensures FitsIn(limit, stack, r) <==> limit == 0 || |NextStack(stack, r)| <= limit
  {
  }

  /** A stack that is recorded is within the limit. */
  lemma FoundFits(g: Gram, limit: nat, stacks: seq<seq<Token>>, d: nat, stack: seq<Token>)
    requires StacksOk(g, limit, stacks) && 1 <= d <= |stacks| && multiset(stacks[d - 1]) == multiset(stack)
    ensures limit == 0 || |stack| <= limit
  {
    assert StackFits(g, limit, stacks[d - 1]);
    SizeOf(stacks[d - 1], stack);
  }

  lemma FitsLimit(g: Gram, limit: nat, stack: seq<Token>)
    requires limit == 0 || |stack| <= limit
    requires forall i :: 0 <= i < |stack| ==> stack[i] in Alphabet(g)
    ensures StackFits(g, limit, stack)
  {
  }

  // ---------- termination: finitely many bounded multisets ----------

  /** The multisets of at most `n` elements of `alphabet`. */
  ghost function BoundedMultisets(alphabet: set<Token>, n: nat): set<multiset<Token>>
  {
    if n == 0 then {multiset{}}
    else BoundedMultisets(alphabet, n - 1) +
         set m, x | m in BoundedMultisets(alphabet, n - 1) && x in alphabet :: m + multiset{x}
  }

  lemma {:induction false} StackInBounded(alphabet: set<Token>, n: nat, stack: seq<Token>)
    requires |stack| <= n && forall i :: 0 <= i < |stack| ==> stack[i] in alphabet
    ensures multiset(stack) in BoundedMultisets(alphabet, n)
    decreases n
  {
    if |stack| < n {
      StackInBounded(alphabet, n - 1, stack);
    } else if n > 0 {
      var init, last := stack[..n - 1], stack[n - 1];
      StackInBounded(alphabet, n - 1, init);
      assert stack == init + [last];
      assert multiset(stack) == multiset(init) + multiset{last};
    }
  }

  /** A list without repetitions is no longer than a set that holds all its elements. */
  lemma {:induction false} PigeonHole(list: seq<multiset<Token>>, all: set<multiset<Token>>)
    requires forall i, j :: 0 <= i < j < |list| ==> list[i] != list[j]
    requires forall i :: 0 <= i < |list| ==> list[i] in all
    ensures |list| <= |all|
    decreases |list|
  {
    if list != [] {
      var last := list[|list| - 1];
      PigeonHole(list[..|list| - 1], all - {last});
      assert last in all;
    }
  }

  lemma StatesBounded(g: Gram, start: Token, limit: nat, stacks: seq<seq<Token>>, pda: seq<Transition>)
    requires SoundState(g, start, limit, stacks, pda) && limit > 0
    ensures |stacks| <= |BoundedMultisets(Alphabet(g), limit)|
  {
    hide TransitionsOk, Alphabet;
    var list := seq(|stacks|, i requires 0 <= i < |stacks| => multiset(stacks[i]));
    forall i | 0 <= i < |list|
      ensures list[i] in BoundedMultisets(Alphabet(g), limit)
    {
      assert StackFits(g, limit, stacks[i]);
      StackInBounded(Alphabet(g), limit, stacks[i]);
    }
    PigeonHole(list, BoundedMultisets(Alphabet(g), limit));
  }

  // ---------- the finished automaton ----------

  /** What every automaton the construction ends with has to do with the grammar. */
  lemma WhatIsBuilt(g: Gram, start: Token, stacks: seq<seq<Token>>, pda: seq<Transition>)
    requires TransitionsOk(g, start, stacks, pda) && Born(start, stacks, pda)
    ensures OnlyDerivations(g, start, stacks, pda)
    ensures GnfShape(g) && !start.Terminal? ==> OnlyWords(g, start, stacks, pda)
    ensures AllLeftmost(start, stacks, pda) <==> OrderKept(start, stacks, pda)
    ensures GnfShape(g) && !start.Terminal? && AllLeftmost(start, stacks, pda) ==> PathsAreWords(g, start, stacks, pda)
    ensures OneOrder(g, start) ==> AllLeftmost(start, stacks, pda)
  {
    hide OnlyDerivations, TransitionsOk, GnfShape, OnlyWords, AllLeftmost, OrderKept, Born, PathsAreWords, OneOrder;
    SoundAutomaton(g, start, stacks, pda);
    OrderKeptIff(g, start, stacks, pda);
    if OneOrder(g, start) { OneOrderKept(g, start, stacks, pda); }
    if GnfShape(g) && !start.Terminal? {
      DerivationsToWords(g, start, stacks, pda);
      if OrderKept(start, stacks, pda) { OrderedWords(g, start, stacks, pda); }
    }
  }

  /** Whatever was dropped: the layout of the transitions, and the runs that they admit. */
  lemma WhatIsLaid(g: Gram, start: Token, limit: nat, stacks: seq<seq<Token>>, pda: seq<Transition>, dropped: set<Expansion>)
    requires SoundState(g, start, limit, stacks, pda) && Born(start, stacks, pda)
    requires LaidBelow(g, start, limit, stacks, pda, dropped, |stacks| + 1) && DropsOk(g, start, limit, stacks, dropped)
    ensures Limited(g, start, limit, stacks, pda)
    ensures forall e :: e in dropped <==> exists s: nat :: TooLarge(g, start, limit, stacks, e, s)
    ensures forall run :: Labels(pda, 0, run) <==> RunsWithin(g, start, limit, stacks, 0, run)
    ensures AllWithin(g, start, limit, stacks, pda)
    ensures OneOrder(g, start) ==> ExactWithin(g, start, limit, stacks, pda)
    ensures dropped == {} ==> ExpandedUpTo(g, start, stacks, pda, {}, |stacks| + 1)
  {
    hide TransitionsOk, DistinctStates, LaidBelow, LaidOut, TooLarge, OneOrder, Born, AllWithin, ExactWithin, Labels;
    LayoutIs(g, start, limit, stacks, pda, dropped);
    forall k | 0 <= k < |stacks|
      ensures limit == 0 || |stacks[k]| <= limit
    {
      assert StackFits(g, limit, stacks[k]);
    }
    forall run
      ensures Labels(pda, 0, run) <==> RunsWithin(g, start, limit, stacks, 0, run)
    {
      PathsAreRuns(g, start, limit, stacks, pda, 0, run);
    }
    WithinUsed(g, start, limit, stacks, pda);
    if OneOrder(g, start) { OneOrderWithin(g, start, limit, stacks, pda); }
    if dropped == {} { AllExpanded(g, start, limit, stacks, pda); }
  }

  /** ... and what one has that leaves nothing out. */
  lemma WhatIsComplete(g: Gram, start: Token, stacks: seq<seq<Token>>, pda: seq<Transition>)
    requires TransitionsOk(g, start, stacks, pda) && Born(start, stacks, pda) && DistinctStates(stacks)
    requires ExpandedUpTo(g, start, stacks, pda, {}, |stacks| + 1)
    ensures AllDerivations(g, start, stacks, pda)
    ensures GnfShape(g) && !start.Terminal? ==> AllWords(g, start, stacks, pda)
    ensures AllLeftmost(start, stacks, pda) <==> OneOrder(g, start)
    ensures GnfShape(g) && !start.Terminal? && OneOrder(g, start) ==> ExactLanguage(g, start, stacks, pda)
  {
    hide AllDerivations, TransitionsOk, GnfShape, AllWords, AllLeftmost, Born, OneOrder, DistinctStates, ExpandedState, ExactLanguage;
    CompleteAutomaton(g, start, stacks, pda);
    OneOrderIff(g, start, stacks, pda);
    if GnfShape(g) && !start.Terminal? {
      WordsFromDerivations(g, start, stacks, pda);
      if OneOrder(g, start) { OneOrderLanguage(g, start, stacks, pda); }
    }
  }

  /** If no reachable stack passes the limit, no rule is dropped. */
  lemma NothingTooLarge(g: Gram, start: Token, limit: nat, stacks: seq<seq<Token>>, pda: seq<Transition>, dropped: set<Expansion>)
    requires TransitionsOk(g, start, stacks, pda) && Born(start, stacks, pda)
    requires DropsOk(g, start, limit, stacks, dropped) && StacksFit(g, start, limit)
    ensures dropped == {}
  {
    hide TransitionsOk, Born, StackOf, NextStack, IsRule, Reachable;
    if e :| e in dropped {
      var s: nat :| TooLarge(g, start, limit, stacks, e, s);
      StateReachable(g, start, stacks, pda, s);
      ReachableNext(g, start, StackOf(start, stacks, s), e);
    }
  }

  /** Builds the automaton for a grammar with a stack limit.  It always ends; only a missing rule list or a
      rule without a terminal makes it fail, and only rules that exceed the limit are left out. */
  method BuildAutomaton(g: Gram, start: Token, limit: nat)
    returns (ok: bool, stacks: seq<seq<Token>>, pda: seq<Transition>, dropped: set<Expansion>)
    requires limit > 0
    ensures Closed(g, start) ==> ok
    ensures ok ==> OnlyDerivations(g, start, stacks, pda)
    ensures ok && dropped == {} ==> AllDerivations(g, start, stacks, pda)
    ensures ok ==> Limited(g, start, limit, stacks, pda)
    ensures ok ==> forall run :: Labels(pda, 0, run) <==> RunsWithin(g, start, limit, stacks, 0, run)
    ensures ok ==> AllWithin(g, start, limit, stacks, pda)
    ensures ok && OneOrder(g, start) ==> ExactWithin(g, start, limit, stacks, pda)
    ensures ok ==> DropsOk(g, start, limit, stacks, dropped)
    ensures ok ==> forall e :: e in dropped <==> exists s: nat :: TooLarge(g, start, limit, stacks, e, s)
    ensures ok && StacksFit(g, start, limit) ==> dropped == {}
    ensures ok && GnfShape(g) && !start.Terminal? ==> OnlyWords(g, start, stacks, pda)
    ensures ok && GnfShape(g) && !start.Terminal? && dropped == {} ==> AllWords(g, start, stacks, pda)
    ensures ok ==> (AllLeftmost(start, stacks, pda) <==> OrderKept(start, stacks, pda))
    ensures ok && OneOrder(g, start) ==> AllLeftmost(start, stacks, pda)
    ensures ok && dropped == {} ==> (AllLeftmost(start, stacks, pda) <==> OneOrder(g, start))
    ensures ok && GnfShape(g) && !start.Terminal? && AllLeftmost(start, stacks, pda) ==> PathsAreWords(g, start, stacks, pda)
    ensures ok && GnfShape(g) && !start.Terminal? && dropped == {} && OneOrder(g, start) ==> ExactLanguage(g, start, stacks, pda)
    ensures ok ==> DistinctStates(stacks) && forall k :: 0 <= k < |stacks| ==> |stacks[k]| <= limit
  {
    hide OnlyDerivations, AllDerivations, TransitionsOk, DistinctStates, LaidBelow, LaidOut, Alphabet, DropsOk, Closed, GnfShape,
      OnlyWords, AllWords, AllLeftmost, OrderKept, Born, PathsAreWords, OneOrder, StacksFit, ExactLanguage, Labels, RunsWithin,
      AllWithin, ExactWithin, TooLarge, ExpandedUpTo, SourcesBelow;
    var b := new Builder(g, start, limit);
    ok := b.MainBounded();
    stacks, pda, dropped := b.stateStacks, b.pda, b.unexpanded;
    if ok {
      WhatIsBuilt(g, start, stacks, pda);
      WhatIsLaid(g, start, limit, stacks, pda, dropped);
      if StacksFit(g, start, limit) { NothingTooLarge(g, start, limit, stacks, pda, dropped); }
      if dropped == {} { WhatIsComplete(g, start, stacks, pda); }
      forall k | 0 <= k < |stacks|
        ensures |stacks[k]| <= limit
      {
        assert StackFits(g, limit, stacks[k]);
      }
    }
  }

  /** Without a limit nothing is left out; the construction ends within `rounds` steps unless there are
      more states than that. */
  method BuildUnlimited(g: Gram, start: Token, rounds: nat) returns (ok: bool, stacks: seq<seq<Token>>, pda: seq<Transition>)
    ensures Closed(g, start) ==> ok || |stacks| >= rounds
    ensures ok ==> Limited(g, start, 0, stacks, pda)
    ensures ok ==> OnlyDerivations(g, start, stacks, pda) && AllDerivations(g, start, stacks, pda) && DistinctStates(stacks)
    ensures ok && GnfShape(g) && !start.Terminal? ==> OnlyWords(g, start, stacks, pda) && AllWords(g, start, stacks, pda)
    ensures ok ==> (AllLeftmost(start, stacks, pda) <==> OneOrder(g, start))
    ensures ok && GnfShape(g) && !start.Terminal? && OneOrder(g, start) ==> ExactLanguage(g, start, stacks, pda)
  {
    hide OnlyDerivations, AllDerivations, TransitionsOk, DistinctStates, LaidBelow, LaidOut, Alphabet, DropsOk, Closed, GnfShape,
      OnlyWords, AllWords, AllLeftmost, OrderKept, Born, PathsAreWords, OneOrder, ExactLanguage, ExpandedUpTo, SourcesBelow;
    var b := new Builder(g, start, 0);
    ok := b.MainUnbounded(rounds);
    stacks, pda := b.stateStacks, b.pda;
    if ok {
      WhatIsBuilt(g, start, stacks, pda);
      NothingDropped(g, start, stacks, b.unexpanded);
      WhatIsLaid(g, start, 0, stacks, pda, {});
      WhatIsComplete(g, start, stacks, pda);
    }
  }

  lemma NothingDropped(g: Gram, start: Token, stacks: seq<seq<Token>>, dropped: set<Expansion>)
    requires DropsOk(g, start, 0, stacks, dropped)
    ensures dropped == {}
  {
  }
}
