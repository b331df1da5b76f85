/** The order of expansion: when the rules along the paths of an automaton are leftmost derivations as they
    stand, which depends on the grammar alone. */
module Ordering {
  import opened Grammar
  import opened Paths
  import opened Reduction

  // ---------- in the automaton ----------

  /** The destination holds the pending nonterminals in the order in which they are to be expanded. */
  ghost predicate InOrder(start: Token, stacks: seq<seq<Token>>, t: Transition)
  {
    && t.source <= |stacks| && t.dest <= |stacks| && StackOf(start, stacks, t.source) != []
    && StackOf(start, stacks, t.dest) == NextStack(StackOf(start, stacks, t.source), t.rule)
  }

  /** Every state has a transition into it that made it. */
  ghost predicate Born(start: Token, stacks: seq<seq<Token>>, pda: seq<Transition>)
  {
    forall k: nat :: 1 <= k <= |stacks| ==> BornAt(start, stacks, pda, k)
  }

  ghost predicate BornAt(start: Token, stacks: seq<seq<Token>>, pda: seq<Transition>, k: nat)
  {
    exists t :: t in pda && t.dest == k && t.source < k && InOrder(start, stacks, t)
  }

  /** The path leads from `state` to an empty stack. */
  ghost predicate Finishes(start: Token, stacks: seq<seq<Token>>, pda: seq<Transition>, state: nat, path: seq<Transition>,
                           dest: nat)
  {
    Path(pda, state, path, dest) && dest <= |stacks| && StackOf(start, stacks, dest) == []
  }

  /** States are merged in another order only where no path can finish. */
  ghost predicate OrderKept(start: Token, stacks: seq<seq<Token>>, pda: seq<Transition>)
  {
    forall t, path, dest :: t in pda && Finishes(start, stacks, pda, t.dest, path, dest) ==> InOrder(start, stacks, t)
  }

  /** The expansions along every accepting path are a leftmost derivation as they stand. */
  ghost predicate AllLeftmost(start: Token, stacks: seq<seq<Token>>, pda: seq<Transition>)
  {
    forall path, dest :: Accepting(start, stacks, pda, path, dest) ==> Leftmost([start], Expansions(path))
  }

  lemma {:induction false} OrderedPath(g: Gram, start: Token, stacks: seq<seq<Token>>, pda: seq<Transition>, state: nat,
                                       path: seq<Transition>, dest: nat)
    requires TransitionsOk(g, start, stacks, pda) && OrderKept(start, stacks, pda) && state <= |stacks|
    requires Finishes(start, stacks, pda, state, path, dest)
    ensures Leftmost(StackOf(start, stacks, state), Expansions(path))
    decreases |path|
  {
    hide StackOf, OrderKept;
    if path != [] {
      var t := path[0];
      assert TransitionOk(g, start, stacks, t);
      assert Finishes(start, stacks, pda, t.dest, path[1..], dest);
      OrderedHere(start, stacks, pda, t, path[1..], dest);
      OrderedPath(g, start, stacks, pda, t.dest, path[1..], dest);
      assert Expansions(path)[1..] == Expansions(path[1..]);
    }
  }

  lemma OrderedHere(start: Token, stacks: seq<seq<Token>>, pda: seq<Transition>, t: Transition, path: seq<Transition>, dest: nat)
    requires OrderKept(start, stacks, pda) && t in pda && Finishes(start, stacks, pda, t.dest, path, dest)
    ensures InOrder(start, stacks, t)
  {
    hide Finishes, InOrder;
  }

  lemma {:induction false} PathConcat(pda: seq<Transition>, s: nat, p: seq<Transition>, m: nat, q: seq<Transition>, d: nat)
    requires Path(pda, s, p, m) && Path(pda, m, q, d)
    ensures Path(pda, s, p + q, d)
    decreases |p|
  {
    if p == [] {
      assert p + q == q;
    } else {
      PathConcat(pda, p[0].dest, p[1..], m, q, d);
      assert (p + q)[1..] == p[1..] + q;
    }
  }

  lemma {:induction false} ExpansionsConcat(p: seq<Transition>, q: seq<Transition>)
    ensures Expansions(p + q) == Expansions(p) + Expansions(q)
    decreases |p|
  {
    hide ExpansionOf;
    if p == [] {
      assert p + q == q;
    } else {
      ExpansionsConcat(p[1..], q);
      assert (p + q)[1..] == p[1..] + q;
    }
  }

  /** A run is leftmost from one stack only. */
  lemma {:induction false} LeftmostUnique(stack: seq<Token>, stack': seq<Token>, run: seq<Expansion>)
    requires Leftmost(stack, run) && Leftmost(stack', run)
    ensures stack == stack'
    decreases |run|
  {
    if run != [] {
      var ss := run[0].rule.ss;
      LeftmostUnique(ss + stack[1..], ss + stack'[1..], run[1..]);
      assert stack == [stack[0]] + (ss + stack[1..])[|ss|..];
      assert stack' == [stack'[0]] + (ss + stack'[1..])[|ss|..];
    }
  }

  /** After a transition in order, a run is leftmost from the destination if and only if with the transition
      it is leftmost from the source. */
  lemma LeftmostAcross(g: Gram, start: Token, stacks: seq<seq<Token>>, t: Transition, run: seq<Expansion>)
    requires TransitionOk(g, start, stacks, t)
    ensures Leftmost(StackOf(start, stacks, t.source), [ExpansionOf(t)] + run) <==>
            Leftmost(NextStack(StackOf(start, stacks, t.source), t.rule), run)
  {
    hide StackOf;
    assert ([ExpansionOf(t)] + run)[1..] == run;
  }

  /** The way in which a state came about. */
  lemma {:induction false} BirthPath(g: Gram, start: Token, stacks: seq<seq<Token>>, pda: seq<Transition>, state: nat,
                                     run: seq<Expansion>) returns (path: seq<Transition>)
    requires TransitionsOk(g, start, stacks, pda) && Born(start, stacks, pda) && state <= |stacks|
    ensures Path(pda, 0, path, state)
    ensures Leftmost([start], Expansions(path) + run) <==> Leftmost(StackOf(start, stacks, state), run)
    decreases state
  {
    hide TransitionOk, Leftmost, InOrder;
    if state == 0 {
      path := [];
      assert Expansions(path) + run == run;
    } else {
      assert BornAt(start, stacks, pda, state);
      var t :| t in pda && t.dest == state && t.source < state && InOrder(start, stacks, t);
      var before := BirthPath(g, start, stacks, pda, t.source, [ExpansionOf(t)] + run);
      path := before + [t];
      OneTransition(pda, t);
      PathConcat(pda, 0, before, t.source, [t], state);
      ExpansionsConcat(before, [t]);
      assert Expansions(path) + run == Expansions(before) + ([ExpansionOf(t)] + run);
      LeftmostBorn(g, start, stacks, t, run);
    }
  }

  lemma OneTransition(pda: seq<Transition>, t: Transition)
    requires t in pda
    ensures Path(pda, t.source, [t], t.dest) && Expansions([t]) == [ExpansionOf(t)]
  {
    assert [t][1..] == [];
  }

  lemma LeftmostBorn(g: Gram, start: Token, stacks: seq<seq<Token>>, t: Transition, run: seq<Expansion>)
    requires TransitionOk(g, start, stacks, t) && InOrder(start, stacks, t)
    ensures Leftmost(StackOf(start, stacks, t.source), [ExpansionOf(t)] + run) <==>
            Leftmost(StackOf(start, stacks, t.dest), run)
  {
    hide Leftmost;
    LeftmostAcross(g, start, stacks, t, run);
  }

  /** A path to a state and one that finishes from there. */
  lemma LeftmostThrough(start: Token, stacks: seq<seq<Token>>, pda: seq<Transition>, p: seq<Transition>, m: nat,
                        q: seq<Transition>, dest: nat)
    requires AllLeftmost(start, stacks, pda) && Path(pda, 0, p, m) && Finishes(start, stacks, pda, m, q, dest)
    ensures Leftmost([start], Expansions(p) + Expansions(q))
  {
    hide Leftmost, Path, Expansions, StackOf;
    PathConcat(pda, 0, p, m, q, dest);
    ExpansionsConcat(p, q);
    assert Accepting(start, stacks, pda, p + q, dest);
  }

  lemma FinishAcross(start: Token, stacks: seq<seq<Token>>, pda: seq<Transition>, t: Transition, path: seq<Transition>, dest: nat)
    requires t in pda && Finishes(start, stacks, pda, t.dest, path, dest)
    ensures Finishes(start, stacks, pda, t.source, [t] + path, dest)
    ensures Expansions([t] + path) == [ExpansionOf(t)] + Expansions(path)
  {
    hide StackOf;
    assert ([t] + path)[1..] == path;
  }

  /** If all paths are leftmost, then a transition from which one can finish is in order. */
  lemma OrderNeeded(g: Gram, start: Token, stacks: seq<seq<Token>>, pda: seq<Transition>, t: Transition,
                    path: seq<Transition>, dest: nat)
    requires TransitionsOk(g, start, stacks, pda) && Born(start, stacks, pda) && AllLeftmost(start, stacks, pda)
    requires t in pda && Finishes(start, stacks, pda, t.dest, path, dest)
    ensures InOrder(start, stacks, t)
  {
    hide Leftmost, Born, StackOf, AllLeftmost, Expansions, Path, Finishes, NextStack;
    var run, e := Expansions(path), ExpansionOf(t);
    assert TransitionOk(g, start, stacks, t);
    var there := BirthPath(g, start, stacks, pda, t.dest, run);
    LeftmostThrough(start, stacks, pda, there, t.dest, path, dest);
    var here := BirthPath(g, start, stacks, pda, t.source, [e] + run);
    FinishAcross(start, stacks, pda, t, path, dest);
    LeftmostThrough(start, stacks, pda, here, t.source, [t] + path, dest);
    LeftmostAcross(g, start, stacks, t, run);
    LeftmostUnique(StackOf(start, stacks, t.dest), NextStack(StackOf(start, stacks, t.source), t.rule), run);
  }

  /** The paths are leftmost derivations as they stand if and only if no states are merged in another order
      where a path can finish. */
  lemma OrderKeptIff(g: Gram, start: Token, stacks: seq<seq<Token>>, pda: seq<Transition>)
    requires TransitionsOk(g, start, stacks, pda) && Born(start, stacks, pda)
    ensures AllLeftmost(start, stacks, pda) <==> OrderKept(start, stacks, pda)
  {
    hide TransitionsOk, Born, Leftmost, InOrder;
    if OrderKept(start, stacks, pda) {
      forall path, dest | Accepting(start, stacks, pda, path, dest)
        ensures Leftmost([start], Expansions(path))
      {
        OrderedPath(g, start, stacks, pda, 0, path, dest);
      }
    }
    if AllLeftmost(start, stacks, pda) {
      forall t, path, dest | t in pda && Finishes(start, stacks, pda, t.dest, path, dest)
        ensures InOrder(start, stacks, t)
      {
        OrderNeeded(g, start, stacks, pda, t, path, dest);
      }
    }
  }

  /** Then every accepting path puts out a word of the language. */
  lemma OrderedWord(g: Gram, start: Token, stacks: seq<seq<Token>>, pda: seq<Transition>, path: seq<Transition>, dest: nat)
    requires TransitionsOk(g, start, stacks, pda) && OrderKept(start, stacks, pda) && GnfShape(g) && !start.Terminal?
    requires Accepting(start, stacks, pda, path, dest)
    ensures InLanguage(AsGrammar(g), start, Word(Expansions(path)))
  {
    hide OrderKept, GnfShape, AsGrammar;
    PathReduces(g, start, stacks, pda, 0, path, dest);
    OrderedPath(g, start, stacks, pda, 0, path, dest);
    LeftmostDerives(g, [start], Expansions(path));
  }

  /** Every accepting path puts out a word of the language as it stands. */
  ghost predicate PathsAreWords(g: Gram, start: Token, stacks: seq<seq<Token>>, pda: seq<Transition>)
  {
    forall path, dest :: Accepting(start, stacks, pda, path, dest) ==> InLanguage(AsGrammar(g), start, Word(Expansions(path)))
  }

  lemma OrderedWords(g: Gram, start: Token, stacks: seq<seq<Token>>, pda: seq<Transition>)
    requires TransitionsOk(g, start, stacks, pda) && OrderKept(start, stacks, pda) && GnfShape(g) && !start.Terminal?
    ensures PathsAreWords(g, start, stacks, pda)
  {
    hide TransitionsOk, OrderKept, GnfShape, AsGrammar, Accepting, InLanguage;
    forall path, dest | Accepting(start, stacks, pda, path, dest)
      ensures InLanguage(AsGrammar(g), start, Word(Expansions(path)))
    {
      OrderedWord(g, start, stacks, pda, path, dest);
    }
  }

  // ---------- in the grammar ----------

  /** The expansions lead from `stack` to `next`, the top of the stack first. */
  ghost predicate Steps(stack: seq<Token>, run: seq<Expansion>, next: seq<Token>)
    decreases |run|
  {
    if run == [] then stack == next
    else stack != [] && run[0].lhs == stack[0] && Steps(NextStack(stack, run[0].rule), run[1..], next)
  }

  /** A leftmost run leads from the start symbol to the stack. */
  ghost predicate Reachable(g: Gram, start: Token, stack: seq<Token>)
  {
    exists run :: Uses(g, run) && Steps([start], run, stack)
  }

  /** A leftmost run empties the stack. */
  ghost predicate Productive(g: Gram, stack: seq<Token>)
  {
    exists run :: Uses(g, run) && Leftmost(stack, run)
  }

  /** Nonterminals that are pending together, and that can all be expanded, are pending in one order only. */
  ghost predicate OneOrder(g: Gram, start: Token)
  {
    forall s, s' :: Reachable(g, start, s) && Reachable(g, start, s') && multiset(s) == multiset(s') && Productive(g, s) ==> s == s'
  }

  /** No reachable stack passes the limit. */
  ghost predicate StacksFit(g: Gram, start: Token, limit: nat)
  {
    forall s :: Reachable(g, start, s) ==> limit == 0 || |s| <= limit
  }

  lemma {:induction false} StepsOn(stack: seq<Token>, run: seq<Expansion>, next: seq<Token>, e: Expansion)
    requires Steps(stack, run, next) && next != [] && e.lhs == next[0]
    ensures Steps(stack, run + [e], NextStack(next, e.rule))
    decreases |run|
  {
    if run == [] {
      assert Steps(NextStack(next, e.rule), [], NextStack(next, e.rule));
      assert (run + [e])[1..] == [];
    } else {
      StepsOn(NextStack(stack, run[0].rule), run[1..], next, e);
      assert (run + [e])[1..] == run[1..] + [e];
    }
  }

  lemma ReachableNext(g: Gram, start: Token, stack: seq<Token>, e: Expansion)
    requires Reachable(g, start, stack) && stack != [] && e.lhs == stack[0] && IsRule(g, e)
    ensures Reachable(g, start, NextStack(stack, e.rule))
  {
    hide NextStack, IsRule;
    var run :| Uses(g, run) && Steps([start], run, stack);
    StepsOn([start], run, stack, e);
    assert Uses(g, run + [e]);
  }

  lemma ReachableStart(g: Gram, start: Token)
    ensures Reachable(g, start, [start])
  {
    assert Uses(g, []) && Steps([start], [], [start]);
  }

  /** The stack of every state is reachable. */
  lemma {:induction false} StateReachable(g: Gram, start: Token, stacks: seq<seq<Token>>, pda: seq<Transition>, state: nat)
    requires TransitionsOk(g, start, stacks, pda) && Born(start, stacks, pda) && state <= |stacks|
    ensures Reachable(g, start, StackOf(start, stacks, state))
    decreases state
  {
    hide Reachable, NextStack, IsRule;
    if state == 0 {
      ReachableStart(g, start);
    } else {
      assert BornAt(start, stacks, pda, state);
      var t :| t in pda && t.dest == state && t.source < state && InOrder(start, stacks, t);
      StateReachable(g, start, stacks, pda, t.source);
      assert TransitionOk(g, start, stacks, t);
      ReachableNext(g, start, StackOf(start, stacks, t.source), ExpansionOf(t));
    }
  }

  /** From a state one can finish only if its stack is productive. */
  lemma FinishProductive(g: Gram, start: Token, stacks: seq<seq<Token>>, pda: seq<Transition>, state: nat,
                         path: seq<Transition>, dest: nat)
    requires TransitionsOk(g, start, stacks, pda) && state <= |stacks| && Finishes(start, stacks, pda, state, path, dest)
    ensures Productive(g, StackOf(start, stacks, state))
  {
    hide StackOf, Reduces;
    PathReduces(g, start, stacks, pda, state, path, dest);
    var d := Rearrange(StackOf(start, stacks, state), Expansions(path));
    UsesSame(g, Expansions(path), d);
  }

  lemma OrderIsOne(g: Gram, start: Token, stacks: seq<seq<Token>>, pda: seq<Transition>, t: Transition,
                   path: seq<Transition>, dest: nat)
    requires TransitionsOk(g, start, stacks, pda) && Born(start, stacks, pda) && OneOrder(g, start)
    requires t in pda && Finishes(start, stacks, pda, t.dest, path, dest)
    ensures InOrder(start, stacks, t)
  {
    hide StackOf, Reachable, Productive, NextStack, Born, Finishes, IsRule;
    assert TransitionOk(g, start, stacks, t);
    StateReachable(g, start, stacks, pda, t.source);
    StateReachable(g, start, stacks, pda, t.dest);
    FinishProductive(g, start, stacks, pda, t.dest, path, dest);
    var stack := StackOf(start, stacks, t.source);
    ReachableNext(g, start, stack, ExpansionOf(t));
    NextPending(stack, ExpansionOf(t));
  }

  /** If the grammar has one order, every path of the automaton has it. */
  lemma OneOrderKept(g: Gram, start: Token, stacks: seq<seq<Token>>, pda: seq<Transition>)
    requires TransitionsOk(g, start, stacks, pda) && Born(start, stacks, pda) && OneOrder(g, start)
    ensures AllLeftmost(start, stacks, pda) && OrderKept(start, stacks, pda)
  {
    hide TransitionsOk, Born, OneOrder, InOrder, AllLeftmost;
    forall t, path, dest | t in pda && Finishes(start, stacks, pda, t.dest, path, dest)
      ensures InOrder(start, stacks, t)
    {
      OrderIsOne(g, start, stacks, pda, t, path, dest);
    }
    OrderKeptIff(g, start, stacks, pda);
  }

  // ---------- from the automaton back to the grammar ----------

  /** A productive stack with the contents of a state: from that state one can finish. */
  lemma FinishFrom(g: Gram, start: Token, stacks: seq<seq<Token>>, pda: seq<Transition>, state: nat, stack: seq<Token>)
    returns (path: seq<Transition>, dest: nat)
    requires Complete(g, start, stacks, pda) && state <= |stacks|
    requires multiset(stack) == Pending(start, stacks, state) && Productive(g, stack)
    ensures Finishes(start, stacks, pda, state, path, dest)
  {
    hide StackOf, Reduces, TransitionsOk, ExpandedState;
    var run :| Uses(g, run) && Leftmost(stack, run);
    LeftmostReduces(stack, run);
    path, dest := RunHasPath(g, start, stacks, pda, state, run);
  }

  /** A finished automaton that leaves nothing out. */
  ghost predicate Complete(g: Gram, start: Token, stacks: seq<seq<Token>>, pda: seq<Transition>)
  {
    && TransitionsOk(g, start, stacks, pda)
    && forall s :: 0 <= s <= |stacks| ==> ExpandedState(g, start, stacks, pda, {}, s)
  }

  lemma {:induction false} StepsProductive(g: Gram, stack: seq<Token>, run: seq<Expansion>, next: seq<Token>)
    requires Uses(g, run) && Steps(stack, run, next) && Productive(g, next)
    ensures Productive(g, stack)
    decreases |run|
  {
    if run != [] {
      assert forall e :: e in run[1..] ==> e in run;
      StepsProductive(g, NextStack(stack, run[0].rule), run[1..], next);
      var rest :| Uses(g, rest) && Leftmost(NextStack(stack, run[0].rule), rest);
      assert ([run[0]] + rest)[1..] == rest;
      assert run[0] in run && Uses(g, [run[0]] + rest) && Leftmost(stack, [run[0]] + rest);
    }
  }

  /** Where the order is kept, the automaton follows every run that can be finished. */
  lemma {:induction false} Followed(g: Gram, start: Token, stacks: seq<seq<Token>>, pda: seq<Transition>, state: nat,
                                    run: seq<Expansion>, next: seq<Token>) returns (path: seq<Transition>, there: nat)
    requires Complete(g, start, stacks, pda) && OrderKept(start, stacks, pda) && state <= |stacks|
    requires Uses(g, run) && Steps(StackOf(start, stacks, state), run, next) && Productive(g, next)
    ensures Path(pda, state, path, there) && Expansions(path) == run
    ensures there <= |stacks| && StackOf(start, stacks, there) == next
    decreases |run|
  {
    hide Complete, OrderKept, Productive, StackOf, NextStack, Path, Expansions;
    if run == [] {
      path, there := [], state;
      NoPath(pda, state);
    } else {
      var e, stack := run[0], StackOf(start, stacks, state);
      assert e in run && forall f :: f in run[1..] ==> f in run;
      StepsProductive(g, NextStack(stack, e.rule), run[1..], next);
      var t := Taken(g, start, stacks, pda, state, e);
      FollowOne(g, start, stacks, pda, t);
      var rest;
      rest, there := Followed(g, start, stacks, pda, t.dest, run[1..], next);
      path := [t] + rest;
      OneMore(pda, t, rest, there);
      assert run == [e] + run[1..];
    }
  }

  lemma NoPath(pda: seq<Transition>, state: nat)
    ensures Path(pda, state, [], state) && Expansions([]) == []
  {
  }

  lemma OneMore(pda: seq<Transition>, t: Transition, rest: seq<Transition>, there: nat)
    requires t in pda && Path(pda, t.dest, rest, there)
    ensures Path(pda, t.source, [t] + rest, there) && Expansions([t] + rest) == [ExpansionOf(t)] + Expansions(rest)
  {
    OneTransition(pda, t);
    PathConcat(pda, t.source, [t], t.dest, rest, there);
    ExpansionsConcat([t], rest);
  }

  lemma Taken(g: Gram, start: Token, stacks: seq<seq<Token>>, pda: seq<Transition>, state: nat, e: Expansion)
    returns (t: Transition)
    requires Complete(g, start, stacks, pda) && state <= |stacks| && StackOf(start, stacks, state) != []
    requires IsRule(g, e) && e.lhs == StackOf(start, stacks, state)[0]
    ensures t in pda && t.source == state && ExpansionOf(t) == e && TransitionOk(g, start, stacks, t)
  {
    hide TransitionOk, StackOf;
    assert ExpandedState(g, start, stacks, pda, {}, state);
    assert RuleTaken(pda, {}, state, e.lhs, e.rule);
    t :| t in pda && t.source == state && t.lhs == e.lhs && t.rule == e.rule;
  }

  lemma FollowOne(g: Gram, start: Token, stacks: seq<seq<Token>>, pda: seq<Transition>, t: Transition)
    requires Complete(g, start, stacks, pda) && OrderKept(start, stacks, pda) && t in pda && TransitionOk(g, start, stacks, t)
    requires Productive(g, NextStack(StackOf(start, stacks, t.source), t.rule))
    ensures InOrder(start, stacks, t)
  {
    hide Complete, Productive, NextStack, StackOf, Finishes;
    var stack := StackOf(start, stacks, t.source);
    NextPending(stack, ExpansionOf(t));
    var path, dest := FinishFrom(g, start, stacks, pda, t.dest, NextStack(stack, t.rule));
    OrderedHere(start, stacks, pda, t, path, dest);
  }

  lemma ProductiveToo(g: Gram, stack: seq<Token>, stack': seq<Token>)
    requires Productive(g, stack) && multiset(stack) == multiset(stack')
    ensures Productive(g, stack')
  {
    hide Reduces;
    var run :| Uses(g, run) && Leftmost(stack, run);
    LeftmostReduces(stack, run);
    var run' := Rearrange(stack', run);
    UsesSame(g, run, run');
  }

  lemma SameStackThen(start: Token, stacks: seq<seq<Token>>, i: nat, j: nat)
    requires DistinctStates(stacks) && i <= |stacks| && j <= |stacks| && Pending(start, stacks, i) == Pending(start, stacks, j)
    ensures StackOf(start, stacks, i) == StackOf(start, stacks, j)
  {
    if i != j && (i == 0 || j == 0) {
      OneElement(start, StackOf(start, stacks, if i == 0 then j else i));
    }
  }

  lemma OneElement(x: Token, stack: seq<Token>)
    requires multiset(stack) == multiset([x])
    ensures stack == [x]
  {
    assert |stack| == |multiset(stack)| == 1;
    assert stack[0] in multiset(stack);
  }

  lemma KeptIsOneOrder(g: Gram, start: Token, stacks: seq<seq<Token>>, pda: seq<Transition>, s: seq<Token>, s': seq<Token>)
    requires Complete(g, start, stacks, pda) && OrderKept(start, stacks, pda) && DistinctStates(stacks)
    requires Reachable(g, start, s) && Reachable(g, start, s') && multiset(s) == multiset(s') && Productive(g, s)
    ensures s == s'
  {
    hide Complete, OrderKept, DistinctStates, Productive, Steps;
    ProductiveToo(g, s, s');
    var run :| Uses(g, run) && Steps([start], run, s);
    var run' :| Uses(g, run') && Steps([start], run', s');
    var p, i := Followed(g, start, stacks, pda, 0, run, s);
    var q, j := Followed(g, start, stacks, pda, 0, run', s');
    SameStackThen(start, stacks, i, j);
  }

  /** The rules along every accepting path of a complete automaton are a leftmost derivation as they stand
      if and only if the grammar has one order. */
  lemma OneOrderIff(g: Gram, start: Token, stacks: seq<seq<Token>>, pda: seq<Transition>)
    requires Complete(g, start, stacks, pda) && Born(start, stacks, pda) && DistinctStates(stacks)
    ensures AllLeftmost(start, stacks, pda) <==> OneOrder(g, start)
  {
    hide Born, DistinctStates, OrderKept, AllLeftmost, Reachable, Productive, TransitionsOk;
    OrderKeptIff(g, start, stacks, pda);
    if OrderKept(start, stacks, pda) {
      forall s, s' | Reachable(g, start, s) && Reachable(g, start, s') && multiset(s) == multiset(s') && Productive(g, s)
        ensures s == s'
      {
        KeptIsOneOrder(g, start, stacks, pda, s, s');
      }
    }
    if OneOrder(g, start) { OneOrderKept(g, start, stacks, pda); }
  }

  // ---------- the language of the automaton ----------

  /** Some accepting path puts out the word. */
  ghost predicate Accepts(start: Token, stacks: seq<seq<Token>>, pda: seq<Transition>, w: seq<Token>)
  {
    exists path, dest :: Accepting(start, stacks, pda, path, dest) && Word(Expansions(path)) == w
  }

  /** The automaton has exactly the words of the grammar. */
  ghost predicate ExactLanguage(g: Gram, start: Token, stacks: seq<seq<Token>>, pda: seq<Transition>)
  {
    forall w {:trigger InLanguage(AsGrammar(g), start, w)} {:trigger Accepts(start, stacks, pda, w)} ::
      InLanguage(AsGrammar(g), start, w) <==> Accepts(start, stacks, pda, w)
  }

  lemma {:induction false} LeftmostSteps(stack: seq<Token>, run: seq<Expansion>)
    requires Leftmost(stack, run)
    ensures Steps(stack, run, [])
    decreases |run|
  {
    if stack != [] { LeftmostSteps(NextStack(stack, run[0].rule), run[1..]); }
  }

  lemma EmptyProductive(g: Gram)
    ensures Productive(g, [])
  {
    assert Uses(g, []) && Leftmost([], []);
  }

  lemma WordAccepted(g: Gram, start: Token, stacks: seq<seq<Token>>, pda: seq<Transition>, w: seq<Token>)
    requires Complete(g, start, stacks, pda) && OrderKept(start, stacks, pda) && GnfShape(g) && !start.Terminal?
    requires InLanguage(AsGrammar(g), start, w)
    ensures Accepts(start, stacks, pda, w)
  {
    hide Complete, OrderKept, GnfShape, AsGrammar, Path;
    var steps :| Derives(AsGrammar(g), [start], w, steps);
    var run := DerivesLeftmost(g, [start], w, steps);
    LeftmostSteps([start], run);
    EmptyProductive(g);
    var path, dest := Followed(g, start, stacks, pda, 0, run, []);
    assert Accepting(start, stacks, pda, path, dest);
  }

  /** With one order a complete automaton has exactly the words of the grammar, not just their letters. */
  lemma OneOrderLanguage(g: Gram, start: Token, stacks: seq<seq<Token>>, pda: seq<Transition>)
    requires Complete(g, start, stacks, pda) && Born(start, stacks, pda) && OneOrder(g, start)
    requires GnfShape(g) && !start.Terminal?
    ensures ExactLanguage(g, start, stacks, pda)
  {
    hide TransitionsOk, OneOrder, OrderKept, GnfShape, AsGrammar, Accepting, InLanguage, Born, ExpandedState;
    OneOrderKept(g, start, stacks, pda);
    OrderedWords(g, start, stacks, pda);
    forall w
      ensures InLanguage(AsGrammar(g), start, w) <==> Accepts(start, stacks, pda, w)
    {
      if InLanguage(AsGrammar(g), start, w) { WordAccepted(g, start, stacks, pda, w); }
    }
  }

  // ---------- a grammar with two orders ----------

  /** S -> a A B | b B A, A -> c, B -> d. */
  function Swapped(): Gram
  {
    map[Named("S") := [GnfRule(Token.Terminal("a"), [Named("A"), Named("B")]), GnfRule(Token.Terminal("b"), [Named("B"), Named("A")])],
        Named("A") := [GnfRule(Token.Terminal("c"), [])],
        Named("B") := [GnfRule(Token.Terminal("d"), [])]]
  }

  lemma SwappedRules()
    ensures IsRule(Swapped(), Expansion(Named("S"), GnfRule(Token.Terminal("a"), [Named("A"), Named("B")])))
    ensures IsRule(Swapped(), Expansion(Named("S"), GnfRule(Token.Terminal("b"), [Named("B"), Named("A")])))
    ensures IsRule(Swapped(), Expansion(Named("A"), GnfRule(Token.Terminal("c"), [])))
    ensures IsRule(Swapped(), Expansion(Named("B"), GnfRule(Token.Terminal("d"), [])))
  {
    var g := Swapped();
    assert g[Named("S")][0] in g[Named("S")] && g[Named("S")][1] in g[Named("S")];
    assert g[Named("A")][0] in g[Named("A")] && g[Named("B")][0] in g[Named("B")];
  }

  /** Both orders of A and B are reachable, and both can be finished. */
  lemma SwappedHasTwoOrders()
    ensures !OneOrder(Swapped(), Named("S"))
  {
    hide Swapped, Reachable, IsRule;
    SwappedRules();
    var s, a, b := Named("S"), Named("A"), Named("B");
    ReachableStart(Swapped(), s);
    ReachableNext(Swapped(), s, [s], Expansion(s, GnfRule(Token.Terminal("a"), [a, b])));
    ReachableNext(Swapped(), s, [s], Expansion(s, GnfRule(Token.Terminal("b"), [b, a])));
    assert NextStack([s], GnfRule(Token.Terminal("a"), [a, b])) == [a, b];
    assert NextStack([s], GnfRule(Token.Terminal("b"), [b, a])) == [b, a];
    AnyOrder(a, b);
    SwappedProductive();
    assert [a, b][0] != [b, a][0];
  }

  lemma SwappedProductive()
    ensures Productive(Swapped(), [Named("A"), Named("B")])
  {
    hide Swapped, IsRule;
    SwappedRules();
    var e, f := Expansion(Named("A"), GnfRule(Token.Terminal("c"), [])), Expansion(Named("B"), GnfRule(Token.Terminal("d"), []));
    assert [e, f][1..] == [f] && [f][1..] == [];
    assert [] + [Named("A"), Named("B")][1..] == [Named("B")] && [] + [Named("B")][1..] == [];
    assert Leftmost([], []) && Leftmost([Named("B")], [f]) && Leftmost([Named("A"), Named("B")], [e, f]);
    assert Uses(Swapped(), [e, f]);
  }

  lemma AnyOrder(x: Token, y: Token)
    ensures multiset([x, y]) == multiset([y, x])
  {
  }

  /** Every terminal of this grammar stands in one rule only. */
  lemma SwappedLetters(e: Expansion, f: Expansion)
    requires IsRule(Swapped(), e) && IsRule(Swapped(), f) && e.rule.terminal == f.rule.terminal
    ensures e == f
  {
  }

  lemma {:induction false} SwappedWords(p: seq<Expansion>, q: seq<Expansion>)
    requires Uses(Swapped(), p) && Uses(Swapped(), q) && Word(p) == Word(q)
    ensures p == q
    decreases |p|
  {
    hide Swapped, IsRule;
    if p != [] && q != [] {
      assert Word(p)[0] == p[0].rule.terminal && Word(q)[0] == q[0].rule.terminal;
      assert Word(p)[1..] == Word(p[1..]) && Word(q)[1..] == Word(q[1..]);
      assert p[0] in p && q[0] in q;
      SwappedLetters(p[0], q[0]);
      assert (forall e :: e in p[1..] ==> e in p) && forall e :: e in q[1..] ==> e in q;
      SwappedWords(p[1..], q[1..]);
      assert p == [p[0]] + p[1..] && q == [q[0]] + q[1..];
    }
  }

  lemma SwappedShape()
    ensures GnfShape(Swapped())
  {
  }

  /** A path of the grammar puts out a word of it only if its rules are a leftmost derivation. */
  lemma SwappedPath(run: seq<Expansion>)
    requires Uses(Swapped(), run) && InLanguage(AsGrammar(Swapped()), Named("S"), Word(run))
    ensures Leftmost([Named("S")], run)
  {
    hide Swapped, AsGrammar, Word, Uses;
    SwappedShape();
    var steps :| Derives(AsGrammar(Swapped()), [Named("S")], Word(run), steps);
    var run' := DerivesLeftmost(Swapped(), [Named("S")], Word(run), steps);
    SwappedWords(run, run');
  }

  /** Whatever complete automaton is built for it: some accepting path puts out what is no word of it. */
  lemma OrderLost(stacks: seq<seq<Token>>, pda: seq<Transition>)
    requires Complete(Swapped(), Named("S"), stacks, pda) && Born(Named("S"), stacks, pda) && DistinctStates(stacks)
    ensures !AllLeftmost(Named("S"), stacks, pda) && !PathsAreWords(Swapped(), Named("S"), stacks, pda)
  {
    hide Swapped, Born, DistinctStates, TransitionsOk, OneOrder, Leftmost, InLanguage;
    SwappedHasTwoOrders();
    OneOrderIff(Swapped(), Named("S"), stacks, pda);
    var path, dest :| Accepting(Named("S"), stacks, pda, path, dest) && !Leftmost([Named("S")], Expansions(path));
    PathReduces(Swapped(), Named("S"), stacks, pda, 0, path, dest);
    if InLanguage(AsGrammar(Swapped()), Named("S"), Word(Expansions(path))) { SwappedPath(Expansions(path)); }
  }
}
