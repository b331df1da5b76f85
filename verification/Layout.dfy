/** The transitions of an automaton, state by state: which rules they carry, in which order, and how they are
    numbered; and from that, with a stack limit or without, exactly which runs the paths of the automaton are. */
module Layout {
  import opened Grammar
  import opened Ordering
  import opened Paths
  import opened Reduction

  // ---------- the transitions of a state ----------

  /** The first token of a rule is a terminal with some text; anything else is no rule in normal form. */
  predicate Tokenizes(r: GnfRule)
  {
    r.terminal.Terminal? && r.terminal.text != ""
  }

  /** The rules on the transitions from `s`, in the order of the transitions. */
  ghost function RulesFrom(pda: seq<Transition>, s: nat): seq<GnfRule>
    decreases |pda|
  {
    if pda == [] then []
    else
      var last := |pda| - 1;
      RulesFrom(pda[..last], s) + if pda[last].source == s then [pda[last].rule] else []
  }

  /** The stack that a rule leads to from `stack` is within the limit; zero means that there is none. */
  ghost predicate FitsIn(limit: nat, stack: seq<Token>, r: GnfRule)
  {
    limit == 0 || |r.ss| + |stack| <= limit + 1
  }

  ghost function Fitting(limit: nat, stack: seq<Token>, rules: seq<GnfRule>): seq<GnfRule>
    decreases |rules|
  {
    if rules == [] then []
    else
      var last := |rules| - 1;
      Fitting(limit, stack, rules[..last]) + if FitsIn(limit, stack, rules[last]) then [rules[last]] else []
  }

  /** The first `j` rules of state `s` have their transitions, or are recorded as dropped. */
  ghost predicate RulesLaid(g: Gram, start: Token, limit: nat, stacks: seq<seq<Token>>, pda: seq<Transition>,
                            dropped: set<Expansion>, s: nat, j: nat)
  {
    && s <= |stacks| && StackOf(start, stacks, s) != []
    && var stack := StackOf(start, stacks, s);
       var top := stack[0];
       && top in g && j <= |g[top]| && RulesFrom(pda, s) == Fitting(limit, stack, g[top][..j])
       && forall k :: 0 <= k < j ==>
            Tokenizes(g[top][k]) && (!FitsIn(limit, stack, g[top][k]) ==> Expansion(top, g[top][k]) in dropped)
  }

  ghost predicate StateLaid(g: Gram, start: Token, limit: nat, stacks: seq<seq<Token>>, pda: seq<Transition>,
                            dropped: set<Expansion>, s: nat)
    requires s <= |stacks|
  {
    var stack := StackOf(start, stacks, s);
    if stack == [] then RulesFrom(pda, s) == []
    else stack[0] in g && RulesLaid(g, start, limit, stacks, pda, dropped, s, |g[stack[0]]|)
  }

  /** The transitions of each state are numbered from one. */
  ghost predicate Numbered(pda: seq<Transition>)
  {
    forall k: nat :: k < |pda| ==> pda[k].trigger == |RulesFrom(pda[..k], pda[k].source)| + 1
  }

  ghost predicate SourcesBelow(pda: seq<Transition>, n: int)
  {
    forall t :: t in pda ==> t.source < n
  }

  /** The states below `n` are laid out, and no other state has transitions. */
  ghost predicate LaidBelow(g: Gram, start: Token, limit: nat, stacks: seq<seq<Token>>, pda: seq<Transition>,
                            dropped: set<Expansion>, n: int)
  {
    && n <= |stacks| + 1 && Numbered(pda)
    && forall s: nat :: s < n ==> StateLaid(g, start, limit, stacks, pda, dropped, s)
  }

  lemma OneMoreFrom(pda: seq<Transition>, t: Transition, s: nat)
    ensures RulesFrom(pda + [t], s) == RulesFrom(pda, s) + if t.source == s then [t.rule] else []
  {
    assert (pda + [t])[..|pda|] == pda;
  }

  lemma OneMoreFits(limit: nat, stack: seq<Token>, rules: seq<GnfRule>, j: nat)
    requires j < |rules|
    ensures Fitting(limit, stack, rules[..j + 1]) ==
            Fitting(limit, stack, rules[..j]) + if FitsIn(limit, stack, rules[j]) then [rules[j]] else []
  {
    assert rules[..j + 1][..j] == rules[..j];
  }

  lemma {:induction false} NoneFrom(pda: seq<Transition>, s: nat)
    requires SourcesBelow(pda, s)
    ensures RulesFrom(pda, s) == []
    decreases |pda|
  {
    if pda != [] {
      var last := |pda| - 1;
      assert pda[last] in pda && forall t :: t in pda[..last] ==> t in pda;
      NoneFrom(pda[..last], s);
    }
  }

  lemma NumberedNext(pda: seq<Transition>, t: Transition)
    requires Numbered(pda) && t.trigger == |RulesFrom(pda, t.source)| + 1
    ensures Numbered(pda + [t])
  {
    hide RulesFrom;
    forall k: nat | k < |pda + [t]|
      ensures (pda + [t])[k].trigger == |RulesFrom((pda + [t])[..k], (pda + [t])[k].source)| + 1
    {
      if k < |pda| { assert (pda + [t])[..k] == pda[..k]; } else { assert (pda + [t])[..k] == pda; }
    }
  }

  /** What another state does, or a new state, leaves the layout of a state as it is. */
  lemma StateStays(g: Gram, start: Token, limit: nat, stacks: seq<seq<Token>>, stacks': seq<seq<Token>>, pda: seq<Transition>,
                   pda': seq<Transition>, dropped: set<Expansion>, dropped': set<Expansion>, s: nat)
    requires s <= |stacks| && stacks <= stacks' && dropped <= dropped' && RulesFrom(pda', s) == RulesFrom(pda, s)
    requires StateLaid(g, start, limit, stacks, pda, dropped, s)
    ensures StateLaid(g, start, limit, stacks', pda', dropped', s)
  {
    hide RulesFrom, Fitting;
    assert StackOf(start, stacks', s) == StackOf(start, stacks, s);
  }

  /** A transition for the next rule, which fits. */
  lemma LayTransition(g: Gram, start: Token, limit: nat, stacks: seq<seq<Token>>, stacks': seq<seq<Token>>,
                      pda: seq<Transition>, dropped: set<Expansion>, t: Transition, j: nat)
    requires LaidBelow(g, start, limit, stacks, pda, dropped, t.source)
    requires RulesLaid(g, start, limit, stacks, pda, dropped, t.source, j) && stacks <= stacks'
    requires t.lhs == StackOf(start, stacks, t.source)[0] && j < |g[t.lhs]| && t.rule == g[t.lhs][j]
    requires Tokenizes(t.rule)
    requires FitsIn(limit, StackOf(start, stacks, t.source), t.rule) && t.trigger == |RulesFrom(pda, t.source)| + 1
    ensures LaidBelow(g, start, limit, stacks', pda + [t], dropped, t.source)
    ensures RulesLaid(g, start, limit, stacks', pda + [t], dropped, t.source, j + 1)
    ensures |RulesFrom(pda + [t], t.source)| == |RulesFrom(pda, t.source)| + 1
  {
    hide RulesFrom, Fitting, Numbered, FitsIn;
    NumberedNext(pda, t);
    OneMoreFrom(pda, t, t.source);
    OneMoreFits(limit, StackOf(start, stacks, t.source), g[t.lhs], j);
    forall s: nat | s < t.source
      ensures StateLaid(g, start, limit, stacks', pda + [t], dropped, s)
    {
      OneMoreFrom(pda, t, s);
      StateStays(g, start, limit, stacks, stacks', pda, pda + [t], dropped, dropped, s);
    }
    assert StackOf(start, stacks', t.source) == StackOf(start, stacks, t.source);
  }

  /** No transition for the next rule, which does not fit. */
  lemma LayDrop(g: Gram, start: Token, limit: nat, stacks: seq<seq<Token>>, pda: seq<Transition>, dropped: set<Expansion>,
                s: nat, j: nat, e: Expansion)
    requires LaidBelow(g, start, limit, stacks, pda, dropped, s) && RulesLaid(g, start, limit, stacks, pda, dropped, s, j)
    requires e.lhs == StackOf(start, stacks, s)[0] && j < |g[e.lhs]| && e.rule == g[e.lhs][j]
    requires !FitsIn(limit, StackOf(start, stacks, s), e.rule) && Tokenizes(e.rule)
    ensures LaidBelow(g, start, limit, stacks, pda, dropped + {e}, s)
    ensures RulesLaid(g, start, limit, stacks, pda, dropped + {e}, s, j + 1)
  {
    hide RulesFrom, Fitting, Numbered, FitsIn;
    OneMoreFits(limit, StackOf(start, stacks, s), g[e.lhs], j);
    forall s': nat | s' < s
      ensures StateLaid(g, start, limit, stacks, pda, dropped + {e}, s')
    {
      StateStays(g, start, limit, stacks, stacks, pda, pda, dropped, dropped + {e}, s');
    }
  }

  lemma LayNone(g: Gram, start: Token, limit: nat, stacks: seq<seq<Token>>, pda: seq<Transition>, dropped: set<Expansion>, s: nat)
    requires s <= |stacks| && StackOf(start, stacks, s) != [] && StackOf(start, stacks, s)[0] in g && SourcesBelow(pda, s)
    ensures RulesLaid(g, start, limit, stacks, pda, dropped, s, 0) && |RulesFrom(pda, s)| == 0
  {
    NoneFrom(pda, s);
  }

  lemma LayState(g: Gram, start: Token, limit: nat, stacks: seq<seq<Token>>, pda: seq<Transition>, dropped: set<Expansion>, s: nat)
    requires s <= |stacks| && LaidBelow(g, start, limit, stacks, pda, dropped, s)
    requires var stack := StackOf(start, stacks, s);
             if stack == [] then SourcesBelow(pda, s)
             else stack[0] in g && RulesLaid(g, start, limit, stacks, pda, dropped, s, |g[stack[0]]|)
    ensures LaidBelow(g, start, limit, stacks, pda, dropped, s + 1)
  {
    hide RulesLaid, Numbered;
    if StackOf(start, stacks, s) == [] { NoneFrom(pda, s); }
  }

  // ---------- what the layout says ----------

  /** Every state has, in order, one transition for each rule of its top whose stack fits, and no other; the
      transitions of a state are numbered from one. */
  ghost predicate LaidOut(g: Gram, start: Token, limit: nat, stacks: seq<seq<Token>>, pda: seq<Transition>)
  {
    && (forall s: nat :: s <= |stacks| ==>
          var stack := StackOf(start, stacks, s);
          && RulesFrom(pda, s) == RulesOf(g, limit, stack)
          && (stack != [] ==> stack[0] in g && forall r :: r in g[stack[0]] ==> Tokenizes(r)))
    && Numbered(pda)
  }

  ghost function RulesOf(g: Gram, limit: nat, stack: seq<Token>): seq<GnfRule>
  {
    if stack == [] || stack[0] !in g then [] else Fitting(limit, stack, g[stack[0]])
  }

  /** Expanding the top of state `s` by `e` gives a stack over the limit. */
  ghost predicate TooLarge(g: Gram, start: Token, limit: nat, stacks: seq<seq<Token>>, e: Expansion, s: nat)
  {
    && limit > 0 && s <= |stacks| && StackOf(start, stacks, s) != [] && StackOf(start, stacks, s)[0] == e.lhs
    && IsRule(g, e) && |NextStack(StackOf(start, stacks, s), e.rule)| > limit
  }

  lemma LayoutIs(g: Gram, start: Token, limit: nat, stacks: seq<seq<Token>>, pda: seq<Transition>, dropped: set<Expansion>)
    requires LaidBelow(g, start, limit, stacks, pda, dropped, |stacks| + 1)
    ensures LaidOut(g, start, limit, stacks, pda)
    ensures forall e, s :: TooLarge(g, start, limit, stacks, e, s) ==> e in dropped
  {
    hide RulesFrom, Fitting, Numbered;
    forall s: nat | s <= |stacks|
      ensures RulesFrom(pda, s) == RulesOf(g, limit, StackOf(start, stacks, s))
      ensures var stack := StackOf(start, stacks, s);
              stack != [] ==> stack[0] in g && forall r :: r in g[stack[0]] ==> Tokenizes(r)
    {
      assert StateLaid(g, start, limit, stacks, pda, dropped, s);
      var stack := StackOf(start, stacks, s);
      if stack != [] { assert g[stack[0]][..|g[stack[0]]|] == g[stack[0]]; }
    }
    forall e, s | TooLarge(g, start, limit, stacks, e, s)
      ensures e in dropped
    {
      assert StateLaid(g, start, limit, stacks, pda, dropped, s);
      var k :| 0 <= k < |g[e.lhs]| && g[e.lhs][k] == e.rule;
    }
  }

  lemma {:induction false} FittingHas(limit: nat, stack: seq<Token>, rules: seq<GnfRule>, r: GnfRule)
    ensures r in Fitting(limit, stack, rules) <==> r in rules && FitsIn(limit, stack, r)
    decreases |rules|
  {
    if rules != [] {
      var last := |rules| - 1;
      FittingHas(limit, stack, rules[..last], r);
      assert rules == rules[..last] + [rules[last]];
    }
  }

  ghost predicate Carries(pda: seq<Transition>, s: nat, r: GnfRule)
  {
    exists t :: t in pda && t.source == s && t.rule == r
  }

  lemma {:induction false} RulesFromHas(pda: seq<Transition>, s: nat, r: GnfRule)
    ensures r in RulesFrom(pda, s) <==> Carries(pda, s, r)
    decreases |pda|
  {
    if pda != [] {
      var last := |pda| - 1;
      RulesFromHas(pda[..last], s, r);
      assert pda == pda[..last] + [pda[last]];
      if Carries(pda, s, r) {
        var t :| t in pda && t.source == s && t.rule == r;
        assert t in pda[..last] || t == pda[last];
      }
      if pda[last].source == s && pda[last].rule == r { assert Carries(pda, s, r); }
      if Carries(pda[..last], s, r) {
        var t :| t in pda[..last] && t.source == s && t.rule == r;
        assert t in pda;
      }
    }
  }

  /** Where every stack fits, a state has exactly the rules of its top, in their order and as often. */
  lemma {:induction false} AllFitting(limit: nat, stack: seq<Token>, rules: seq<GnfRule>)
    requires limit == 0 || forall r :: r in rules ==> |r.ss| + |stack| - 1 <= limit
    ensures Fitting(limit, stack, rules) == rules
    decreases |rules|
  {
    if rules != [] {
      var last := |rules| - 1;
      AllFitting(limit, stack, rules[..last]);
      assert rules == rules[..last] + [rules[last]];
    }
  }

  /** A state has a transition for a rule of its top if and only if the stack fits that it leads to. */
  lemma TransitionIff(g: Gram, start: Token, limit: nat, stacks: seq<seq<Token>>, pda: seq<Transition>, s: nat, e: Expansion)
    requires LaidOut(g, start, limit, stacks, pda) && s <= |stacks| && IsRule(g, e)
    requires StackOf(start, stacks, s) != [] && StackOf(start, stacks, s)[0] == e.lhs
    ensures (exists t :: t in pda && t.source == s && t.rule == e.rule) <==>
            limit == 0 || |e.rule.ss| + |StackOf(start, stacks, s)| - 1 <= limit
  {
    hide RulesFrom, Fitting, StackOf, Numbered;
    RulesFromHas(pda, s, e.rule);
    FittingHas(limit, StackOf(start, stacks, s), g[e.lhs], e.rule);
    assert RulesFrom(pda, s) == RulesOf(g, limit, StackOf(start, stacks, s));
  }

  // ---------- the runs of the automaton ----------

  /** The rules can be applied one after the other, each to the top of the stack of a state whose contents are
      what the one before left, and no stack passes the limit. */
  ghost predicate RunsWithin(g: Gram, start: Token, limit: nat, stacks: seq<seq<Token>>, s: nat, run: seq<Expansion>)
    requires s <= |stacks|
    decreases |run|
  {
    run == [] ||
    (StepFits(g, limit, StackOf(start, stacks, s), run[0]) &&
     exists d :: Holds(stacks, d, NextStack(StackOf(start, stacks, s), run[0].rule))
                 && RunsWithin(g, start, limit, stacks, d, run[1..]))
  }

  ghost predicate StepFits(g: Gram, limit: nat, stack: seq<Token>, e: Expansion)
  {
    && stack != [] && e.lhs == stack[0] && IsRule(g, e)
    && (limit == 0 || |NextStack(stack, e.rule)| <= limit)
  }

  /** State `d` holds the nonterminals of the stack. */
  ghost predicate Holds(stacks: seq<seq<Token>>, d: nat, stack: seq<Token>)
  {
    1 <= d <= |stacks| && multiset(stacks[d - 1]) == multiset(stack)
  }

  ghost predicate Labels(pda: seq<Transition>, s: nat, run: seq<Expansion>)
  {
    exists path, d :: Path(pda, s, path, d) && Expansions(path) == run
  }

  /** A finished automaton with this stack limit. */
  ghost predicate Limited(g: Gram, start: Token, limit: nat, stacks: seq<seq<Token>>, pda: seq<Transition>)
  {
    && TransitionsOk(g, start, stacks, pda) && DistinctStates(stacks) && LaidOut(g, start, limit, stacks, pda)
    && forall k :: 0 <= k < |stacks| ==> limit == 0 || |stacks[k]| <= limit
  }

  lemma SizeOf(a: seq<Token>, b: seq<Token>)
    requires multiset(a) == multiset(b)
    ensures |a| == |b|
  {
    assert |multiset(a)| == |a| && |multiset(b)| == |b|;
  }

  lemma StepTaken(g: Gram, start: Token, limit: nat, stacks: seq<seq<Token>>, pda: seq<Transition>, s: nat, e: Expansion)
    returns (t: Transition)
    requires Limited(g, start, limit, stacks, pda) && s <= |stacks| && StepFits(g, limit, StackOf(start, stacks, s), e)
    ensures t in pda && t.source == s && ExpansionOf(t) == e && TransitionOk(g, start, stacks, t)
    ensures Holds(stacks, t.dest, NextStack(StackOf(start, stacks, s), e.rule))
  {
    hide StackOf, LaidOut, DistinctStates;
    TransitionIff(g, start, limit, stacks, pda, s, e);
    t :| t in pda && t.source == s && t.rule == e.rule;
    DestHolds(g, start, limit, stacks, pda, t);
  }

  lemma DestHolds(g: Gram, start: Token, limit: nat, stacks: seq<seq<Token>>, pda: seq<Transition>, t: Transition)
    requires Limited(g, start, limit, stacks, pda) && t in pda
    ensures TransitionOk(g, start, stacks, t)
    ensures Holds(stacks, t.dest, NextStack(StackOf(start, stacks, t.source), t.rule))
    ensures StepFits(g, limit, StackOf(start, stacks, t.source), ExpansionOf(t))
  {
    hide LaidOut, DistinctStates, NextStack;
    assert TransitionOk(g, start, stacks, t);
    var next := NextStack(StackOf(start, stacks, t.source), t.rule);
    NextPending(StackOf(start, stacks, t.source), ExpansionOf(t));
    SizeOf(stacks[t.dest - 1], next);
  }

  /** The paths of an automaton are exactly the runs within its limit, also where rules were dropped. */
  lemma {:induction false} PathsAreRuns(g: Gram, start: Token, limit: nat, stacks: seq<seq<Token>>, pda: seq<Transition>,
                                        s: nat, run: seq<Expansion>)
    requires Limited(g, start, limit, stacks, pda) && s <= |stacks|
    ensures Labels(pda, s, run) <==> RunsWithin(g, start, limit, stacks, s, run)
    decreases |run|
  {
    hide Limited, StepFits, NextStack, StackOf;
    if run == [] {
      NoPath(pda, s);
    } else {
      if Labels(pda, s, run) { FirstOfPath(g, start, limit, stacks, pda, s, run); }
      if RunsWithin(g, start, limit, stacks, s, run) { FirstOfRun(g, start, limit, stacks, pda, s, run); }
    }
  }

  lemma {:induction false} FirstOfPath(g: Gram, start: Token, limit: nat, stacks: seq<seq<Token>>, pda: seq<Transition>,
                                       s: nat, run: seq<Expansion>)
    requires Limited(g, start, limit, stacks, pda) && s <= |stacks| && run != [] && Labels(pda, s, run)
    ensures RunsWithin(g, start, limit, stacks, s, run)
    decreases |run|, 0
  {
    hide Limited, StepFits, NextStack, StackOf;
    var path, d :| Path(pda, s, path, d) && Expansions(path) == run;
    var t := path[0];
    DestHolds(g, start, limit, stacks, pda, t);
    assert Expansions(path[1..]) == run[1..];
    assert Path(pda, t.dest, path[1..], d) && Labels(pda, t.dest, run[1..]);
    PathsAreRuns(g, start, limit, stacks, pda, t.dest, run[1..]);
  }

  lemma {:induction false} FirstOfRun(g: Gram, start: Token, limit: nat, stacks: seq<seq<Token>>, pda: seq<Transition>,
                                      s: nat, run: seq<Expansion>)
    requires Limited(g, start, limit, stacks, pda) && s <= |stacks| && run != []
    requires RunsWithin(g, start, limit, stacks, s, run)
    ensures Labels(pda, s, run)
    decreases |run|, 0
  {
    hide Limited, NextStack, StackOf, Path, Expansions, IsRule;
    var stack := StackOf(start, stacks, s);
    var d: nat :| Holds(stacks, d, NextStack(stack, run[0].rule)) && RunsWithin(g, start, limit, stacks, d, run[1..]);
    var t := StepTaken(g, start, limit, stacks, pda, s, run[0]);
    OneHolds(g, start, limit, stacks, pda, t.dest, d);
    PathsAreRuns(g, start, limit, stacks, pda, d, run[1..]);
    var path, end :| Path(pda, d, path, end) && Expansions(path) == run[1..];
    OneMore(pda, t, path, end);
    assert run == [run[0]] + run[1..];
  }

  lemma OneHolds(g: Gram, start: Token, limit: nat, stacks: seq<seq<Token>>, pda: seq<Transition>, i: nat, j: nat)
    requires Limited(g, start, limit, stacks, pda) && 1 <= i <= |stacks| && 1 <= j <= |stacks|
    requires multiset(stacks[i - 1]) == multiset(stacks[j - 1])
    ensures i == j
  {
    hide TransitionsOk, LaidOut;
  }

  /** Where no rule is too large every rule has its transition. */
  lemma AllExpanded(g: Gram, start: Token, limit: nat, stacks: seq<seq<Token>>, pda: seq<Transition>)
    requires Limited(g, start, limit, stacks, pda)
    requires forall e, s: nat :: !TooLarge(g, start, limit, stacks, e, s)
    ensures ExpandedUpTo(g, start, stacks, pda, {}, |stacks| + 1)
  {
    hide TooLarge, StackOf, NextStack, RulesFrom, RulesOf, Numbered, DistinctStates, TransitionsOk, StepFits;
    forall s: nat | s <= |stacks|
      ensures ExpandedState(g, start, stacks, pda, {}, s)
    {
      var stack := StackOf(start, stacks, s);
      if stack != [] {
        forall r | r in g[stack[0]]
          ensures RuleTaken(pda, {}, s, stack[0], r)
        {
          var fits := FitsOrDropped(g, start, limit, stacks, s, Expansion(stack[0], r));
          var t := StepTaken(g, start, limit, stacks, pda, s, Expansion(stack[0], r));
        }
      }
    }
  }

  // ---------- derivations, in whatever order ----------

  /** The path follows rules of the run, each as often, and ends where another of its rules was dropped. */
  ghost predicate CutOff(g: Gram, start: Token, limit: nat, stacks: seq<seq<Token>>, pda: seq<Transition>, s: nat,
                         run: seq<Expansion>, path: seq<Transition>, d: nat, e: Expansion)
  {
    && Path(pda, s, path, d) && TooLarge(g, start, limit, stacks, e, d)
    && multiset(Expansions(path)) + multiset{e} <= multiset(run)
  }

  ghost predicate Completed(start: Token, stacks: seq<seq<Token>>, pda: seq<Transition>, s: nat, run: seq<Expansion>,
                            path: seq<Transition>, d: nat)
  {
    Finishes(start, stacks, pda, s, path, d) && multiset(Expansions(path)) == multiset(run)
  }

  /** From a state the automaton uses up a run, or comes to a dropped rule of it. */
  lemma {:induction false} Used(g: Gram, start: Token, limit: nat, stacks: seq<seq<Token>>, pda: seq<Transition>, s: nat,
                                run: seq<Expansion>) returns (path: seq<Transition>, d: nat, e: Expansion)
    requires Limited(g, start, limit, stacks, pda) && s <= |stacks|
    requires Uses(g, run) && Reduces(Pending(start, stacks, s), run)
    ensures Completed(start, stacks, pda, s, run, path, d) || CutOff(g, start, limit, stacks, pda, s, run, path, d, e)
    decreases |run|
  {
    hide After, Limited, StackOf, NextStack, Path, Expansions, TooLarge, StepFits, IsRule, Reduces;
    var stack := StackOf(start, stacks, s);
    NoPath(pda, s);
    path, d := [], s;
    if stack == [] {
      NothingLeft(run);
      e := Expansion(start, GnfRule(start, []));
    } else {
      var i := MoveToFront(multiset(stack), run, stack[0]);
      e := run[i];
      var rest := run[..i] + run[i + 1..];
      PickOut(run, i);
      UsesSame(g, run, [e] + rest);
      assert e in [e] + rest && forall f :: f in rest ==> f in [e] + rest;
      var fits := FitsOrDropped(g, start, limit, stacks, s, e);
      if fits {
        var t := StepTaken(g, start, limit, stacks, pda, s, e);
        DestHolds(g, start, limit, stacks, pda, t);
        NextPending(stack, e);
        HeldPending(start, stacks, t.dest, NextStack(stack, e.rule));
        path, d, e := Used(g, start, limit, stacks, pda, t.dest, rest);
        OneMore(pda, t, path, d);
        path := [t] + path;
      }
    }
  }

  lemma NothingLeft(run: seq<Expansion>)
    requires Reduces(multiset([]), run)
    ensures run == []
  {
    NothingPending(run);
  }

  lemma HeldPending(start: Token, stacks: seq<seq<Token>>, d: nat, stack: seq<Token>)
    requires Holds(stacks, d, stack)
    ensures d <= |stacks| && Pending(start, stacks, d) == multiset(stack)
  {
  }

  lemma FitsOrDropped(g: Gram, start: Token, limit: nat, stacks: seq<seq<Token>>, s: nat, e: Expansion) returns (fits: bool)
    requires s <= |stacks| && StackOf(start, stacks, s) != [] && e.lhs == StackOf(start, stacks, s)[0] && IsRule(g, e)
    ensures fits ==> StepFits(g, limit, StackOf(start, stacks, s), e)
    ensures !fits ==> TooLarge(g, start, limit, stacks, e, s)
  {
    hide StackOf, IsRule;
    fits := FitsIn(limit, StackOf(start, stacks, s), e.rule);
  }

  /** The rules of every derivation label an accepting path, each as often, unless the automaton comes to a
      dropped one of them on its way. */
  ghost predicate AllWithin(g: Gram, start: Token, limit: nat, stacks: seq<seq<Token>>, pda: seq<Transition>)
  {
    forall run :: IsDerivation(g, start, run) ==>
      (exists path, d :: Completed(start, stacks, pda, 0, run, path, d))
      || exists path, d, e :: CutOff(g, start, limit, stacks, pda, 0, run, path, d, e)
  }

  lemma WithinUsed(g: Gram, start: Token, limit: nat, stacks: seq<seq<Token>>, pda: seq<Transition>)
    requires Limited(g, start, limit, stacks, pda)
    ensures AllWithin(g, start, limit, stacks, pda)
  {
    hide Limited, Completed, CutOff, Leftmost, Reduces;
    forall run | IsDerivation(g, start, run)
      ensures (exists path, d :: Completed(start, stacks, pda, 0, run, path, d))
              || exists path, d, e :: CutOff(g, start, limit, stacks, pda, 0, run, path, d, e)
    {
      LeftmostReduces([start], run);
      var path, d, e := Used(g, start, limit, stacks, pda, 0, run);
    }
  }

  // ---------- derivations within the limit ----------

  /** No stack that the leftmost run goes through passes the limit. */
  ghost predicate StaysWithin(limit: nat, stack: seq<Token>, run: seq<Expansion>)
    decreases |run|
  {
    run == [] || stack == [] ||
    ((limit == 0 || |NextStack(stack, run[0].rule)| <= limit) && StaysWithin(limit, NextStack(stack, run[0].rule), run[1..]))
  }

  /** Where the grammar has one order, the automaton takes every derivation that stays within the limit. */
  lemma {:induction false} Taken(g: Gram, start: Token, limit: nat, stacks: seq<seq<Token>>, pda: seq<Transition>,
                                 s: nat, run: seq<Expansion>) returns (path: seq<Transition>, d: nat)
    requires Limited(g, start, limit, stacks, pda) && Born(start, stacks, pda) && OneOrder(g, start) && s <= |stacks|
    requires Uses(g, run) && Leftmost(StackOf(start, stacks, s), run) && StaysWithin(limit, StackOf(start, stacks, s), run)
    ensures Path(pda, s, path, d) && Expansions(path) == run && d <= |stacks| && StackOf(start, stacks, d) == []
    decreases |run|
  {
    hide Limited, OneOrder, Born, NextStack, StackOf, Path, Expansions, IsRule;
    if run == [] {
      path, d := [], s;
      NoPath(pda, s);
    } else {
      var stack, e := StackOf(start, stacks, s), run[0];
      assert e in run && forall f :: f in run[1..] ==> f in run;
      RestOfRun(g, stack, run);
      var t := StepTaken(g, start, limit, stacks, pda, s, e);
      Straight(g, start, limit, stacks, pda, t, run[1..]);
      var rest;
      rest, d := Taken(g, start, limit, stacks, pda, t.dest, run[1..]);
      path := [t] + rest;
      OneMore(pda, t, rest, d);
      assert run == [e] + run[1..];
    }
  }

  lemma RestOfRun(g: Gram, stack: seq<Token>, run: seq<Expansion>)
    requires run != [] && Leftmost(stack, run)
    ensures stack != [] && run[0].lhs == stack[0] && Leftmost(NextStack(stack, run[0].rule), run[1..])
  {
  }

  /** A transition with which a derivation goes on leads to the stack itself. */
  lemma Straight(g: Gram, start: Token, limit: nat, stacks: seq<seq<Token>>, pda: seq<Transition>, t: Transition,
                 rest: seq<Expansion>)
    requires Limited(g, start, limit, stacks, pda) && Born(start, stacks, pda) && OneOrder(g, start)
    requires t in pda && TransitionOk(g, start, stacks, t)
    requires Holds(stacks, t.dest, NextStack(StackOf(start, stacks, t.source), t.rule))
    requires Uses(g, rest) && Leftmost(NextStack(StackOf(start, stacks, t.source), t.rule), rest)
    ensures StackOf(start, stacks, t.dest) == NextStack(StackOf(start, stacks, t.source), t.rule)
  {
    hide DistinctStates, LaidOut, Born, NextStack, Leftmost, Reachable, IsRule;
    StateReachable(g, start, stacks, pda, t.source);
    StateReachable(g, start, stacks, pda, t.dest);
    ReachableNext(g, start, StackOf(start, stacks, t.source), ExpansionOf(t));
    assert Productive(g, NextStack(StackOf(start, stacks, t.source), t.rule));
  }

  /** The stacks along an accepting path are within the limit. */
  lemma {:induction false} PathStays(g: Gram, start: Token, limit: nat, stacks: seq<seq<Token>>, pda: seq<Transition>,
                                     s: nat, path: seq<Transition>, d: nat)
    requires Limited(g, start, limit, stacks, pda) && OrderKept(start, stacks, pda) && s <= |stacks|
    requires Finishes(start, stacks, pda, s, path, d)
    ensures StaysWithin(limit, StackOf(start, stacks, s), Expansions(path))
    decreases |path|
  {
    hide Limited, OrderKept, NextStack, StackOf;
    if path != [] {
      var t := path[0];
      DestHolds(g, start, limit, stacks, pda, t);
      OrderedHere(start, stacks, pda, t, path[1..], d);
      PathStays(g, start, limit, stacks, pda, t.dest, path[1..], d);
      assert Expansions(path)[1..] == Expansions(path[1..]);
    }
  }

  /** Where the grammar has one order: the rules along accepting paths are exactly the derivations, rule by
      rule, that stay within the limit, whether or not anything was dropped. */
  ghost predicate ExactWithin(g: Gram, start: Token, limit: nat, stacks: seq<seq<Token>>, pda: seq<Transition>)
  {
    forall run {:trigger IsDerivation(g, start, run)} {:trigger Accepted(start, stacks, pda, run)} ::
      Accepted(start, stacks, pda, run) <==> IsDerivation(g, start, run) && StaysWithin(limit, [start], run)
  }

  ghost predicate Accepted(start: Token, stacks: seq<seq<Token>>, pda: seq<Transition>, run: seq<Expansion>)
  {
    exists path, d :: Accepting(start, stacks, pda, path, d) && Expansions(path) == run
  }

  lemma OneOrderWithin(g: Gram, start: Token, limit: nat, stacks: seq<seq<Token>>, pda: seq<Transition>)
    requires Limited(g, start, limit, stacks, pda) && Born(start, stacks, pda) && OneOrder(g, start)
    ensures ExactWithin(g, start, limit, stacks, pda)
  {
    hide Limited, Born, OneOrder, OrderKept, StaysWithin, Leftmost, Path, Expansions, AllLeftmost;
    TransitionsOf(g, start, limit, stacks, pda);
    OneOrderKept(g, start, stacks, pda);
    forall run
      ensures Accepted(start, stacks, pda, run) <==> IsDerivation(g, start, run) && StaysWithin(limit, [start], run)
    {
      if path, d :| Accepting(start, stacks, pda, path, d) && Expansions(path) == run {
        PathStays(g, start, limit, stacks, pda, 0, path, d);
        OrderedPath(g, start, stacks, pda, 0, path, d);
        PathReduces(g, start, stacks, pda, 0, path, d);
      }
      if IsDerivation(g, start, run) && StaysWithin(limit, [start], run) {
        var path, d := Taken(g, start, limit, stacks, pda, 0, run);
        assert Accepting(start, stacks, pda, path, d);
      }
    }
  }

  lemma TransitionsOf(g: Gram, start: Token, limit: nat, stacks: seq<seq<Token>>, pda: seq<Transition>)
    requires Limited(g, start, limit, stacks, pda)
    ensures TransitionsOk(g, start, stacks, pda)
  {
  }
}
