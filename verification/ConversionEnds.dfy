/** When the whole conversion returns a grammar, in terms of the grammar it is given: which rules unit removal
    leaves, what lifting makes of them, and whether the normal-form loop ends on the result. */
module ConversionEnds {
  import opened Circles
  import opened Conversion
  import opened Gnf
  import opened Grammar
  import opened NormalFormEnds
  import opened Rounds
  import opened UnitRemoval
  import opened Wrappers

  // ---------- the rules after unit removal ----------

  /** `n` unit rules lead from `a` to a name with the rule `r`, which is no unit rule. */
  ghost predicate Reaches(g: Rules, a: Token, n: nat, r: Rule)
    decreases n
  {
    if n == 0 then HasRule(g, a, r) && !UnitRule(r)
    else exists b :: Link(UnitRules, g, a, b) && Reaches(g, b, n - 1, r)
  }

  lemma OneFurther(g: Rules, a: Token, b: Token, n: nat, r: Rule)
    requires Link(UnitRules, g, a, b) && Reaches(g, b, n, r)
    ensures Reaches(g, a, n + 1, r)
  {
    hide Link;
  }

  lemma UnitReplacement(g: Rules, s: Rule, r: Rule)
    requires Replacement(UnitRules, g, s).Some?
    ensures r in Replacement(UnitRules, g, s).value <==> if UnitRule(s) then HasRule(g, s[0], r) else r == s
  {
  }

  /** A rule after a round was there before it, or one unit rule further. */
  lemma {:induction false} ReachedBefore(g: Rules, h: Rules, a: Token, n: nat, r: Rule) returns (m: nat)
    requires Flattened(UnitRules, g, h) && Reaches(h, a, n, r)
    ensures Reaches(g, a, m, r)
    decreases n
  {
    hide Flat, Link, Replacement;
    if n == 0 {
      FlatMembers(UnitRules, g, g[a], r);
      var s :| s in g[a] && r in Replacement(UnitRules, g, s).value;
      UnitReplacement(g, s, r);
      m := 0;
      if UnitRule(s) {
        LinkOf(UnitRules, g, a, s);
        OneFurther(g, a, s[0], 0, r);
        m := 1;
      }
    } else {
      var b :| Link(UnitRules, h, a, b) && Reaches(h, b, n - 1, r);
      LinksAfter(UnitRules, g, h, a, b);
      var x :| Chain(UnitRules, g, a, x, b);
      m := ReachedBefore(g, h, b, n - 1, r);
      OneFurther(g, x, b, m, r);
      OneFurther(g, a, x, m + 1, r);
      m := m + 2;
    }
  }

  /** ... and what is reached by unit rules is reached by half as many after it. */
  lemma {:induction false} ReachedAfter(g: Rules, h: Rules, a: Token, n: nat, r: Rule) returns (m: nat)
    requires Flattened(UnitRules, g, h) && Reaches(g, a, n, r)
    ensures Reaches(h, a, m, r)
    decreases n
  {
    hide Flat, Link, Replacement;
    m := 0;
    if n == 0 {
      KeptByRound(g, h, a, r, r);
    } else {
      var b :| Link(UnitRules, g, a, b) && Reaches(g, b, n - 1, r);
      if n == 1 {
        var s := UnitOf(g, a, b);
        KeptByRound(g, h, a, s, r);
      } else {
        var c :| Link(UnitRules, g, b, c) && Reaches(g, c, n - 2, r);
        assert Chain(UnitRules, g, a, b, c);
        LinksAfter(UnitRules, g, h, a, c);
        m := ReachedAfter(g, h, c, n - 2, r);
        OneFurther(h, a, c, m, r);
        m := m + 1;
      }
    }
  }

  lemma UnitOf(g: Rules, a: Token, b: Token) returns (s: Rule)
    requires Link(UnitRules, g, a, b)
    ensures HasRule(g, a, s) && UnitRule(s) && s[0] == b
  {
    s :| HasRule(g, a, s) && Replaced(UnitRules, s) && s[0] == b;
  }

  lemma KeptByRound(g: Rules, h: Rules, a: Token, s: Rule, r: Rule)
    requires Flattened(UnitRules, g, h) && HasRule(g, a, s) && !UnitRule(r)
    requires if UnitRule(s) then HasRule(g, s[0], r) else r == s
    ensures Reaches(h, a, 0, r)
  {
    hide Flat, Replacement;
    FlatMembers(UnitRules, g, g[a], r);
    UnitReplacement(g, s, r);
  }

  /** Unit removal leaves exactly the rules that are no unit rules and that unit rules lead to. */
  lemma {:induction false} UnitFreeRules(d: Dict, rounds: nat, a: Token, r: Rule)
    requires d.Ok() && UnitFree(d, rounds).Converted?
    ensures HasRule(UnitFree(d, rounds).g.rules, a, r) <==> exists n: nat :: Reaches(d.rules, a, n, r)
    decreases rounds
  {
    hide Round, Flattened, NoUnit, Reaches;
    var m := Round(UnitRules, d).value;
    RoundIs(UnitRules, d);
    if NoUnit(m.rules) { ReachesHere(m.rules, a, r); } else { UnitFreeRules(m, rounds - 1, a, r); }
    if n: nat :| Reaches(m.rules, a, n, r) { var k := ReachedBefore(d.rules, m.rules, a, n, r); }
    if n: nat :| Reaches(d.rules, a, n, r) { var k := ReachedAfter(d.rules, m.rules, a, n, r); }
  }

  lemma ReachesHere(g: Rules, a: Token, r: Rule)
    requires NoUnit(g)
    ensures HasRule(g, a, r) <==> exists n: nat :: Reaches(g, a, n, r)
  {
    hide NoUnit, Link;
    UnitsNone(g);
    if HasRule(g, a, r) {
      assert !UnitRule(r) by { OneNoUnit(g, a, r); }
      assert Reaches(g, a, 0, r);
    }
  }

  lemma OneNoUnit(g: Rules, a: Token, r: Rule)
    requires NoUnit(g) && HasRule(g, a, r)
    ensures !UnitRule(r)
  {
  }

  // ---------- useless names ----------

  /** `h` has the rules of `g` that are no unit rules, through unit rules. */
  ghost predicate UnitFreed(g: Rules, h: Rules)
  {
    forall a, r: Rule :: HasRule(h, a, r) <==> exists n: nat :: Reaches(g, a, n, r)
  }

  lemma {:induction false} ReachedRule(g: Rules, a: Token, n: nat, r: Rule) returns (b: Token)
    requires Reaches(g, a, n, r)
    ensures HasRule(g, b, r) && !UnitRule(r)
    decreases n
  {
    hide Link;
    if n == 0 {
      b := a;
    } else {
      var c :| Link(UnitRules, g, a, c) && Reaches(g, c, n - 1, r);
      b := ReachedRule(g, c, n - 1, r);
    }
  }

  /** A rule of `b` that is left is also a rule of a name with the unit rule `b`. */
  lemma LeftToo(g: Rules, h: Rules, a: Token, b: Token, r: Rule)
    requires UnitFreed(g, h) && Link(UnitRules, g, a, b) && HasRule(h, b, r)
    ensures HasRule(h, a, r)
  {
    hide Link, Reaches;
    var n: nat :| Reaches(g, b, n, r);
    OneFurther(g, a, b, n, r);
  }

  /** A name that leads to a terminal still does, without unit rules. */
  lemma {:induction false} StillGrounded(g: Rules, h: Rules, a: Token, n: nat) returns (m: nat)
    requires UnitFreed(g, h) && GroundedIn(g, a, n)
    ensures GroundedIn(h, a, m)
    decreases n
  {
    hide Reaches, UnitFreed;
    if n == 0 {
      var r: Rule :| HasRule(g, a, r) && StartsTerminal(r);
      StaysRule(g, h, a, r);
      m := 0;
    } else {
      var b :| Linked(g, a, b) && GroundedIn(g, b, n - 1);
      var k := StillGrounded(g, h, b, n - 1);
      var s: Rule :| HasRule(g, a, s) && Replaced(LeadingNames, s) && s[0] == b;
      if UnitRule(s) {
        LinkOf(UnitRules, g, a, s);
        m := GroundedThrough(g, h, a, b, k);
      } else {
        StaysRule(g, h, a, s);
        LinkedBy(h, a, s);
        GroundedNext(h, a, b, k);
        m := k + 1;
      }
    }
  }

  lemma StaysRule(g: Rules, h: Rules, a: Token, r: Rule)
    requires UnitFreed(g, h) && HasRule(g, a, r) && !UnitRule(r)
    ensures HasRule(h, a, r)
  {
    assert Reaches(g, a, 0, r);
  }

  lemma GroundedThrough(g: Rules, h: Rules, a: Token, b: Token, k: nat) returns (m: nat)
    requires UnitFreed(g, h) && Link(UnitRules, g, a, b) && GroundedIn(h, b, k)
    ensures GroundedIn(h, a, m)
  {
    hide UnitFreed;
    m := k;
    if k == 0 {
      var r: Rule :| HasRule(h, b, r) && StartsTerminal(r);
      LeftToo(g, h, a, b, r);
    } else {
      var c :| Linked(h, b, c) && GroundedIn(h, c, k - 1);
      var r: Rule :| HasRule(h, b, r) && Replaced(LeadingNames, r) && r[0] == c;
      LeftToo(g, h, a, b, r);
      LinkedBy(h, a, r);
      GroundedNext(h, a, c, k - 1);
    }
  }

  lemma GroundedNext(g: Rules, a: Token, b: Token, n: nat)
    requires Linked(g, a, b) && GroundedIn(g, b, n)
    ensures GroundedIn(g, a, n + 1)
  {
    hide Linked;
  }

  /** Unit removal leaves no name useless. */
  lemma UnitFreedReduced(g: Rules, h: Rules)
    requires UnitFreed(g, h) && Reduced(g) && h.Keys <= g.Keys
    ensures Reduced(h)
  {
    hide Reaches, GroundedIn, UnitFreed;
    forall a, r: Rule | HasRule(h, a, r)
      ensures r != [] && forall t :: t in r && !t.Terminal? ==> t in h
    {
      WasRule(g, h, a, r);
      forall t | t in r && !t.Terminal?
        ensures t in h
      {
        var n: nat :| GroundedIn(g, t, n);
        var m := StillGrounded(g, h, t, n);
        GroundedHasRules(h, t);
      }
    }
    forall a | a in h
      ensures Grounded(h, a)
    {
      assert a in g;
      var n: nat :| GroundedIn(g, a, n);
      var m := StillGrounded(g, h, a, n);
    }
  }

  lemma WasRule(g: Rules, h: Rules, a: Token, r: Rule)
    requires UnitFreed(g, h) && HasRule(h, a, r)
    ensures exists b :: HasRule(g, b, r)
  {
    hide Reaches;
    var n: nat :| Reaches(g, a, n, r);
    var b := ReachedRule(g, a, n, r);
  }

  // ---------- what lifting terminals makes of it ----------

  /** The lifting of one rule, as the function has it. */
  lemma {:induction false} LiftedTo(d: Dict, tokens: Rule, i: nat, was: Partial, lift: map<Token, Token>, count: nat, n: nat, j: nat)
    returns (lift': map<Token, Token>)
    requires 1 <= i <= |tokens| && MixedUpTo(d, was.g, lift, count, was.count, n, j) && was.g.Ok()
    ensures var l := LiftTo(tokens, i, was.g, was.count);
            MixedUpTo(d, l.g, lift', count, l.count, n, j) && |l.regen| == i && LiftedRule(lift', l.regen, tokens[..i])
    decreases i
  {
    hide MixedUpTo, LiftTo, LiftedRule;
    if i == 1 {
      LiftStart(tokens, was.g, was.count);
      FirstLifted(lift, tokens);
      lift' := lift;
    } else {
      lift' := LiftedTo(d, tokens, i - 1, was, lift, count, n, j);
      LiftNext(tokens, i - 1, was.g, was.count);
      var l := LiftTo(tokens, i - 1, was.g, was.count);
      var token := tokens[i - 1];
      if token.Terminal? {
        var name := Generated(l.count + 1);
        LiftTerminal(d, l.g, lift', count, l.count, n, j, name, token);
        GrowRule(lift', lift'[name := token], l.regen, tokens, i - 1, name);
        lift' := lift'[name := token];
      } else {
        GrowRule(lift', lift', l.regen, tokens, i - 1, token);
      }
    }
  }

  lemma FirstLifted(lift: map<Token, Token>, tokens: Rule)
    requires tokens != []
    ensures LiftedRule(lift, [tokens[0]], tokens[..1])
  {
  }

  lemma {:induction false} MixedToIs(d: Dict, count: nat, n: nat, j: nat) returns (lift: map<Token, Token>)
    requires d.Ok() && Bounded(d.rules, count) && NoEmptyRule(d.rules) && n < |d.keys| && j <= |d.rules[d.keys[n]]|
    ensures MixedTo(d, count, n, j).Some?
    ensures var m := MixedTo(d, count, n, j).value; MixedUpTo(d, m.g, lift, count, m.count, n, j)
    decreases n, j
  {
    hide MixedTo, MixedUpTo, LiftTo, LiftedRule, Bounded, NoEmptyRule, MixedAt;
    MixedUnless(d, count, n, j);
    if j > 0 {
      lift := MixedToIs(d, count, n, j - 1);
      MixedRule(d, count, n, j - 1);
      var m, tokens := MixedTo(d, count, n, j - 1).value, d.rules[d.keys[n]][j - 1];
      NotEmptyHere(d, n, j - 1);
      lift := LiftedTo(d, tokens, |tokens|, m, lift, count, n, j - 1);
      var l := LiftTo(tokens, |tokens|, m.g, m.count);
      assert tokens[..|tokens|] == tokens;
      TakeMixed(d, l.g, lift, count, l.count, n, j - 1, l.regen);
    } else if n > 0 {
      lift := MixedToIs(d, count, n - 1, |d.rules[d.keys[n - 1]]|);
      MixedName(d, count, n - 1);
      var m := MixedTo(d, count, n, 0).value;
      NextMixed(d, m.g, lift, count, m.count, n - 1);
    } else {
      lift := map[];
      MixedBegins(d, count);
      MixedStart(d, count);
      FirstAt(d, EMPTY, lift, count, count);
    }
  }

  lemma NotEmptyHere(d: Dict, n: nat, j: nat)
    requires d.Ok() && NoEmptyRule(d.rules) && n < |d.keys| && j < |d.rules[d.keys[n]]|
    ensures d.rules[d.keys[n]][j] != []
  {
    assert HasRule(d.rules, d.keys[n], d.rules[d.keys[n]][j]);
  }

  lemma FirstAt(d: Dict, new_: Dict, lift: map<Token, Token>, count: nat, now: nat)
    requires |d.keys| > 0 && MixedAt(d, new_, lift, count, now, 0)
    ensures MixedUpTo(d, new_, lift, count, now, 0, 0)
  {
  }

  lemma LastAt(d: Dict, new_: Dict, lift: map<Token, Token>, count: nat, now: nat)
    requires MixedAt(d, new_, lift, count, now, |d.keys|)
    ensures MixedDone(d, new_, lift, count, now)
  {
  }

  lemma UnmixedIs(d: Dict, count: nat) returns (lift: map<Token, Token>)
    requires d.Ok() && Bounded(d.rules, count) && NoEmptyRule(d.rules)
    ensures Unmixed(d, count).outcome.Converted?
    ensures var c := Unmixed(d, count); MixedDone(d, c.outcome.g, lift, count, c.count)
  {
    hide MixedTo, MixedUpTo, MixedDone, Bounded, NoEmptyRule, MixedAt;
    UnmixedIff(d, count);
    var n := |d.keys|;
    if n > 0 {
      lift := MixedToIs(d, count, n - 1, |d.rules[d.keys[n - 1]]|);
      MixedName(d, count, n - 1);
      var m := MixedTo(d, count, n, 0).value;
      MixedNext(d, m.g, lift, count, m.count, n - 1);
      LastAt(d, m.g, lift, count, m.count);
    } else {
      lift := map[];
      MixedBegins(d, count);
      MixedStart(d, count);
      LastAt(d, EMPTY, lift, count, count);
    }
  }

  /** The rules of old names: one for each old rule, with the same first token. */
  lemma OldRule(d: Dict, m: Dict, lift: map<Token, Token>, count: nat, now: nat, a: Token, r: Rule) returns (r': Rule)
    requires MixedDone(d, m, lift, count, now) && HasRule(d.rules, a, r) && r != []
    ensures HasRule(m.rules, a, r') && LiftedRule(lift, r', r)
  {
    hide LiftedRule;
    var list', list := RulesOf(m.rules, a), d.rules[a];
    var i :| 0 <= i < |list| && list[i] == r;
    r' := list'[i];
  }

  lemma NewRule(d: Dict, m: Dict, lift: map<Token, Token>, count: nat, now: nat, a: Token, r': Rule) returns (r: Rule)
    requires MixedDone(d, m, lift, count, now) && HasRule(m.rules, a, r')
    ensures a !in lift ==> HasRule(d.rules, a, r) && LiftedRule(lift, r', r)
    ensures a in lift ==> lift[a].Terminal? && r' == [lift[a]]
  {
    hide LiftedRule;
    r := [];
    if a !in lift {
      var list', list := RulesOf(m.rules, a), d.rules[a];
      var i :| 0 <= i < |list'| && list'[i] == r';
      r := list[i];
    }
  }

  /** Lifting leaves the links as they are. */
  lemma LinksLifted(d: Dict, m: Dict, lift: map<Token, Token>, count: nat, now: nat, a: Token, b: Token)
    requires MixedDone(d, m, lift, count, now) && NoEmptyRule(d.rules)
    ensures Linked(m.rules, a, b) <==> Linked(d.rules, a, b)
  {
    hide MixedDone, NoEmptyRule;
    if Linked(m.rules, a, b) {
      var r': Rule :| HasRule(m.rules, a, r') && Replaced(LeadingNames, r') && r'[0] == b;
      var r := NewRule(d, m, lift, count, now, a, r');
      SameFirst(lift, r', r);
      LinkedBy(d.rules, a, r);
    }
    if Linked(d.rules, a, b) {
      var r: Rule :| HasRule(d.rules, a, r) && Replaced(LeadingNames, r) && r[0] == b;
      var r' := OldRule(d, m, lift, count, now, a, r);
      SameFirst(lift, r', r);
      LinkedBy(m.rules, a, r');
    }
  }

  lemma SameFirst(lift: map<Token, Token>, r': Rule, r: Rule)
    requires LiftedRule(lift, r', r)
    ensures |r'| == |r| && (r != [] ==> r'[0] == r[0])
  {
  }

  lemma {:induction false} GroundedLifted(d: Dict, m: Dict, lift: map<Token, Token>, count: nat, now: nat, a: Token, n: nat)
    requires MixedDone(d, m, lift, count, now) && NoEmptyRule(d.rules) && GroundedIn(d.rules, a, n)
    ensures GroundedIn(m.rules, a, n)
    decreases n
  {
    hide MixedDone, NoEmptyRule, Linked;
    if n == 0 {
      var r: Rule :| HasRule(d.rules, a, r) && StartsTerminal(r);
      var r' := OldRule(d, m, lift, count, now, a, r);
      SameFirst(lift, r', r);
    } else {
      var b :| Linked(d.rules, a, b) && GroundedIn(d.rules, b, n - 1);
      LinksLifted(d, m, lift, count, now, a, b);
      GroundedLifted(d, m, lift, count, now, b, n - 1);
    }
  }

  lemma NewNameGrounded(d: Dict, m: Dict, lift: map<Token, Token>, count: nat, now: nat, a: Token)
    requires MixedDone(d, m, lift, count, now) && a in lift
    ensures Grounded(m.rules, a) && a in m.rules
  {
    hide LiftedList;
    var r := [lift[a]];
    assert HasRule(m.rules, a, r) && StartsTerminal(r);
    assert GroundedIn(m.rules, a, 0);
  }

  lemma OldNameGrounded(d: Dict, m: Dict, lift: map<Token, Token>, count: nat, now: nat, a: Token)
    requires MixedDone(d, m, lift, count, now) && Reduced(d.rules) && a in d.rules
    ensures Grounded(m.rules, a) && a in m.rules
  {
    hide MixedDone, GroundedIn;
    var n: nat :| GroundedIn(d.rules, a, n);
    GroundedLifted(d, m, lift, count, now, a, n);
    GroundedHasRules(m.rules, a);
  }

  lemma KeyIsKnown(d: Dict, m: Dict, lift: map<Token, Token>, count: nat, now: nat, a: Token)
    requires MixedDone(d, m, lift, count, now) && a in m.rules
    ensures a in d.rules || a in lift
  {
    hide LiftedList;
  }

  /** ... and no name useless. */
  lemma ReducedLifted(d: Dict, m: Dict, lift: map<Token, Token>, count: nat, now: nat)
    requires MixedDone(d, m, lift, count, now) && Reduced(d.rules)
    ensures Reduced(m.rules)
  {
    hide MixedDone, Grounded, LiftedToken;
    forall a, r': Rule | HasRule(m.rules, a, r')
      ensures r' != [] && forall t :: t in r' && !t.Terminal? ==> t in m.rules
    {
      var r := NewRule(d, m, lift, count, now, a, r');
      if a !in lift { NamesIn(d, m, lift, count, now, a, r', r); }
    }
    forall a | a in m.rules
      ensures Grounded(m.rules, a)
    {
      KeyIsKnown(d, m, lift, count, now, a);
      if a in lift { NewNameGrounded(d, m, lift, count, now, a); } else { OldNameGrounded(d, m, lift, count, now, a); }
    }
  }

  lemma NamesIn(d: Dict, m: Dict, lift: map<Token, Token>, count: nat, now: nat, a: Token, r': Rule, r: Rule)
    requires MixedDone(d, m, lift, count, now) && Reduced(d.rules) && HasRule(d.rules, a, r) && LiftedRule(lift, r', r)
    ensures r' != [] && forall t :: t in r' && !t.Terminal? ==> t in m.rules
  {
    hide MixedDone, Grounded;
    forall t | t in r' && !t.Terminal?
      ensures t in m.rules
    {
      var i :| 0 <= i < |r'| && r'[i] == t;
      assert LiftedToken(lift, r'[i], r[i]);
      if t in lift {
        NewNameGrounded(d, m, lift, count, now, t);
      } else {
        assert t in r;
        OldNameGrounded(d, m, lift, count, now, t);
      }
    }
  }

  // ---------- more rounds ----------

  lemma {:induction false} UnitFreeStays(d: Dict, rounds: nat, more: nat)
    requires d.Ok() && rounds <= more && UnitFree(d, rounds) != Unfinished
    ensures UnitFree(d, more) == UnitFree(d, rounds)
    decreases rounds
  {
    hide Round, NoUnit;
    if rounds > 0 {
      var m := Round(UnitRules, d);
      if m.Some? && !NoUnit(m.value.rules) { UnitFreeStays(m.value, rounds - 1, more - 1); }
    }
  }

  lemma {:induction false} LeftFreeStays(d: Dict, count: nat, rounds: nat, more: nat)
    requires d.Ok() && rounds <= more && LeftFree(d, count, rounds).outcome != Unfinished
    ensures LeftFree(d, count, more) == LeftFree(d, count, rounds)
    decreases rounds
  {
    hide RotateTo, NoLeftRecursion;
    if rounds > 0 {
      var m := RotateTo(d, count, |d.keys|);
      if m.Some? && !NoLeftRecursion(d.rules) { LeftFreeStays(m.value.g, m.value.count, rounds - 1, more - 1); }
    }
  }

  lemma {:induction false} NormalFormStays(d: Dict, count: nat, left: nat, rounds: nat, left': nat, more: nat)
    requires d.Ok() && left <= left' && rounds <= more && NormalForm(d, count, left, rounds).outcome != Unfinished
    ensures NormalForm(d, count, left', more) == NormalForm(d, count, left, rounds)
    decreases left
  {
    hide Round, LeftFree, LeadingTerminals;
    if left > 0 {
      LeftFreeStays(d, count, rounds, more);
      var s := LeftFree(d, count, rounds);
      if s.outcome.Converted? {
        var m := Round(LeadingNames, s.outcome.g);
        if m.Some? && !LeadingTerminals(m.value.rules) {
          NormalFormStays(m.value, s.count, left - 1, rounds, left' - 1, more);
        }
      }
    }
  }

  /** A result, or an exception, stays with more rounds. */
  lemma InNormalFormStays(d: Dict, start: Token, count: nat, rounds: nat, more: nat)
    requires d.Ok() && rounds <= more && InNormalForm(d, start, count, rounds) != Unfinished
    ensures InNormalForm(d, start, count, more) == InNormalForm(d, start, count, rounds)
  {
    hide UnitFree, Unmixed, NormalForm;
    UnitFreeStays(d, rounds, more);
    var u := UnitFree(d, rounds);
    if u.Converted? {
      var m := Unmixed(u.g, count);
      if m.outcome.Converted? { NormalFormStays(m.outcome.g, m.count, rounds, rounds, more, more); }
    }
  }

  // ---------- the whole conversion ----------

  /** Through unit rules, `a` has a rule that is none and starts with the name `b`. */
  ghost predicate Leads(g: Rules, a: Token, b: Token)
  {
    exists n: nat, r: Rule :: Reaches(g, a, n, r) && r != [] && r[0] == b && !b.Terminal?
  }

  ghost function LeadsOf(g: Rules): Graph
  {
    iset a: Token, b: Token | Leads(g, a, b) :: (a, b)
  }

  lemma LeadsAreLinks(g: Rules, h: Rules, a: Token, b: Token)
    requires UnitFreed(g, h)
    ensures Leads(g, a, b) <==> Linked(h, a, b)
  {
    hide Reaches;
    if Leads(g, a, b) {
      var n: nat, r: Rule :| Reaches(g, a, n, r) && r != [] && r[0] == b && !b.Terminal?;
      LinkedBy(h, a, r);
    }
    if Linked(h, a, b) {
      var r: Rule :| HasRule(h, a, r) && Replaced(LeadingNames, r) && r[0] == b;
      var n: nat :| Reaches(g, a, n, r);
      assert r[0] == b;
    }
  }

  /** What the normal-form loop starts with, when unit removal has ended. */
  lemma BeforeNormalForm(d: Dict, count: nat, rounds: nat) returns (m: Dict, now: nat)
    requires d.Ok() && Bounded(d.rules, count) && Reduced(d.rules) && UnitFree(d, rounds).Converted?
    ensures Unmixed(UnitFree(d, rounds).g, count) == Counted(Converted(m), now)
    ensures m.Ok() && Bounded(m.rules, now) && NoUnit(m.rules) && Reduced(m.rules)
    ensures LinksOf(m.rules, now) == LeadsOf(d.rules)
  {
    hide UnitFree, Unmixed, Bounded, Reduced, NoUnit, MixedDone, UnitFreed, Leads, Linked, TailsNonterminal, NoNewNames, NoEmptyRule;
    var u := UnitFree(d, rounds).g;
    UnitFreeIs(d, count, rounds);
    UnitFreedReduced(d.rules, u.rules);
    ReducedNoEmpty(u.rules);
    var lift := UnmixedIs(u, count);
    m, now := Unmixed(u, count).outcome.g, Unmixed(u, count).count;
    MixedFinal(u, m, lift, count, now);
    ReducedLifted(u, m, lift, count, now);
    forall a: Token, b: Token
      ensures (a, b) in LinksOf(m.rules, now) <==> (a, b) in LeadsOf(d.rules)
    {
      LeadsAreLinks(d.rules, u.rules, a, b);
      LinksLifted(u, m, lift, count, now, a, b);
      if Linked(m.rules, a, b) { LinkKnown(m.rules, now, a, b); }
    }
  }

  lemma ReducedNoEmpty(g: Rules)
    requires Reduced(g)
    ensures NoEmptyRule(g)
  {
  }

  lemma LinkKnown(g: Rules, count: nat, a: Token, b: Token)
    requires Bounded(g, count) && Linked(g, a, b)
    ensures Known(a, count)
  {
  }

  /** What unit removal ends with. */
  lemma {:induction false} UnitFreeIs(d: Dict, count: nat, rounds: nat)
    requires d.Ok() && Bounded(d.rules, count) && UnitFree(d, rounds).Converted?
    ensures var u := UnitFree(d, rounds).g;
            u.Ok() && Bounded(u.rules, count) && NoUnit(u.rules) && UnitFreed(d.rules, u.rules)
            && u.rules.Keys <= d.rules.Keys
    decreases rounds
  {
    hide Round, Bounded, Flattened, NoUnit, Reaches, Dict.Ok;
    forall a, r: Rule
      ensures HasRule(UnitFree(d, rounds).g.rules, a, r) <==> exists n: nat :: Reaches(d.rules, a, n, r)
    {
      UnitFreeRules(d, rounds, a, r);
    }
    var m := Round(UnitRules, d).value;
    RoundIs(UnitRules, d);
    RoundBounded(d.rules, m.rules, count);
    if !NoUnit(m.rules) { UnitFreeIs(m, count, rounds - 1); }
  }

  lemma RoundBounded(g: Rules, h: Rules, count: nat)
    requires Flattened(UnitRules, g, h) && Bounded(g, count)
    ensures Bounded(h, count) && h.Keys <= g.Keys
  {
    hide Flat, Replacement, KnownRule;
    forall a, r: Rule | HasRule(h, a, r)
      ensures KnownRule(r, count)
    {
      FlatMembers(UnitRules, g, g[a], r);
      var s :| s in g[a] && r in Replacement(UnitRules, g, s).value;
      UnitReplacement(g, s, r);
      if UnitRule(s) {
        assert HasRule(g, s[0], r);
      } else {
        assert HasRule(g, a, r);
      }
    }
  }

  /** On a grammar without useless names the conversion returns a grammar, for some number of rounds, if and only if
      no chain of unit rules is endless and the links that unit rules leave die out; otherwise it runs for ever. */
  lemma ConversionEndsIff(d: Dict, start: Token, count: nat)
    requires d.Ok() && Bounded(d.rules, count) && Reduced(d.rules)
    ensures (exists rounds: nat :: InNormalForm(d, start, count, rounds).Converted?) <==>
            (exists rank :: Ranked(UnitRules, d.rules, rank)) && DiesOut(LeadsOf(d.rules))
    ensures !(exists rounds: nat :: InNormalForm(d, start, count, rounds).Converted?) ==>
              forall rounds: nat :: InNormalForm(d, start, count, rounds) == Unfinished
  {
    hide InNormalForm, Ranked, Reduced, DiesOut, LeadsOf, UnitFree, NormalForm, Bounded, Dict.Ok;
    ReducedNames(d.rules);
    UnitRemovalEnds(d);
    if k: nat :| UnitFree(d, k).Converted? {
      var m, now := BeforeNormalForm(d, count, k);
      NormalFormEndsIff(m, now, 2);
      if left: nat :| NormalForm(m, now, left, 2).outcome.Converted? {
        var rounds := if k < left then left + 2 else k + 2;
        EndsAt(d, start, count, k, m, now, left, rounds);
      } else {
        forall rounds: nat
          ensures InNormalForm(d, start, count, rounds) == Unfinished
        {
          NeverEnds(d, start, count, k, m, now, rounds);
        }
      }
    } else {
      forall rounds: nat
        ensures InNormalForm(d, start, count, rounds) == Unfinished
      {
        NeverUnitFree(d, start, count, rounds);
      }
    }
  }

  lemma ReducedNames(g: Rules)
    requires Reduced(g)
    ensures NamesHaveRules(g)
  {
    hide GroundedIn;
    forall a, b | Link(UnitRules, g, a, b)
      ensures b in g && g[b] != []
    {
      var s := UnitOf(g, a, b);
      assert b in s;
      GroundedHasRules(g, b);
    }
  }

  lemma EndsAt(d: Dict, start: Token, count: nat, k: nat, m: Dict, now: nat, left: nat, rounds: nat)
    requires d.Ok() && m.Ok() && UnitFree(d, k).Converted? && Unmixed(UnitFree(d, k).g, count) == Counted(Converted(m), now)
    requires NormalForm(m, now, left, 2).outcome.Converted? && k <= rounds && left <= rounds && 2 <= rounds
    ensures InNormalForm(d, start, count, rounds).Converted?
  {
    hide UnitFree, NormalForm, Unmixed;
    UnitFreeStays(d, k, rounds);
    NormalFormStays(m, now, left, 2, rounds, rounds);
  }

  /** If the normal-form loop runs for ever, so does the conversion. */
  lemma NeverEnds(d: Dict, start: Token, count: nat, k: nat, m: Dict, now: nat, rounds: nat)
    requires d.Ok() && UnitFree(d, k).Converted? && Unmixed(UnitFree(d, k).g, count) == Counted(Converted(m), now)
    requires m.Ok() && Bounded(m.rules, now) && NoUnit(m.rules) && Reduced(m.rules) && !DiesOut(LinksOf(m.rules, now))
    requires NamesHaveRules(d.rules)
    ensures InNormalForm(d, start, count, rounds) == Unfinished
  {
    hide UnitFree, NormalForm, Unmixed, Bounded, NoUnit, Reduced, DiesOut, LinksOf, NamesHaveRules;
    var more := if rounds < 2 then 2 else rounds;
    NormalFormEndsIff(m, now, more);
    if UnitFree(d, rounds) != Unfinished { SameUnitFree(d, k, rounds); }
    if NormalForm(m, now, rounds, rounds).outcome != Unfinished { NormalFormStays(m, now, rounds, rounds, rounds, more); }
  }

  lemma NeverUnitFree(d: Dict, start: Token, count: nat, rounds: nat)
    requires d.Ok() && NamesHaveRules(d.rules) && !UnitFree(d, rounds).Converted?
    ensures InNormalForm(d, start, count, rounds) == Unfinished
  {
    hide UnitFree, NamesHaveRules;
    NeverRaised(d, rounds);
  }

  lemma SameUnitFree(d: Dict, k: nat, rounds: nat)
    requires d.Ok() && UnitFree(d, k).Converted? && UnitFree(d, rounds) != Unfinished
    ensures UnitFree(d, rounds) == UnitFree(d, k)
  {
    hide UnitFree;
    if k <= rounds { UnitFreeStays(d, k, rounds); } else { UnitFreeStays(d, rounds, k); }
  }

  /** What happens to the other grammars: where unit removal raises an exception, so does the conversion; where it
      runs for ever, so does the conversion; and where it ends, an empty rule raises an exception. */
  lemma ConversionFails(d: Dict, start: Token, count: nat, rounds: nat)
    requires d.Ok()
    ensures !NamesHaveRules(d.rules) && rounds >= 2 ==> InNormalForm(d, start, count, rounds) == Raised
    ensures NamesHaveRules(d.rules) && !(exists rank :: Ranked(UnitRules, d.rules, rank)) ==>
              InNormalForm(d, start, count, rounds) == Unfinished
    ensures NamesHaveRules(d.rules) && !NoEmptyRule(d.rules) && UnitFree(d, rounds).Converted? ==>
              InNormalForm(d, start, count, rounds) == Raised
  {
    hide UnitFree, NamesHaveRules, Ranked, NormalForm, Unmixed, NoEmptyRule;
    UnitRemovalEnds(d);
    if rounds >= 2 { UnitRemovalRaises(d, rounds); }
    if NamesHaveRules(d.rules) { NeverRaised(d, rounds); }
    if UnitFree(d, rounds).Converted? && !NoEmptyRule(d.rules) {
      EmptyStays(d, rounds);
      UnmixedIff(UnitFree(d, rounds).g, count);
    }
  }

  lemma EmptyStays(d: Dict, rounds: nat)
    requires d.Ok() && UnitFree(d, rounds).Converted? && !NoEmptyRule(d.rules)
    ensures !NoEmptyRule(UnitFree(d, rounds).g.rules)
  {
    hide UnitFree;
    var a, r: Rule :| HasRule(d.rules, a, r) && r == [];
    assert Reaches(d.rules, a, 0, r);
    UnitFreeRules(d, rounds, a, r);
  }
}
