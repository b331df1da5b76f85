/** Which grammars the normal-form loop ends on.  A turn takes left recursion away and then replaces leading
    names by their rules.  For the names of the grammar this drops the links from a name to itself and turns
    two of the other links into one; the names made up on the way are never linked to.  So the loop ends if
    and only if this operation on the links, repeated, leaves none. */
module Circles {
  import opened Conversion
  import opened Grammar
  import opened NormalFormEnds
  import opened Rounds
  import opened Wrappers

  // ---------- grammars without useless names ----------

  /** Links lead from `a` to a rule that starts with a terminal, in `n` steps. */
  ghost predicate GroundedIn(g: Rules, a: Token, n: nat)
    decreases n
  {
    if n == 0 then exists r :: HasRule(g, a, r) && StartsTerminal(r)
    else exists b :: Linked(g, a, b) && GroundedIn(g, b, n - 1)
  }

  ghost predicate Grounded(g: Rules, a: Token)
  {
    exists n: nat :: GroundedIn(g, a, n)
  }

  /** Every name that occurs has rules, and none of them is empty; every name leads to a terminal. */
  ghost predicate Reduced(g: Rules)
  {
    && NoEmptyRule(g)
    && (forall a, r: Rule, t :: HasRule(g, a, r) && t in r && !t.Terminal? ==> t in g)
    && (forall a :: a in g ==> Grounded(g, a))
  }

  lemma GroundedOn(g: Rules, a: Token, b: Token)
    requires Linked(g, a, b) && Grounded(g, b)
    ensures Grounded(g, a)
  {
    hide Linked;
    var n: nat :| GroundedIn(g, b, n);
    var m: nat := n + 1;
    assert GroundedIn(g, a, m);
  }

  lemma GroundedAt(g: Rules, a: Token, r: Rule)
    requires HasRule(g, a, r) && StartsTerminal(r)
    ensures Grounded(g, a)
  {
    assert GroundedIn(g, a, 0);
  }

  lemma {:induction false} DerivesGrounded(g: Rules, a: Token, rest: seq<Token>, w: seq<Token>, steps: seq<Rule>)
    requires NoEmptyRule(g) && !a.Terminal? && Derives(g, [a] + rest, w, steps)
    ensures Grounded(g, a)
    decreases |steps|
  {
    hide Linked, Grounded;
    assert ([a] + rest)[1..] == rest;
    var r := steps[0];
    assert HasRule(g, a, r) && Derives(g, r + rest, w, steps[1..]);
    if r[0].Terminal? {
      GroundedAt(g, a, r);
    } else {
      assert r + rest == [r[0]] + (r[1..] + rest);
      DerivesGrounded(g, r[0], r[1..] + rest, w, steps[1..]);
      LinkedBy(g, a, r);
      GroundedOn(g, a, r[0]);
    }
  }

  /** A name that derives some string leads to a terminal. */
  lemma ProductiveIsGrounded(g: Rules, a: Token, w: seq<Token>)
    requires NoEmptyRule(g) && !a.Terminal? && InLanguage(g, a, w)
    ensures Grounded(g, a)
  {
    var steps :| Derives(g, [a], w, steps);
    assert [a] + [] == [a];
    DerivesGrounded(g, a, [], w, steps);
  }

  // ---------- what every turn keeps ----------

  /** First tokens are names of the grammar the loop started with, or terminals; so are second tokens after
      a name, in the rules of those names. */
  ghost predicate Fronts(g: Rules, base: nat)
  {
    forall a, r: Rule :: HasRule(g, a, r) ==> FrontOk(a, r, base)
  }

  ghost predicate FrontOk(a: Token, r: Rule, base: nat)
  {
    && r != [] && Known(r[0], base)
    && (!r[0].Terminal? ==> |r| >= 2)
    && (!r[0].Terminal? && Known(a, base) ==> Known(r[1], base))
  }

  ghost predicate Fit(d: Dict, base: nat, count: nat)
  {
    d.Ok() && base <= count && Bounded(d.rules, count) && Fronts(d.rules, base) && Reduced(d.rules)
  }

  lemma FrontOf(g: Rules, base: nat, a: Token, r: Rule)
    requires Fronts(g, base) && HasRule(g, a, r)
    ensures FrontOk(a, r, base)
  {
  }

  lemma LinkedFront(g: Rules, base: nat, a: Token, b: Token)
    requires Fronts(g, base) && Linked(g, a, b)
    ensures Known(b, base) && !b.Terminal?
  {
    var r: Rule :| HasRule(g, a, r) && Replaced(LeadingNames, r) && r[0] == b;
    FrontOf(g, base, a, r);
  }

  // ---------- rotating all names ----------

  /** A rule that does not start with its own left-hand side. */
  ghost predicate Kept(g: Rules, x: Token, q: Rule)
  {
    HasRule(g, x, q) && q != [] && q[0] != x
  }

  /** The rules of an old name are its kept rules, perhaps with a new name at the end. */
  ghost predicate OldName(g: Rules, h: Rules, x: Token)
  {
    && x in h
    && (forall r :: HasRule(h, x, r) ==> ComesFrom(g, x, r))
    && (forall q :: Kept(g, x, q) ==> GoesOn(h, x, q))
  }

  ghost predicate ComesFrom(g: Rules, x: Token, r: Rule)
  {
    exists q :: Kept(g, x, q) && q <= r
  }

  ghost predicate GoesOn(h: Rules, x: Token, q: Rule)
  {
    exists r :: HasRule(h, x, r) && q <= r
  }

  /** The rules of a new name: the empty tail, and rests of rules that started with their left-hand side. */
  ghost predicate NewName(g: Rules, h: Rules, x: Token)
  {
    HasRule(h, x, [SPACE]) && forall r :: HasRule(h, x, r) ==> r == [SPACE] || IsRest(g, r)
  }

  ghost predicate IsRest(g: Rules, r: Rule)
  {
    exists a, q :: HasRule(g, a, q) && |q| >= 2 && q[0] == a && |r| >= 2 && r[0] == q[1]
  }

  ghost predicate TokensIn(g: Rules, h: Rules, r: Rule)
  {
    forall t :: t in r && !t.Terminal? ==> t in g || t in h
  }

  /** After the first `n` names have been rotated. */
  ghost predicate Between(d: Dict, m: Partial, count: nat, n: nat)
  {
    && d.Ok() && m.g.Ok() && n <= |d.keys| && count <= m.count
    && (forall i :: 0 <= i < n ==> OldName(d.rules, m.g.rules, d.keys[i]))
    && (forall x :: x in m.g.rules ==> x in d.keys[..n] || Tail(d.rules, m, count, x))
    && (forall x, r :: HasRule(m.g.rules, x, r) ==> TokensIn(d.rules, m.g.rules, r))
  }

  ghost predicate Tail(g: Rules, m: Partial, count: nat, x: Token)
  {
    x.Generated? && count < x.n <= m.count && NewName(g, m.g.rules, x)
  }

  /** Setting the rules of other names leaves a name as it is. */
  lemma OldNameStays(g: Rules, h: Rules, h': Rules, x: Token)
    requires OldName(g, h, x) && x in h' && h'[x] == h[x]
    ensures OldName(g, h', x)
  {
    hide Kept;
    forall r | HasRule(h', x, r)
      ensures ComesFrom(g, x, r)
    {
      assert HasRule(h, x, r);
    }
    forall q | Kept(g, x, q)
      ensures GoesOn(h', x, q)
    {
      assert GoesOn(h, x, q);
      var r :| HasRule(h, x, r) && q <= r;
      assert HasRule(h', x, r);
    }
  }

  lemma NewNameStays(g: Rules, h: Rules, h': Rules, x: Token)
    requires NewName(g, h, x) && x in h' && h'[x] == h[x]
    ensures NewName(g, h', x)
  {
    hide IsRest;
    forall r | HasRule(h', x, r)
      ensures r == [SPACE] || IsRest(g, r)
    {
      assert HasRule(h, x, r);
    }
  }

  lemma OthersKept(g: Rules, a: Token, q: Rule)
    requires a in g && forall r :: r in g[a] ==> r != []
    ensures q in Starting(g[a], a, false) <==> Kept(g, a, q)
  {
  }

  ghost predicate HasBeginning(list: seq<Rule>, r: Rule)
  {
    exists q :: q in list && q <= r
  }

  ghost predicate HasExtension(list: seq<Rule>, q: Rule)
  {
    exists r :: r in list && q <= r
  }

  /** The lists hold the same rules up to what may follow at the end. */
  ghost predicate Matches(others: seq<Rule>, main: seq<Rule>)
  {
    && (forall r :: r in main ==> HasBeginning(others, r))
    && (forall q :: q in others ==> HasExtension(main, q))
  }

  lemma MatchesItself(others: seq<Rule>)
    ensures Matches(others, others)
  {
    hide HasBeginning, HasExtension;
    forall q | q in others
      ensures HasBeginning(others, q) && HasExtension(others, q)
    {
      RuleMatches(others, q);
    }
  }

  lemma RuleMatches(others: seq<Rule>, q: Rule)
    requires q in others
    ensures HasBeginning(others, q) && HasExtension(others, q)
  {
    assert q <= q;
  }

  /** The rotated name itself, with a new name at the end of its rules or without. */
  lemma OldNameMade(g: Rules, h: Rules, a: Token, main: seq<Rule>)
    requires a in g && a in h && h[a] == main && NonEmptyList(g[a]) && Matches(Starting(g[a], a, false), main)
    ensures OldName(g, h, a)
  {
    hide Starting, Kept;
    forall r | HasRule(h, a, r)
      ensures ComesFrom(g, a, r)
    {
      assert HasBeginning(Starting(g[a], a, false), r);
      var q :| q in Starting(g[a], a, false) && q <= r;
      OthersKept(g, a, q);
    }
    forall q | Kept(g, a, q)
      ensures GoesOn(h, a, q)
    {
      OthersKept(g, a, q);
      assert HasExtension(main, q);
      var r :| r in main && q <= r;
      assert HasRule(h, a, r);
    }
  }

  lemma MainRules(others: seq<Rule>, b: Token)
    ensures Matches(others, Appended(others, 0, b))
  {
    hide Appended;
    forall r | r in Appended(others, 0, b)
      ensures HasBeginning(others, r)
    {
      AppendedIs(others, 0, b, r);
      var q :| q in others && r == q[0..] + [b];
      assert q <= r;
    }
    forall q | q in others
      ensures HasExtension(Appended(others, 0, b), q)
    {
      AppendedIs(others, 0, b, q[0..] + [b]);
      assert q <= q[0..] + [b];
    }
  }

  lemma TailMade(g: Rules, h: Rules, a: Token, b: Token)
    requires a in g && (forall r: Rule :: r in g[a] ==> r != [] && (!r[0].Terminal? ==> |r| >= 2)) && !a.Terminal?
    requires b in h && h[b] == Appended(Starting(g[a], a, true), 1, b) + [[SPACE]]
    ensures NewName(g, h, b)
  {
    hide Starting, Appended;
    assert [SPACE] in h[b] by { assert h[b][|h[b]| - 1] == [SPACE]; }
    forall r | HasRule(h, b, r)
      ensures r == [SPACE] || IsRest(g, r)
    {
      if r != [SPACE] {
        AppendedIs(Starting(g[a], a, true), 1, b, r);
        var q :| q in Starting(g[a], a, true) && r == q[1..] + [b];
        assert HasRule(g, a, q);
      }
    }
  }

  lemma MainTokens(g: Rules, h: Rules, a: Token, b: Token, r: Rule, skip: nat, with: bool)
    requires a in g && (forall q :: q in Starting(g[a], a, with) ==> skip <= |q|) && r in Appended(Starting(g[a], a, with), skip, b)
    requires b in h && forall q: Rule, t :: HasRule(g, a, q) && t in q && !t.Terminal? ==> t in g
    ensures TokensIn(g, h, r)
  {
    hide Starting, Appended;
    AppendedIs(Starting(g[a], a, with), skip, b, r);
    var q :| q in Starting(g[a], a, with) && r == q[skip..] + [b];
    assert HasRule(g, a, q);
    forall t | t in r && !t.Terminal?
      ensures t in g || t in h
    {
      if t in q[skip..] { assert t in q; }
    }
  }

  /** The new dictionary has more names, at most these two, and keeps the rules of the others. */
  ghost predicate Grows(m: Partial, m': Partial, a: Token, b: Token)
  {
    && m'.g.Ok() && m.count <= m'.count && m.g.rules.Keys <= m'.g.rules.Keys <= m.g.rules.Keys + {a, b}
    && forall x :: x in m.g.rules ==> m'.g.rules[x] == m.g.rules[x]
  }

  lemma RotatedKeeps(m: Partial, a: Token, list: seq<Rule>)
    requires m.g.Ok() && !a.Terminal? && NonEmptyList(list) && a !in m.g.rules && Starting(list, a, true) == []
    ensures RotateRules(m, a, list).Some? && Grows(m, RotateRules(m, a, list).value, a, a)
    ensures var h := RotateRules(m, a, list).value.g.rules; a in h && h[a] == Starting(list, a, false)
  {
    hide Starting, Appended, Dict.Ok;
    RulesRotated(m, a, list);
  }

  lemma RotatedSplits(m: Partial, a: Token, list: seq<Rule>)
    requires m.g.Ok() && !a.Terminal? && NonEmptyList(list) && a !in m.g.rules && Starting(list, a, true) != []
    requires Generated(m.count + 1) !in m.g.rules && Generated(m.count + 1) != a
    ensures RotateRules(m, a, list).Some? && Grows(m, RotateRules(m, a, list).value, a, Generated(m.count + 1))
    ensures RotateRules(m, a, list).value.count == m.count + 1
    ensures var h, b := RotateRules(m, a, list).value.g.rules, Generated(m.count + 1);
            && a in h && h[a] == Appended(Starting(list, a, false), 0, b)
            && b in h && h[b] == Appended(Starting(list, a, true), 1, b) + [[SPACE]]
  {
    hide Starting, Appended, Dict.Ok;
    RulesRotated(m, a, list);
  }

  /** The rules of name `n`, and what is not in the new dictionary yet. */
  lemma AtName(d: Dict, m: Partial, base: nat, count: nat, n: nat)
    requires Fit(d, base, count) && Between(d, m, count, n) && n < |d.keys|
    ensures var a := d.keys[n];
            && a in d.rules && !a.Terminal? && a !in m.g.rules && a !in d.keys[..n]
            && Generated(m.count + 1) !in m.g.rules && Generated(m.count + 1) != a && NonEmptyList(d.rules[a])
            && forall r: Rule :: r in d.rules[a] ==> r != [] && (!r[0].Terminal? ==> |r| >= 2)
  {
    hide Reduced, OldName, TokensIn, NewName;
    KeysKnown(d, count, n);
    var a := d.keys[n];
    assert Known(a, count);
    forall r: Rule | r in d.rules[a]
      ensures r != [] && (!r[0].Terminal? ==> |r| >= 2)
    {
      FrontOf(d.rules, base, a, r);
    }
  }

  lemma TokensStay(g: Rules, h: Rules, h': Rules, r: Rule)
    requires TokensIn(g, h, r) && h.Keys <= h'.Keys
    ensures TokensIn(g, h', r)
  {
  }

  lemma KeysKnown(d: Dict, count: nat, n: nat)
    requires d.Ok() && Bounded(d.rules, count) && n <= |d.keys|
    ensures forall k :: k in d.keys[..n] ==> Known(k, count)
  {
    forall k | k in d.keys[..n]
      ensures Known(k, count)
    {
      assert k in d.keys;
    }
  }

  /** Names other than the rotated one and its tail. */
  lemma BetweenStays(d: Dict, m: Partial, m': Partial, count: nat, n: nat, a: Token, b: Token)
    requires Between(d, m, count, n) && n < |d.keys| && a == d.keys[n] && a !in m.g.rules && b !in m.g.rules
    requires Grows(m, m', a, b) && OldName(d.rules, m'.g.rules, a)
    requires b == a || Tail(d.rules, m', count, b)
    requires RulesIn(d.rules, m'.g.rules, a) && RulesIn(d.rules, m'.g.rules, b)
    ensures Between(d, m', count, n + 1)
  {
    hide OldName, NewName, Dict.Ok, TokensIn;
    var next: nat := n + 1;
    forall i | 0 <= i < next
      ensures OldName(d.rules, m'.g.rules, d.keys[i])
    {
      if i < n {
        assert OldName(d.rules, m.g.rules, d.keys[i]);
        InNew(d.rules, m.g.rules, d.keys[i]);
        OldNameStays(d.rules, m.g.rules, m'.g.rules, d.keys[i]);
      }
    }
    forall x | x in m'.g.rules
      ensures x in d.keys[..next] || Tail(d.rules, m', count, x)
    {
      if x == a {
        assert d.keys[..next][n] == a;
      } else if x != b {
        if x in d.keys[..n] {
          var i :| 0 <= i < n && d.keys[i] == x;
          assert d.keys[..next][i] == x;
        } else {
          NewNameStays(d.rules, m.g.rules, m'.g.rules, x);
        }
      }
    }
    forall x, r | HasRule(m'.g.rules, x, r)
      ensures TokensIn(d.rules, m'.g.rules, r)
    {
      if x != a && x != b {
        assert HasRule(m.g.rules, x, r);
        TokensStay(d.rules, m.g.rules, m'.g.rules, r);
      }
    }
  }

  ghost predicate RulesIn(g: Rules, h: Rules, x: Token)
  {
    forall r :: HasRule(h, x, r) ==> TokensIn(g, h, r)
  }

  lemma InNew(g: Rules, h: Rules, x: Token)
    requires OldName(g, h, x)
    ensures x in h
  {
  }

  lemma OwnTokens(g: Rules, h: Rules, a: Token, list: seq<Rule>, r: Rule)
    requires Reduced(g) && a in g && (forall q :: q in list ==> q in g[a]) && r in list
    ensures TokensIn(g, h, r)
  {
    assert HasRule(g, a, r);
  }

  lemma OccursIn(g: Rules)
    requires Reduced(g)
    ensures forall a, r: Rule, t :: HasRule(g, a, r) && t in r && !t.Terminal? ==> t in g
  {
  }

  /** A name without left recursion. */
  lemma KeepName(d: Dict, m: Partial, base: nat, count: nat, n: nat)
    requires Fit(d, base, count) && Between(d, m, count, n) && n < |d.keys|
    requires Starting(d.rules[d.keys[n]], d.keys[n], true) == []
    ensures RotateRules(m, d.keys[n], d.rules[d.keys[n]]).Some?
    ensures Between(d, RotateRules(m, d.keys[n], d.rules[d.keys[n]]).value, count, n + 1)
  {
    hide Between, Fit, Starting, Appended, RotateRules, TokensIn, OldName, Reduced, Dict.Ok, Matches, RulesIn, Grows;
    FitIs(d, base, count);
    BetweenIs(d, m, count, n);
    AtName(d, m, base, count, n);
    var a, list := d.keys[n], d.rules[d.keys[n]];
    RotatedKeeps(m, a, list);
    var m' := RotateRules(m, a, list).value;
    MatchesItself(Starting(list, a, false));
    OldNameMade(d.rules, m'.g.rules, a, Starting(list, a, false));
    KeptTokens(d.rules, m'.g.rules, a);
    BetweenStays(d, m, m', count, n, a, a);
  }

  lemma KeptTokens(g: Rules, h: Rules, a: Token)
    requires Reduced(g) && a in g && a in h && h[a] == Starting(g[a], a, false)
    ensures RulesIn(g, h, a)
  {
    hide Reduced, TokensIn;
    forall r | HasRule(h, a, r)
      ensures TokensIn(g, h, r)
    {
      OwnTokens(g, h, a, h[a], r);
    }
  }

  lemma MainTokensIn(g: Rules, h: Rules, a: Token, b: Token)
    requires Reduced(g) && a in g && a in h && b in h && h[a] == Appended(Starting(g[a], a, false), 0, b)
    ensures RulesIn(g, h, a)
  {
    hide Reduced, TokensIn, Starting, Appended;
    OccursIn(g);
    forall r | HasRule(h, a, r)
      ensures TokensIn(g, h, r)
    {
      MainTokens(g, h, a, b, r, 0, false);
    }
  }

  lemma TailTokensIn(g: Rules, h: Rules, a: Token, b: Token)
    requires Reduced(g) && a in g && b in h && NonEmptyList(g[a])
    requires h[b] == Appended(Starting(g[a], a, true), 1, b) + [[SPACE]]
    ensures RulesIn(g, h, b)
  {
    hide Reduced, TokensIn, Starting, Appended;
    OccursIn(g);
    forall r | HasRule(h, b, r)
      ensures TokensIn(g, h, r)
    {
      if r == [SPACE] { SpaceTokens(g, h); } else { MainTokens(g, h, a, b, r, 1, true); }
    }
  }

  lemma FitIs(d: Dict, base: nat, count: nat)
    requires Fit(d, base, count)
    ensures d.Ok() && base <= count && Bounded(d.rules, count) && Fronts(d.rules, base) && Reduced(d.rules)
  {
  }

  lemma BetweenIs(d: Dict, m: Partial, count: nat, n: nat)
    requires Between(d, m, count, n)
    ensures d.Ok() && m.g.Ok() && n <= |d.keys| && count <= m.count
  {
  }

  /** A name with left recursion. */
  lemma SplitName(d: Dict, m: Partial, base: nat, count: nat, n: nat)
    requires Fit(d, base, count) && Between(d, m, count, n) && n < |d.keys|
    requires Starting(d.rules[d.keys[n]], d.keys[n], true) != []
    ensures RotateRules(m, d.keys[n], d.rules[d.keys[n]]).Some?
    ensures Between(d, RotateRules(m, d.keys[n], d.rules[d.keys[n]]).value, count, n + 1)
  {
    hide Between, Fit, Starting, Appended, RotateRules, TokensIn, OldName, NewName, Reduced, Dict.Ok, Matches, RulesIn, Grows;
    FitIs(d, base, count);
    BetweenIs(d, m, count, n);
    AtName(d, m, base, count, n);
    var a, list, b := d.keys[n], d.rules[d.keys[n]], Generated(m.count + 1);
    RotatedSplits(m, a, list);
    var m' := RotateRules(m, a, list).value;
    MainRules(Starting(list, a, false), b);
    OldNameMade(d.rules, m'.g.rules, a, Appended(Starting(list, a, false), 0, b));
    TailMade(d.rules, m'.g.rules, a, b);
    MainTokensIn(d.rules, m'.g.rules, a, b);
    TailTokensIn(d.rules, m'.g.rules, a, b);
    BetweenStays(d, m, m', count, n, a, b);
  }

  lemma SpaceTokens(g: Rules, h: Rules)
    ensures TokensIn(g, h, [SPACE])
  {
  }

  lemma {:induction false} Rotated(d: Dict, base: nat, count: nat, n: nat)
    requires Fit(d, base, count) && n <= |d.keys|
    ensures RotateTo(d, count, n).Some? && Between(d, RotateTo(d, count, n).value, count, n)
  {
    hide Between, Fit, RotateRules, Dict.Ok;
    FitIs(d, base, count);
    if n == 0 {
      NoneYet(d, count);
    } else {
      Rotated(d, base, count, n - 1);
      var m := RotateTo(d, count, n - 1).value;
      BetweenIs(d, m, count, n - 1);
      if Starting(d.rules[d.keys[n - 1]], d.keys[n - 1], true) == [] {
        KeepName(d, m, base, count, n - 1);
      } else {
        SplitName(d, m, base, count, n - 1);
      }
    }
  }

  lemma NoneYet(d: Dict, count: nat)
    requires d.Ok()
    ensures Between(d, Partial(EMPTY, count), count, 0)
  {
  }

  // ---------- after all names have been rotated ----------

  /** Every name of the grammar is an old name, every other one the tail of one. */
  ghost predicate Turned(g: Rules, h: Rules, base: nat)
  {
    && (forall x :: x in g ==> OldName(g, h, x))
    && (forall x :: x in h && x !in g ==> !Known(x, base) && NewName(g, h, x))
    && (forall x, r :: HasRule(h, x, r) ==> TokensIn(g, h, r))
  }

  lemma AllRotated(d: Dict, m: Partial, base: nat, count: nat)
    requires Fit(d, base, count) && Between(d, m, count, |d.keys|)
    ensures Turned(d.rules, m.g.rules, base)
  {
    hide OldName, NewName, TokensIn, Reduced, Fronts;
    forall x | x in d.rules
      ensures OldName(d.rules, m.g.rules, x)
    {
      var i :| 0 <= i < |d.keys| && d.keys[i] == x;
    }
    forall x | x in m.g.rules && x !in d.rules
      ensures !Known(x, base) && NewName(d.rules, m.g.rules, x)
    {
      assert x !in d.keys[..|d.keys|];
    }
  }

  lemma PrefixFront(x: Token, q: Rule, r: Rule, base: nat)
    requires FrontOk(x, q, base) && q <= r
    ensures FrontOk(x, r, base)
  {
  }

  lemma OldFront(g: Rules, h: Rules, base: nat, x: Token, r: Rule)
    requires Fronts(g, base) && Turned(g, h, base) && x in g && HasRule(h, x, r)
    ensures FrontOk(x, r, base)
  {
    hide FrontOk, Fronts, NewName, TokensIn;
    assert OldName(g, h, x);
    assert ComesFrom(g, x, r);
    var q :| Kept(g, x, q) && q <= r;
    FrontOf(g, base, x, q);
    PrefixFront(x, q, r, base);
  }

  lemma NewFront(g: Rules, h: Rules, base: nat, x: Token, r: Rule)
    requires Fronts(g, base) && Turned(g, h, base) && x in h && x !in g && HasRule(h, x, r)
    requires forall a :: a in g ==> !a.Terminal?
    ensures FrontOk(x, r, base)
  {
    hide Fronts, OldName, TokensIn;
    assert NewName(g, h, x);
    if r != [SPACE] {
      var a, q :| HasRule(g, a, q) && |q| >= 2 && q[0] == a && |r| >= 2 && r[0] == q[1];
      FrontOf(g, base, a, q);
    }
  }

  lemma FrontsRotated(g: Rules, h: Rules, base: nat)
    requires Fronts(g, base) && Turned(g, h, base) && forall a :: a in g ==> !a.Terminal?
    ensures Fronts(h, base)
  {
    hide FrontOk, Turned;
    forall x, r: Rule | HasRule(h, x, r)
      ensures FrontOk(x, r, base)
    {
      if x in g { OldFront(g, h, base, x, r); } else { NewFront(g, h, base, x, r); }
    }
  }

  lemma LinkStays(g: Rules, h: Rules, x: Token, b: Token)
    requires OldName(g, h, x) && Linked(g, x, b) && x != b
    ensures Linked(h, x, b)
  {
    var q: Rule :| HasRule(g, x, q) && Replaced(LeadingNames, q) && q[0] == b;
    assert Kept(g, x, q) && GoesOn(h, x, q);
    var r :| HasRule(h, x, r) && q <= r;
    LinkedBy(h, x, r);
  }

  lemma LinkWas(g: Rules, h: Rules, x: Token, b: Token)
    requires OldName(g, h, x) && Linked(h, x, b)
    ensures Linked(g, x, b) && x != b
  {
    var r: Rule :| HasRule(h, x, r) && Replaced(LeadingNames, r) && r[0] == b;
    assert ComesFrom(g, x, r);
    var q :| Kept(g, x, q) && q <= r;
    LinkedBy(g, x, q);
  }

  /** Of the links of an old name only that to itself is gone. */
  lemma LinksRotated(g: Rules, h: Rules, base: nat, x: Token, b: Token)
    requires Turned(g, h, base) && x in g
    ensures Linked(h, x, b) <==> Linked(g, x, b) && x != b
  {
    hide OldName, NewName, TokensIn, Linked;
    assert OldName(g, h, x);
    if Linked(h, x, b) { LinkWas(g, h, x, b); }
    if Linked(g, x, b) && x != b { LinkStays(g, h, x, b); }
  }

  lemma TerminalRotated(g: Rules, h: Rules, base: nat, x: Token, q: Rule)
    requires Turned(g, h, base) && x in g && !x.Terminal? && HasRule(g, x, q) && StartsTerminal(q)
    ensures Grounded(h, x)
  {
    hide NewName, TokensIn, Grounded;
    assert OldName(g, h, x);
    assert Kept(g, x, q) && GoesOn(h, x, q);
    var r :| HasRule(h, x, r) && q <= r;
    GroundedAt(h, x, r);
  }

  lemma LinkedIn(g: Rules, a: Token, b: Token)
    requires Reduced(g) && Linked(g, a, b)
    ensures a in g && b in g && !b.Terminal?
  {
    var r: Rule :| HasRule(g, a, r) && Replaced(LeadingNames, r) && r[0] == b;
    assert b in r;
  }

  lemma {:induction false} GroundedRotated(g: Rules, h: Rules, base: nat, x: Token, n: nat)
    requires Turned(g, h, base) && Reduced(g) && x in g && !x.Terminal? && GroundedIn(g, x, n)
    ensures Grounded(h, x)
    decreases n
  {
    hide Turned, Reduced, Linked, Grounded;
    if n == 0 {
      var r :| HasRule(g, x, r) && StartsTerminal(r);
      TerminalRotated(g, h, base, x, r);
    } else {
      var b :| Linked(g, x, b) && GroundedIn(g, b, n - 1);
      LinkedIn(g, x, b);
      GroundedRotated(g, h, base, b, n - 1);
      ReducedIs(g);
      LinksRotated(g, h, base, x, b);
      if b != x { GroundedOn(h, x, b); }
    }
  }

  lemma ReducedIs(g: Rules)
    requires Reduced(g)
    ensures NoEmptyRule(g)
  {
  }

  lemma NewGrounded(g: Rules, h: Rules, x: Token)
    requires NewName(g, h, x)
    ensures Grounded(h, x)
  {
    GroundedAt(h, x, [SPACE]);
  }

  lemma ReducedRotated(g: Rules, h: Rules, base: nat)
    requires Turned(g, h, base) && Reduced(g) && NoEmptyRule(h) && forall a :: a in g ==> !a.Terminal?
    ensures Reduced(h)
  {
    hide OldName, NewName, Grounded, NoEmptyRule;
    forall x | x in h
      ensures Grounded(h, x)
    {
      if x in g {
        var n: nat := GroundedBy(g, x);
        GroundedRotated(g, h, base, x, n);
      } else {
        NewGrounded(g, h, x);
      }
    }
    forall x, r: Rule, t | HasRule(h, x, r) && t in r && !t.Terminal?
      ensures t in h
    {
      assert TokensIn(g, h, r);
      if t in g { InNew(g, h, t); }
    }
  }

  lemma GroundedBy(g: Rules, x: Token) returns (n: nat)
    requires Grounded(g, x)
    ensures GroundedIn(g, x, n)
  {
    n :| GroundedIn(g, x, n);
  }

  /** What left-recursion removal makes of a grammar. */
  lemma Rotation(d: Dict, base: nat, count: nat, rounds: nat) returns (m: Partial)
    requires Fit(d, base, count) && rounds >= 2
    ensures LeftFree(d, count, rounds) == Counted(Converted(m.g), m.count)
    ensures Fit(m.g, base, m.count) && Turned(d.rules, m.g.rules, base)
  {
    hide RotateTo, Between, Turned, Reduced, Fronts, Bounded, NoLeftRecursion, Dict.Ok;
    FitIs(d, base, count);
    ReducedIs(d.rules);
    NoSelf(d, base);
    RotateSound(d, count, |d.keys|);
    Rotated(d, base, count, |d.keys|);
    m := RotateTo(d, count, |d.keys|).value;
    SoundIs(m, count);
    CountGrows(m, count);
    AllRotated(d, m, base, count);
    KeysAreNames(d);
    FrontsRotated(d.rules, m.g.rules, base);
    ReducedRotated(d.rules, m.g.rules, base);
    TwoPasses(d, count, rounds, m);
  }

  lemma KeysAreNames(d: Dict)
    requires d.Ok()
    ensures forall a :: a in d.rules ==> !a.Terminal?
  {
  }

  lemma NoSelf(d: Dict, base: nat)
    requires d.Ok() && Fronts(d.rules, base)
    ensures forall a :: !SelfRule(d.rules, a)
  {
    forall a
      ensures !SelfRule(d.rules, a)
    {
      if SelfRule(d.rules, a) { FrontOf(d.rules, base, a, [a]); }
    }
  }

  lemma TwoPasses(d: Dict, count: nat, rounds: nat, m: Partial)
    requires d.Ok() && rounds >= 2 && RotateTo(d, count, |d.keys|) == Some(m) && m.g.Ok() && NoLeftRecursion(m.g.rules)
    ensures LeftFree(d, count, rounds) == Counted(Converted(m.g), m.count)
  {
    hide RotateTo, NoLeftRecursion, Dict.Ok;
    FreeAtOnce(m.g, m.count, rounds - 1);
  }

  // ---------- after leading names have been replaced ----------

  lemma ReducedLeads(g: Rules)
    requires Reduced(g)
    ensures LeadsHaveRules(g)
  {
    hide Linked, GroundedIn;
    ReducedIs(g);
    forall a, b | Linked(g, a, b)
      ensures b in g && g[b] != []
    {
      LinkedIn(g, a, b);
      GroundedHasRules(g, b);
    }
  }

  lemma GroundedHasRules(g: Rules, a: Token)
    requires Grounded(g, a)
    ensures a in g && g[a] != []
  {
    var n: nat :| GroundedIn(g, a, n);
    if n > 0 {
      var b :| Linked(g, a, b) && GroundedIn(g, b, n - 1);
      LinkOwner(LeadingNames, g, a, b);
    }
  }

  /** Where a rule comes from. */
  ghost predicate Parents(g: Rules, s: Rule, r: Rule)
  {
    (StartsTerminal(s) && r == s) || (s != [] && !s[0].Terminal? && exists q :: HasRule(g, s[0], q) && r == q + s[1..])
  }

  lemma ParentsIs(g: Rules, s: Rule, r: Rule)
    requires s != [] && Replacement(LeadingNames, g, s).Some?
    ensures r in Replacement(LeadingNames, g, s).value <==> Parents(g, s, r)
  {
    if !s[0].Terminal? {
      var list := g[s[0]];
      if r in Extended(list, s[1..]) {
        var i :| 0 <= i < |list| && r == list[i] + s[1..];
        assert HasRule(g, s[0], list[i]);
      }
      if q :| HasRule(g, s[0], q) && r == q + s[1..] {
        var i :| 0 <= i < |list| && list[i] == q;
        assert Extended(list, s[1..])[i] == r;
      }
    }
  }

  lemma RuleAfter(g: Rules, h: Rules, a: Token, r: Rule) returns (s: Rule)
    requires Flattened(LeadingNames, g, h) && NoEmptyRule(g) && HasRule(h, a, r)
    ensures HasRule(g, a, s) && s != [] && Parents(g, s, r)
  {
    hide Replacement, Flat, Parents;
    FlatMembers(LeadingNames, g, g[a], r);
    s :| s in g[a] && r in Replacement(LeadingNames, g, s).value;
    assert HasRule(g, a, s);
    ParentsIs(g, s, r);
  }

  lemma RuleMade(g: Rules, h: Rules, a: Token, s: Rule, r: Rule)
    requires Flattened(LeadingNames, g, h) && HasRule(g, a, s) && s != [] && Parents(g, s, r)
    ensures HasRule(h, a, r)
  {
    hide Replacement, Flat, Parents;
    FlatMembers(LeadingNames, g, g[a], r);
    ParentsIs(g, s, r);
  }

  lemma FrontAfter(g: Rules, h: Rules, base: nat, a: Token, r: Rule)
    requires Flattened(LeadingNames, g, h) && NoEmptyRule(g) && Fronts(g, base) && HasRule(h, a, r)
    ensures FrontOk(a, r, base)
  {
    hide Flattened, Fronts;
    var s := RuleAfter(g, h, a, r);
    FrontOf(g, base, a, s);
    if !s[0].Terminal? {
      var q :| HasRule(g, s[0], q) && r == q + s[1..];
      FrontOf(g, base, s[0], q);
    }
  }

  lemma FrontsAfter(g: Rules, h: Rules, base: nat)
    requires Flattened(LeadingNames, g, h) && NoEmptyRule(g) && Fronts(g, base)
    ensures Fronts(h, base)
  {
    hide Flattened, FrontOk;
    forall a, r: Rule | HasRule(h, a, r)
      ensures FrontOk(a, r, base)
    {
      FrontAfter(g, h, base, a, r);
    }
  }

  lemma Among(q: Rule, s: Rule, t: Token)
    requires s != [] && t in q + s[1..]
    ensures t in q || t in s
  {
  }

  lemma TokenAfter(g: Rules, h: Rules, a: Token, r: Rule, t: Token)
    requires Flattened(LeadingNames, g, h) && NoEmptyRule(g) && HasRule(h, a, r) && t in r
    ensures exists x, q :: HasRule(g, x, q) && t in q
  {
    hide Flattened, NoEmptyRule;
    var s := RuleAfter(g, h, a, r);
    if t !in s {
      var q :| HasRule(g, s[0], q) && r == q + s[1..];
      Among(q, s, t);
    }
  }

  lemma BoundedAfter(g: Rules, h: Rules, base: nat, count: nat)
    requires Flattened(LeadingNames, g, h) && NoEmptyRule(g) && Bounded(g, count)
    ensures Bounded(h, count)
  {
    hide NoEmptyRule, Flat;
    forall a | a in h
      ensures Known(a, count)
    {
      assert a in g;
    }
    forall a, r | HasRule(h, a, r)
      ensures KnownRule(r, count)
    {
      forall i | 0 <= i < |r|
        ensures Known(r[i], count)
      {
        TokenAfter(g, h, a, r, r[i]);
        var x, q: Rule :| HasRule(g, x, q) && r[i] in q;
        assert KnownRule(q, count);
      }
    }
  }

  lemma {:induction false} GroundedAfter(g: Rules, h: Rules, x: Token, n: nat)
    requires Flattened(LeadingNames, g, h) && Reduced(g) && GroundedIn(g, x, n)
    ensures Grounded(h, x)
    decreases n
  {
    hide Flattened, Reduced, Grounded, Link, Readable;
    ReducedIs(g);
    ReducedLeads(g);
    LeadsReadable(g);
    if n == 0 {
      var s :| HasRule(g, x, s) && StartsTerminal(s);
      RuleMade(g, h, x, s, s);
      GroundedAt(h, x, s);
    } else {
      var b :| Linked(g, x, b) && GroundedIn(g, b, n - 1);
      if n == 1 {
        GroundedAtOnce(g, h, x, b);
      } else {
        var c :| Linked(g, b, c) && GroundedIn(g, c, n - 2);
        assert Chain(LeadingNames, g, x, b, c);
        LinksAfter(LeadingNames, g, h, x, c);
        GroundedAfter(g, h, c, n - 2);
        GroundedOn(h, x, c);
      }
    }
  }

  lemma GroundedAtOnce(g: Rules, h: Rules, x: Token, b: Token)
    requires Flattened(LeadingNames, g, h) && Linked(g, x, b) && GroundedIn(g, b, 0)
    ensures Grounded(h, x)
  {
    hide Flattened, Grounded;
    var s: Rule :| HasRule(g, x, s) && Replaced(LeadingNames, s) && s[0] == b;
    var q :| HasRule(g, b, q) && StartsTerminal(q);
    RuleMade(g, h, x, s, q + s[1..]);
    GroundedAt(h, x, q + s[1..]);
  }

  lemma ReducedAfter(g: Rules, h: Rules)
    requires Flattened(LeadingNames, g, h) && Reduced(g)
    ensures Reduced(h)
  {
    hide Grounded, NoEmptyRule, Flat;
    ReducedIs(g);
    NonEmptyAfter(g, h);
    forall x | x in h
      ensures Grounded(h, x)
    {
      var n: nat := GroundedBy(g, x);
      GroundedAfter(g, h, x, n);
    }
    forall x, r: Rule, t | HasRule(h, x, r) && t in r && !t.Terminal?
      ensures t in h
    {
      TokenAfter(g, h, x, r, t);
      GroundedHasRules(g, t);
    }
  }

  /** One replacement of leading names. */
  lemma Replacing(d: Dict, base: nat, count: nat) returns (m: Dict)
    requires Fit(d, base, count)
    ensures Round(LeadingNames, d) == Some(m) && Flattened(LeadingNames, d.rules, m.rules) && Fit(m, base, count)
  {
    hide Round, Flattened, Reduced, Fronts, Bounded, Missing, Readable, LeadsHaveRules, NoEmptyRule;
    FitIs(d, base, count);
    ReducedIs(d.rules);
    ReducedLeads(d.rules);
    LeadsReadable(d.rules);
    RoundStops(LeadingNames, d);
    RoundIs(LeadingNames, d);
    m := Round(LeadingNames, d).value;
    FrontsAfter(d.rules, m.rules, base);
    BoundedAfter(d.rules, m.rules, base, count);
    ReducedAfter(d.rules, m.rules);
  }

  // ---------- one turn of the loop ----------

  /** What a turn does to links: two of them, neither from a name to itself, become one. */
  ghost predicate Joins(g: Rules, a: Token, b: Token, c: Token)
  {
    Linked(g, a, b) && Linked(g, b, c) && a != b && b != c
  }

  /** A link of a name the loop started with, before and after a turn, and of any name after it. */
  ghost predicate LinkAfter(g: Rules, h: Rules, base: nat, a: Token, c: Token)
  {
    && (Known(a, base) ==> (Linked(h, a, c) <==> exists b :: Joins(g, a, b, c)))
    && (Linked(h, a, c) ==> exists b :: OldLink(g, base, b, c))
  }

  ghost predicate OldLink(g: Rules, base: nat, b: Token, c: Token)
  {
    Known(b, base) && Linked(g, b, c)
  }

  ghost predicate TurnedLinks(g: Rules, h: Rules, base: nat)
  {
    forall a, c :: LinkAfter(g, h, base, a, c)
  }

  lemma LinksTurned(g: Rules, e: Rules, h: Rules, base: nat, a: Token, c: Token)
    requires Reduced(g) && Fronts(g, base) && Turned(g, e, base) && Reduced(e) && Fronts(e, base)
    requires Flattened(LeadingNames, e, h)
    ensures LinkAfter(g, h, base, a, c)
  {
    hide Reduced, Fronts, Turned, Flattened, Link, Readable;
    ReducedLeads(e);
    LeadsReadable(e);
    LinksAfter(LeadingNames, e, h, a, c);
    if Linked(h, a, c) {
      var b :| Chain(LeadingNames, e, a, b, c);
      LinkedFront(e, base, a, b);
      LinkWasOld(g, e, base, b, c);
      assert OldLink(g, base, b, c);
      if Known(a, base) {
        LinkWasOld(g, e, base, a, b);
        assert Joins(g, a, b, c);
      }
    }
    forall b | Joins(g, a, b, c)
      ensures Linked(h, a, c)
    {
      LinkedIn(g, a, b);
      LinkedIn(g, b, c);
      LinksRotated(g, e, base, a, b);
      LinksRotated(g, e, base, b, c);
      assert Chain(LeadingNames, e, a, b, c);
    }
  }

  lemma LinkWasOld(g: Rules, e: Rules, base: nat, a: Token, b: Token)
    requires Turned(g, e, base) && Known(a, base) && Linked(e, a, b)
    ensures Linked(g, a, b) && a != b
  {
    hide OldName, NewName, TokensIn, Link;
    LinkOwner(LeadingNames, e, a, b);
    LinksRotated(g, e, base, a, b);
  }

  /** One turn of the loop: it ends the loop, or the loop goes on from its result. */
  lemma WholeTurn(d: Dict, base: nat, count: nat, left: nat, rounds: nat) returns (m: Dict, now: nat)
    requires Fit(d, base, count) && left >= 1 && rounds >= 2
    ensures Fit(m, base, now) && TurnedLinks(d.rules, m.rules, base)
    ensures NormalForm(d, count, left, rounds) ==
              if LeadingTerminals(m.rules) then Counted(Converted(m), now) else NormalForm(m, now, left - 1, rounds)
  {
    hide Round, LeftFree, Turned, Reduced, Fronts, Bounded, Flattened, LeadingTerminals, LinkAfter, Dict.Ok;
    var e := Rotation(d, base, count, rounds);
    m := Replacing(e.g, base, e.count);
    now := e.count;
    FitIs(d, base, count);
    FitIs(e.g, base, e.count);
    forall a, c
      ensures LinkAfter(d.rules, m.rules, base, a, c)
    {
      LinksTurned(d.rules, e.g.rules, m.rules, base, a, c);
    }
  }

  // ---------- links as a graph ----------

  type Graph = iset<(Token, Token)>

  /** The links of the names the loop started with. */
  ghost function LinksOf(g: Rules, base: nat): Graph
  {
    iset a: Token, b: Token | Known(a, base) && Linked(g, a, b) :: (a, b)
  }

  ghost function Joined(e: Graph): Graph
  {
    iset a: Token, c: Token | exists b :: Meet(e, a, b, c) :: (a, c)
  }

  ghost predicate Meet(e: Graph, a: Token, b: Token, c: Token)
  {
    (a, b) in e && (b, c) in e && a != b && b != c
  }

  /** The graph after `k` turns. */
  ghost function Turns(e: Graph, k: nat): Graph
    decreases k
  {
    if k == 0 then e else Turns(Joined(e), k - 1)
  }

  /** Some number of turns leaves no link. */
  ghost predicate DiesOut(e: Graph)
  {
    exists k: nat :: Turns(e, k) == iset{}
  }

  lemma PairTurned(g: Rules, h: Rules, base: nat, a: Token, c: Token)
    requires LinkAfter(g, h, base, a, c) && Fronts(g, base)
    ensures Known(a, base) && Linked(h, a, c) <==> exists b :: Meet(LinksOf(g, base), a, b, c)
  {
    hide Linked, Fronts;
    if Known(a, base) && Linked(h, a, c) {
      var b :| Joins(g, a, b, c);
      LinkedFront(g, base, a, b);
      assert Meet(LinksOf(g, base), a, b, c);
    }
    if b :| Meet(LinksOf(g, base), a, b, c) { assert Joins(g, a, b, c); }
  }

  lemma GraphTurned(g: Rules, h: Rules, base: nat)
    requires TurnedLinks(g, h, base) && Fronts(g, base)
    ensures LinksOf(h, base) == Joined(LinksOf(g, base))
  {
    hide Linked, Fronts, Meet, LinkAfter;
    var e := LinksOf(g, base);
    forall a: Token, c: Token
      ensures (a, c) in LinksOf(h, base) <==> (a, c) in Joined(e)
    {
      assert LinkAfter(g, h, base, a, c);
      PairTurned(g, h, base, a, c);
    }
  }

  lemma NoGraphNoLinks(g: Rules, h: Rules, base: nat)
    requires TurnedLinks(g, h, base) && LinksOf(g, base) == iset{} && NoEmptyRule(h)
    ensures LeadingTerminals(h)
  {
    hide Linked, NoEmptyRule, LeadingTerminals, LinkAfter;
    forall a, c
      ensures !Linked(h, a, c)
    {
      assert LinkAfter(g, h, base, a, c);
      NoOldLink(g, h, base, a, c);
    }
    LeadingIs(h);
  }

  lemma NoOldLink(g: Rules, h: Rules, base: nat, a: Token, c: Token)
    requires LinkAfter(g, h, base, a, c) && LinksOf(g, base) == iset{}
    ensures !Linked(h, a, c)
  {
    hide Linked;
    if Linked(h, a, c) {
      var b :| OldLink(g, base, b, c);
      OldLinkIn(g, base, b, c);
    }
  }

  lemma OldLinkIn(g: Rules, base: nat, b: Token, c: Token)
    requires OldLink(g, base, b, c)
    ensures LinksOf(g, base) != iset{}
  {
    hide Linked;
    assert (b, c) in LinksOf(g, base);
  }

  lemma NoLinksNoGraph(g: Rules, base: nat)
    requires LeadingTerminals(g)
    ensures LinksOf(g, base) == iset{}
  {
    hide Linked, LeadingTerminals;
    LeadingIs(g);
  }

  /** Enough turns end the loop if the links die out. */
  lemma {:induction false} TurnsSuffice(d: Dict, base: nat, count: nat, left: nat, rounds: nat, k: nat)
    requires Fit(d, base, count) && rounds >= 2 && left > k && Turns(LinksOf(d.rules, base), k) == iset{}
    ensures NormalForm(d, count, left, rounds).outcome.Converted?
    decreases k
  {
    hide NormalForm, Fit, TurnedLinks, LeadingTerminals, LinksOf, Joined;
    var m, now := WholeTurn(d, base, count, left, rounds);
    FitShape(d, base, count);
    FitShape(m, base, now);
    if k == 0 {
      NoGraphNoLinks(d.rules, m.rules, base);
    } else if !LeadingTerminals(m.rules) {
      GraphTurned(d.rules, m.rules, base);
      TurnsSuffice(m, base, now, left - 1, rounds, k - 1);
    }
  }

  lemma FitShape(d: Dict, base: nat, count: nat)
    requires Fit(d, base, count)
    ensures d.Ok() && Fronts(d.rules, base) && NoEmptyRule(d.rules)
  {
  }

  /** If the loop ends, the links die out. */
  lemma {:induction false} EndedDiesOut(d: Dict, base: nat, count: nat, left: nat, rounds: nat) returns (k: nat)
    requires Fit(d, base, count) && rounds >= 2 && NormalForm(d, count, left, rounds).outcome.Converted?
    ensures Turns(LinksOf(d.rules, base), k) == iset{}
    decreases left
  {
    hide NormalForm, Fit, TurnedLinks, LeadingTerminals, LinksOf, Joined, Dict.Ok;
    FitShape(d, base, count);
    if left == 0 { NoTurns(d, count, left, rounds); }
    var m, now := WholeTurn(d, base, count, left, rounds);
    FitShape(m, base, now);
    GraphTurned(d.rules, m.rules, base);
    var rest: nat := 0;
    if LeadingTerminals(m.rules) {
      NoLinksNoGraph(m.rules, base);
    } else {
      rest := EndedDiesOut(m, base, now, left - 1, rounds);
    }
    k := rest + 1;
    OneTurnMore(LinksOf(d.rules, base), rest);
  }

  lemma OneTurnMore(e: Graph, k: nat)
    ensures Turns(e, k + 1) == Turns(Joined(e), k)
  {
  }

  lemma {:induction false} NothingRaised(d: Dict, base: nat, count: nat, left: nat, rounds: nat)
    requires Fit(d, base, count) && rounds >= 2
    ensures !NormalForm(d, count, left, rounds).outcome.Raised?
    decreases left
  {
    hide NormalForm, Fit, TurnedLinks, LeadingTerminals, Dict.Ok;
    FitShape(d, base, count);
    if left == 0 {
      NoTurns(d, count, left, rounds);
    } else {
      var m, now := WholeTurn(d, base, count, left, rounds);
      FitShape(m, base, now);
      if !LeadingTerminals(m.rules) { NothingRaised(m, base, now, left - 1, rounds); }
    }
  }

  /** What the passes before the loop make of a grammar without useless names. */
  lemma FitAtFirst(d: Dict, count: nat)
    requires d.Ok() && Bounded(d.rules, count) && NoUnit(d.rules) && Reduced(d.rules)
    ensures Fit(d, count, count)
  {
    hide Reduced;
    ReducedIs(d.rules);
    forall a, r: Rule | HasRule(d.rules, a, r)
      ensures FrontOk(a, r, count)
    {
      assert KnownRule(r, count) && !UnitRule(r);
    }
  }

  /** On a grammar without unit rules and useless names the normal-form loop ends if and only if its links,
      joined two by two without those from a name to itself, die out; otherwise it runs for ever. */
  lemma NormalFormEndsIff(d: Dict, count: nat, rounds: nat)
    requires d.Ok() && Bounded(d.rules, count) && NoUnit(d.rules) && Reduced(d.rules) && rounds >= 2
    ensures (exists left: nat :: NormalForm(d, count, left, rounds).outcome.Converted?) <==> DiesOut(LinksOf(d.rules, count))
    ensures !DiesOut(LinksOf(d.rules, count)) ==> forall left: nat :: NormalForm(d, count, left, rounds).outcome == Unfinished
  {
    hide NormalForm, Fit, LinksOf, Reduced, NoUnit, Bounded, Dict.Ok;
    FitAtFirst(d, count);
    if k: nat :| Turns(LinksOf(d.rules, count), k) == iset{} {
      var left: nat := k + 1;
      TurnsSuffice(d, count, count, left, rounds, k);
    } else {
      forall left: nat
        ensures NormalForm(d, count, left, rounds).outcome == Unfinished
      {
        NothingRaised(d, count, count, left, rounds);
        if NormalForm(d, count, left, rounds).outcome.Converted? {
          var n := EndedDiesOut(d, count, count, left, rounds);
        }
      }
    }
  }

  // ---------- circles of two and of three names ----------

  ghost function Two(x: Token, y: Token): Graph
  {
    iset{(x, y), (y, x)}
  }

  ghost function Three(x: Token, y: Token, z: Token): Graph
  {
    iset{(x, y), (y, z), (z, x)}
  }

  /** A circle of two becomes left recursion, which is removed. */
  lemma TwoDiesOut(x: Token, y: Token)
    requires x != y
    ensures DiesOut(Two(x, y))
  {
    var e := Two(x, y);
    assert Meet(e, x, y, x) && Meet(e, y, x, y);
    assert Joined(e) == iset{(x, x), (y, y)};
    assert Joined(Joined(e)) == iset{};
    assert Turns(Joined(Joined(e)), 0) == iset{};
    assert Turns(Joined(e), 1) == iset{};
    var k: nat := 2;
    assert Turns(e, k) == iset{};
  }

  lemma ThreeTurns(x: Token, y: Token, z: Token)
    requires x != y && y != z && z != x
    ensures Joined(Three(x, y, z)) == Three(x, z, y)
  {
    var e := Three(x, y, z);
    assert Meet(e, x, y, z) && Meet(e, y, z, x) && Meet(e, z, x, y);
  }

  /** A circle of three only changes its direction. */
  lemma {:induction false} ThreeStays(x: Token, y: Token, z: Token, k: nat)
    requires x != y && y != z && z != x
    ensures Turns(Three(x, y, z), k) != iset{}
    decreases k
  {
    if k == 0 {
      assert (x, y) in Three(x, y, z);
    } else {
      ThreeTurns(x, y, z);
      ThreeStays(x, z, y, k - 1);
    }
  }
}
