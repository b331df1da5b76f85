/** Replacing the leading nonterminal of a rule by all its right-hand sides.  Unit removal and the
    substitution rounds of the normal form are both of this kind, and neither changes a language. */
module Substitution {
  import opened Grammar

  /** `r` is a rule of `g`, or comes from one by replacing its leading nonterminal once. */
  ghost predicate FromOld(g: Rules, a: Token, r: Rule)
  {
    HasRule(g, a, r) || exists s, d :: Substituted(g, a, s, d) && r == d + s[1..]
  }

  ghost predicate Substituted(g: Rules, a: Token, s: Rule, d: Rule)
  {
    HasRule(g, a, s) && s != [] && !s[0].Terminal? && HasRule(g, s[0], d)
  }

  /** The rule `s` of `g` is kept in `h`, or all its substitutions are there. */
  ghost predicate Covered(g: Rules, h: Rules, a: Token, s: Rule)
  {
    HasRule(h, a, s) ||
    (s != [] && !s[0].Terminal? && forall d :: HasRule(g, s[0], d) ==> HasRule(h, a, d + s[1..]))
  }

  ghost predicate Rewritten(g: Rules, h: Rules, a: Token)
  {
    (forall r :: HasRule(h, a, r) ==> FromOld(g, a, r)) &&
    (forall s :: HasRule(g, a, s) ==> Covered(g, h, a, s))
  }

  ghost predicate SubstitutionStep(g: Rules, h: Rules)
  {
    forall a :: Rewritten(g, h, a)
  }

  /** Every derivation after the step is one before it, with the substitution made in two steps. */
  lemma {:induction false} BackToOld(g: Rules, h: Rules, form: seq<Token>, w: seq<Token>, s: seq<Rule>)
    returns (s': seq<Rule>)
    requires SubstitutionStep(g, h) && Derives(h, form, w, s)
    ensures Derives(g, form, w, s')
    decreases |s|, |form|
  {
    if form == [] {
      s' := [];
    } else if form[0].Terminal? {
      s' := BackToOld(g, h, form[1..], w[1..], s);
    } else {
      var a, r, rest := form[0], s[0], form[1..];
      assert form == [a] + rest && Rewritten(g, h, a);
      s' := BackToOld(g, h, r + rest, w, s[1..]);
      if HasRule(g, a, r) {
        DerivesStep(g, a, rest, r, w, s');
        s' := [r] + s';
      } else {
        var t, d :| Substituted(g, a, t, d) && r == d + t[1..];
        assert r + rest == d + (t[1..] + rest);
        DerivesStep(g, t[0], t[1..] + rest, d, w, s');
        assert [t[0]] + (t[1..] + rest) == t + rest;
        DerivesStep(g, a, rest, t, w, [d] + s');
        s' := [t] + ([d] + s');
      }
    }
  }

  /** Every derivation before the step is one after it: a rule that was substituted is followed, in a
      leftmost derivation, by the expansion of its leading nonterminal. */
  lemma {:induction false} ForwardToNew(g: Rules, h: Rules, form: seq<Token>, w: seq<Token>, s: seq<Rule>)
    returns (s': seq<Rule>)
    requires SubstitutionStep(g, h) && Derives(g, form, w, s)
    ensures Derives(h, form, w, s')
    decreases |s|, |form|
  {
    if form == [] {
      s' := [];
    } else if form[0].Terminal? {
      s' := ForwardToNew(g, h, form[1..], w[1..], s);
    } else {
      var a, t, rest := form[0], s[0], form[1..];
      assert form == [a] + rest && Rewritten(g, h, a) && Covered(g, h, a, t);
      if HasRule(h, a, t) {
        s' := ForwardToNew(g, h, t + rest, w, s[1..]);
        DerivesStep(h, a, rest, t, w, s');
        s' := [t] + s';
      } else {
        var d, tail := s[1], t[1..] + rest;
        assert (t + rest)[1..] == tail;
        s' := ForwardToNew(g, h, d + tail, w, s[2..]);
        assert d + tail == (d + t[1..]) + rest;
        DerivesStep(h, a, rest, d + t[1..], w, s');
        s' := [d + t[1..]] + s';
      }
    }
  }

  /** A substitution step changes no language at all. */
  lemma SubstitutionPreserves(g: Rules, h: Rules, count: nat)
    requires SubstitutionStep(g, h)
    ensures SameLanguage(g, h, count)
  {
    forall a, w | Known(a, count)
      ensures InLanguage(g, a, w) <==> InLanguage(h, a, w)
    {
      if InLanguage(g, a, w) {
        var s :| Derives(g, [a], w, s);
        var s' := ForwardToNew(g, h, [a], w, s);
      }
      if InLanguage(h, a, w) {
        var s :| Derives(h, [a], w, s);
        var s' := BackToOld(g, h, [a], w, s);
      }
    }
  }

  /** A substitution step makes up no names. */
  lemma SubstitutionBounded(g: Rules, h: Rules, count: nat)
    requires SubstitutionStep(g, h) && Bounded(g, count) && forall a :: a in h ==> a in g
    ensures Bounded(h, count)
  {
    forall a, r | HasRule(h, a, r)
      ensures KnownRule(r, count)
    {
      assert Rewritten(g, h, a) && FromOld(g, a, r);
      if !HasRule(g, a, r) {
        var s, d :| Substituted(g, a, s, d) && r == d + s[1..];
        assert KnownRule(s, count) && KnownRule(d, count);
      }
    }
  }
}
