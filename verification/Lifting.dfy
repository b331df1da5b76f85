/** Giving terminals inside rules names of their own: the languages do not change. */
module Lifting {
  import opened Grammar

  /** Puts the terminals that `lift` names back in their places. */
  ghost function LowerToken(lift: map<Token, Token>, t: Token): Token
  {
    if t in lift then lift[t] else t
  }

  ghost function Lower(lift: map<Token, Token>, form: seq<Token>): seq<Token>
  {
    if form == [] then [] else [LowerToken(lift, form[0])] + Lower(lift, form[1..])
  }

  lemma {:induction false} LowerConcat(lift: map<Token, Token>, a: seq<Token>, b: seq<Token>)
    ensures Lower(lift, a + b) == Lower(lift, a) + Lower(lift, b)
  {
    if a == [] {
      assert a + b == b;
    } else {
      LowerConcat(lift, a[1..], b);
      assert (a + b)[1..] == a[1..] + b;
    }
  }

  /** New names stand for terminals. */
  ghost predicate LiftOk(lift: map<Token, Token>, count: nat)
  {
    forall k :: k in lift ==> k.Generated? && k.n > count && lift[k].Terminal?
  }

  lemma {:induction false} LowerKnown(lift: map<Token, Token>, form: seq<Token>, count: nat)
    requires LiftOk(lift, count) && KnownRule(form, count)
    ensures Lower(lift, form) == form
  {
    if form != [] {
      assert Known(form[0], count);
      forall i | 0 <= i < |form[1..]|
        ensures Known(form[1..][i], count)
      {
        assert form[1..][i] == form[i + 1];
      }
      LowerKnown(lift, form[1..], count);
    }
  }

  ghost predicate NamesTerminal(h: Rules, lift: map<Token, Token>, k: Token)
    requires k in lift
  {
    forall r :: HasRule(h, k, r) <==> r == [lift[k]]
  }

  ghost predicate LiftedFrom(g: Rules, h: Rules, lift: map<Token, Token>, a: Token)
  {
    (forall r :: HasRule(h, a, r) ==> HasRule(g, a, Lower(lift, r))) &&
    (forall r :: HasRule(g, a, r) ==> exists r' :: HasRule(h, a, r') && Lower(lift, r') == r)
  }

  /** `h` is `g` with some terminals inside rules replaced by new names for them. */
  ghost predicate LiftStep(g: Rules, h: Rules, lift: map<Token, Token>, count: nat)
  {
    && LiftOk(lift, count) && Bounded(g, count)
    && (forall k :: k in lift ==> NamesTerminal(h, lift, k))
    && (forall a :: a !in lift ==> LiftedFrom(g, h, lift, a))
  }

  lemma {:induction false} BackToOld(g: Rules, h: Rules, lift: map<Token, Token>, count: nat,
                                     form: seq<Token>, w: seq<Token>, s: seq<Rule>)
    returns (s': seq<Rule>)
    requires LiftStep(g, h, lift, count) && Derives(h, form, w, s)
    ensures Derives(g, Lower(lift, form), w, s')
    decreases |s|, |form|
  {
    if form == [] {
      s' := [];
    } else {
      var a, rest := form[0], form[1..];
      var lower := Lower(lift, rest);
      assert Lower(lift, form) == [LowerToken(lift, a)] + lower;
      if a.Terminal? {
        s' := BackToOld(g, h, lift, count, rest, w[1..], s);
        assert Lower(lift, form)[1..] == lower;
      } else {
        var r := s[0];
        LowerConcat(lift, r, rest);
        s' := BackToOld(g, h, lift, count, r + rest, w, s[1..]);
        if a in lift {
          assert NamesTerminal(h, lift, a);
          assert Lower(lift, r) == [lift[a]] by { assert r[1..] == []; }
        } else {
          assert LiftedFrom(g, h, lift, a);
          DerivesStep(g, a, lower, Lower(lift, r), w, s');
          s' := [Lower(lift, r)] + s';
        }
      }
    }
  }

  lemma {:induction false} ForwardToNew(g: Rules, h: Rules, lift: map<Token, Token>, count: nat,
                                        form: seq<Token>, w: seq<Token>, s: seq<Rule>)
    returns (s': seq<Rule>)
    requires LiftStep(g, h, lift, count) && Derives(g, Lower(lift, form), w, s)
    ensures Derives(h, form, w, s')
    decreases |s|, |form|
  {
    if form == [] {
      s' := [];
    } else {
      var a, rest := form[0], form[1..];
      var lower := Lower(lift, rest);
      assert Lower(lift, form) == [LowerToken(lift, a)] + lower;
      assert Lower(lift, form)[1..] == lower;
      assert form == [a] + rest;
      if LowerToken(lift, a).Terminal? {
        s' := ForwardToNew(g, h, lift, count, rest, w[1..], s);
        if a in lift {
          assert NamesTerminal(h, lift, a);
          var t := lift[a];
          assert HasRule(h, a, [t]);
          assert ([t] + rest)[1..] == rest;
          assert Derives(h, [t] + rest, w, s');
          DerivesStep(h, a, rest, [t], w, s');
          s' := [[t]] + s';
        }
      } else {
        var r := s[0];
        assert LiftedFrom(g, h, lift, a);
        var r' :| HasRule(h, a, r') && Lower(lift, r') == r;
        LowerConcat(lift, r', rest);
        s' := ForwardToNew(g, h, lift, count, r' + rest, w, s[1..]);
        DerivesStep(h, a, rest, r', w, s');
        s' := [r'] + s';
      }
    }
  }

  /** Lifting terminals changes the language of no earlier name. */
  lemma LiftingPreserves(g: Rules, h: Rules, lift: map<Token, Token>, count: nat)
    requires LiftStep(g, h, lift, count)
    ensures SameLanguage(g, h, count)
  {
    forall a, w | Known(a, count)
      ensures InLanguage(g, a, w) <==> InLanguage(h, a, w)
    {
      LowerKnown(lift, [a], count);
      if InLanguage(g, a, w) {
        var s :| Derives(g, [a], w, s);
        var s' := ForwardToNew(g, h, lift, count, [a], w, s);
      }
      if InLanguage(h, a, w) {
        var s :| Derives(h, [a], w, s);
        var s' := BackToOld(g, h, lift, count, [a], w, s);
      }
    }
  }
}
