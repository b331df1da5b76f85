/** Removing immediate left recursion.  The rules `A -> A x | y` become `A -> y B`, `B -> x B | ' '`
    with a new name `B`; every left spine of a derivation turns into a right spine. */
module LeftRecursion {
  import opened Grammar

  /** The recursive and the other rules of `a` after the change, `b` being the new name. */
  ghost predicate Rotated(g: Rules, h: Rules, a: Token, b: Token)
  {
    && (forall r :: HasRule(h, a, r) ==> exists y :: Other(g, a, y) && r == y + [b])
    && (forall y :: Other(g, a, y) ==> HasRule(h, a, y + [b]))
    && (forall r :: HasRule(h, b, r) ==> r == [SPACE] || exists x :: Recursive(g, a, x) && r == x + [b])
    && (forall x :: Recursive(g, a, x) ==> HasRule(h, b, x + [b]))
    && HasRule(h, b, [SPACE])
  }

  ghost predicate Recursive(g: Rules, a: Token, x: Rule)
  {
    HasRule(g, a, [a] + x)
  }

  ghost predicate Other(g: Rules, a: Token, y: Rule)
  {
    HasRule(g, a, y) && y != [] && y[0] != a
  }

  ghost predicate Unchanged(g: Rules, h: Rules, a: Token)
  {
    forall r :: HasRule(g, a, r) <==> HasRule(h, a, r)
  }

  /** The new names: one for every name whose rules are changed. */
  ghost predicate TailsOk(tails: map<Token, Token>, count: nat)
  {
    forall a :: a in tails ==> !a.Terminal? && Known(a, count) && tails[a].Generated? && tails[a].n > count
  }

  ghost predicate NonEmptyRules(g: Rules)
  {
    forall a, r :: HasRule(g, a, r) ==> r != []
  }

  /** `h` is `g` with the left recursion of the names in `tails` removed. */
  ghost predicate RotationStep(g: Rules, h: Rules, tails: map<Token, Token>, count: nat)
  {
    && TailsOk(tails, count) && Bounded(g, count) && NonEmptyRules(g)
    && (forall a :: a in tails ==> Rotated(g, h, a, tails[a]))
    && (forall a :: Known(a, count) && a !in tails ==> Unchanged(g, h, a))
  }

  // ---------- from left spines to right spines ----------

  /** Adding one more recursive part at the end of what the new name derives. */
  lemma {:induction false} ExtendTail(g: Rules, h: Rules, a: Token, b: Token, c: seq<Token>, s: seq<Rule>,
                                      x: Rule, v: seq<Token>, t: seq<Rule>)
    returns (c': seq<Token>, s': seq<Rule>)
    requires Rotated(g, h, a, b) && !b.Terminal? && Recursive(g, a, x)
    requires Derives(h, [b], c, s) && Derives(h, x, v, t)
    ensures Derives(h, [b], c', s') && Erase(c') == Erase(c) + Erase(v)
    decreases |s|
  {
    DerivesOne(h, b, c, s);
    if s[0] == [SPACE] {
      SpaceOnly(h, c, s[1..]);
      DerivesConcat(h, x, v, t, [b], c, s);
      DerivesFromRule(h, b, x + [b], v + c, t + s);
      c', s' := v + c, [x + [b]] + (t + s);
      EraseConcat(v, c);
    } else {
      var x1 :| Recursive(g, a, x1) && s[0] == x1 + [b];
      var c1, s1, c2, s2 := DerivesSplit(h, x1, [b], c, s[1..]);
      var c3, s3 := ExtendTail(g, h, a, b, c2, s2, x, v, t);
      DerivesConcat(h, x1, c1, s1, [b], c3, s3);
      DerivesFromRule(h, b, x1 + [b], c1 + c3, s1 + s3);
      c', s' := c1 + c3, [x1 + [b]] + (s1 + s3);
      EraseConcat(c1, c2);
      EraseConcat(c1, c3);
    }
  }

  lemma SpaceOnly(h: Rules, c: seq<Token>, s: seq<Rule>)
    requires Derives(h, [SPACE], c, s)
    ensures c == [SPACE] && s == [] && Erase(c) == []
  {
    assert [SPACE][1..] == [];
    assert c == [c[0]] + c[1..];
  }

  /** Every derivation before the change is one after it, up to the empty-tail terminal. */
  lemma {:induction false} ForwardToNew(g: Rules, h: Rules, tails: map<Token, Token>, count: nat,
                                        form: seq<Token>, w: seq<Token>, s: seq<Rule>)
    returns (w': seq<Token>, s': seq<Rule>)
    requires RotationStep(g, h, tails, count) && KnownRule(form, count) && Derives(g, form, w, s)
    ensures Derives(h, form, w', s') && Erase(w') == Erase(w)
    decreases |s|, |form|, 1
  {
    if form == [] {
      w', s' := [], [];
    } else if |form| == 1 {
      assert form == [form[0]];
      assert Known(form[0], count);
      w', s' := ForwardOne(g, h, tails, count, form[0], w, s);
    } else {
      var a, rest := form[0], form[1..];
      assert form == [a] + rest && Known(a, count);
      var w1, s1, w2, s2 := DerivesSplit(g, [a], rest, w, s);
      KnownTail(form, count);
      var v1, t1 := ForwardOne(g, h, tails, count, a, w1, s1);
      var v2, t2 := ForwardToNew(g, h, tails, count, rest, w2, s2);
      DerivesConcat(h, [a], v1, t1, rest, v2, t2);
      EraseConcat(w1, w2);
      EraseConcat(v1, v2);
      w', s' := v1 + v2, t1 + t2;
    }
  }

  lemma KnownTail(form: seq<Token>, count: nat)
    requires KnownRule(form, count) && form != []
    ensures KnownRule(form[1..], count)
  {
    forall i | 0 <= i < |form[1..]|
      ensures Known(form[1..][i], count)
    {
      assert form[1..][i] == form[i + 1];
    }
  }

  lemma {:induction false} ForwardOne(g: Rules, h: Rules, tails: map<Token, Token>, count: nat,
                                      a: Token, w: seq<Token>, s: seq<Rule>)
    returns (w': seq<Token>, s': seq<Rule>)
    requires RotationStep(g, h, tails, count) && Known(a, count) && Derives(g, [a], w, s)
    ensures Derives(h, [a], w', s') && Erase(w') == Erase(w)
    decreases |s|, 1, 0
  {
    if a.Terminal? {
      assert [a][1..] == [];
      w', s' := w, s;
      DerivesTerminal(h, a);
      assert w == [w[0]] + w[1..];
    } else {
      DerivesOne(g, a, w, s);
      var r := s[0];
      assert KnownRule(r, count);
      if a !in tails {
        assert Unchanged(g, h, a);
        w', s' := ForwardToNew(g, h, tails, count, r, w, s[1..]);
        DerivesFromRule(h, a, r, w', s');
        s' := [r] + s';
      } else {
        assert Rotated(g, h, a, tails[a]);
        if r[0] == a {
          assert r == [a] + r[1..];
          KnownTail(r, count);
          var w1, s1, w2, s2 := DerivesSplit(g, [a], r[1..], w, s[1..]);
          var v1, t1 := ForwardOne(g, h, tails, count, a, w1, s1);
          var v2, t2 := ForwardToNew(g, h, tails, count, r[1..], w2, s2);
          w', s' := AppendRecursive(g, h, a, tails[a], v1, t1, r[1..], v2, t2);
          EraseConcat(w1, w2);
        } else {
          var v, t := ForwardToNew(g, h, tails, count, r, w, s[1..]);
          w', s' := CloseTail(g, h, a, tails[a], r, v, t);
        }
      }
    }
  }

  /** A non-recursive rule, with an empty tail. */
  lemma CloseTail(g: Rules, h: Rules, a: Token, b: Token, y: Rule, v: seq<Token>, t: seq<Rule>)
    returns (w: seq<Token>, s: seq<Rule>)
    requires Rotated(g, h, a, b) && !a.Terminal? && !b.Terminal? && Other(g, a, y) && Derives(h, y, v, t)
    ensures Derives(h, [a], w, s) && Erase(w) == Erase(v)
  {
    DerivesTerminal(h, SPACE);
    DerivesFromRule(h, b, [SPACE], [SPACE], []);
    DerivesConcat(h, y, v, t, [b], [SPACE], [[SPACE]] + []);
    w, s := v + [SPACE], t + ([[SPACE]] + []);
    DerivesFromRule(h, a, y + [b], w, s);
    s := [y + [b]] + s;
    EraseConcat(v, [SPACE]);
    assert Erase([SPACE]) == [] by { assert [SPACE][1..] == []; }
  }

  /** A derivation from `a` after the change takes one more recursive part at its end. */
  lemma AppendRecursive(g: Rules, h: Rules, a: Token, b: Token, w: seq<Token>, s: seq<Rule>, x: Rule, v: seq<Token>, t: seq<Rule>)
    returns (w': seq<Token>, s': seq<Rule>)
    requires Rotated(g, h, a, b) && !a.Terminal? && !b.Terminal? && Recursive(g, a, x)
    requires Derives(h, [a], w, s) && Derives(h, x, v, t)
    ensures Derives(h, [a], w', s') && Erase(w') == Erase(w) + Erase(v)
  {
    DerivesOne(h, a, w, s);
    var y :| Other(g, a, y) && s[0] == y + [b];
    var w1, s1, w2, s2 := DerivesSplit(h, y, [b], w, s[1..]);
    var c, s3 := ExtendTail(g, h, a, b, w2, s2, x, v, t);
    DerivesConcat(h, y, w1, s1, [b], c, s3);
    DerivesFromRule(h, a, y + [b], w1 + c, s1 + s3);
    w', s' := w1 + c, [y + [b]] + (s1 + s3);
    EraseConcat(w1, w2);
    EraseConcat(w1, c);
  }

  // ---------- from right spines to left spines ----------

  lemma RecursiveKnown(g: Rules, a: Token, x: Rule, count: nat)
    requires Bounded(g, count) && Recursive(g, a, x)
    ensures KnownRule(x, count)
  {
    assert KnownRule([a] + x, count);
    KnownTail([a] + x, count);
    assert ([a] + x)[1..] == x;
  }

  /** Every derivation after the change is one before it, up to the empty-tail terminal. */
  lemma {:induction false} BackToOld(g: Rules, h: Rules, tails: map<Token, Token>, count: nat,
                                     form: seq<Token>, w: seq<Token>, s: seq<Rule>)
    returns (w': seq<Token>, s': seq<Rule>)
    requires RotationStep(g, h, tails, count) && KnownRule(form, count) && Derives(h, form, w, s)
    ensures Derives(g, form, w', s') && Erase(w') == Erase(w)
    decreases |s|, |form|, 1
  {
    if form == [] {
      w', s' := [], [];
    } else if |form| == 1 {
      assert form == [form[0]];
      assert Known(form[0], count);
      w', s' := BackOne(g, h, tails, count, form[0], w, s);
    } else {
      var a, rest := form[0], form[1..];
      assert form == [a] + rest && Known(a, count);
      var w1, s1, w2, s2 := DerivesSplit(h, [a], rest, w, s);
      KnownTail(form, count);
      var v1, t1 := BackOne(g, h, tails, count, a, w1, s1);
      var v2, t2 := BackToOld(g, h, tails, count, rest, w2, s2);
      DerivesConcat(g, [a], v1, t1, rest, v2, t2);
      EraseConcat(w1, w2);
      EraseConcat(v1, v2);
      w', s' := v1 + v2, t1 + t2;
    }
  }

  lemma {:induction false} BackOne(g: Rules, h: Rules, tails: map<Token, Token>, count: nat,
                                   a: Token, w: seq<Token>, s: seq<Rule>)
    returns (w': seq<Token>, s': seq<Rule>)
    requires RotationStep(g, h, tails, count) && Known(a, count) && Derives(h, [a], w, s)
    ensures Derives(g, [a], w', s') && Erase(w') == Erase(w)
    decreases |s|, 1, 0
  {
    if a.Terminal? {
      assert [a][1..] == [];
      w', s' := w, s;
      DerivesTerminal(g, a);
      assert w == [w[0]] + w[1..];
    } else {
      DerivesOne(h, a, w, s);
      if a !in tails {
        assert Unchanged(g, h, a);
        assert KnownRule(s[0], count);
        w', s' := BackToOld(g, h, tails, count, s[0], w, s[1..]);
        DerivesFromRule(g, a, s[0], w', s');
        s' := [s[0]] + s';
      } else {
        var b := tails[a];
        assert Rotated(g, h, a, b);
        var y :| Other(g, a, y) && s[0] == y + [b];
        assert KnownRule(y, count);
        var w1, s1, w2, s2 := DerivesSplit(h, y, [b], w, s[1..]);
        var v, t := BackToOld(g, h, tails, count, y, w1, s1);
        DerivesFromRule(g, a, y, v, t);
        w', s' := UnwindTail(g, h, tails, count, a, v, [y] + t, w2, s2);
        EraseConcat(w1, w2);
      }
    }
  }

  /** The parts that the new name derives are put back one by one at the end of a left spine. */
  lemma {:induction false} UnwindTail(g: Rules, h: Rules, tails: map<Token, Token>, count: nat,
                                      a: Token, u: seq<Token>, t: seq<Rule>, c: seq<Token>, s: seq<Rule>)
    returns (w: seq<Token>, s': seq<Rule>)
    requires RotationStep(g, h, tails, count) && a in tails
    requires Derives(g, [a], u, t) && Derives(h, [tails[a]], c, s)
    ensures Derives(g, [a], w, s') && Erase(w) == Erase(u) + Erase(c)
    decreases |s|, 1, 0
  {
    hide Derives, Erase;
    var b := tails[a];
    assert Rotated(g, h, a, b);
    DerivesOne(h, b, c, s);
    if s[0] == [SPACE] {
      SpaceOnly(h, c, s[1..]);
      w, s' := u, t;
    } else {
      var x :| Recursive(g, a, x) && s[0] == x + [b];
      RecursiveKnown(g, a, x, count);
      var c1, s1, c2, s2 := DerivesSplit(h, x, [b], c, s[1..]);
      var v, r := BackToOld(g, h, tails, count, x, c1, s1);
      DerivesConcat(g, [a], u, t, x, v, r);
      DerivesFromRule(g, a, [a] + x, u + v, t + r);
      w, s' := UnwindTail(g, h, tails, count, a, u + v, [[a] + x] + (t + r), c2, s2);
      EraseConcat(u, v);
      EraseConcat(c1, c2);
    }
  }

  // ---------- main result ----------

  /** Removing left recursion keeps the language of every earlier name, up to the empty-tail terminal. */
  lemma RotationPreserves(g: Rules, h: Rules, tails: map<Token, Token>, count: nat)
    requires RotationStep(g, h, tails, count)
    ensures SameUpToSpace(g, h, count)
  {
    hide RotationStep;
    forall a | Known(a, count)
      ensures Includes(h, g, a) && Includes(g, h, a)
    {
      forall w | InLanguage(g, a, w)
        ensures exists w' :: InLanguage(h, a, w') && Erase(w') == Erase(w)
      {
        var s :| Derives(g, [a], w, s);
        var w', s' := ForwardOne(g, h, tails, count, a, w, s);
        assert InLanguage(h, a, w');
      }
      forall w | InLanguage(h, a, w)
        ensures exists w' :: InLanguage(g, a, w') && Erase(w') == Erase(w)
      {
        var s :| Derives(h, [a], w, s);
        var w', s' := BackOne(g, h, tails, count, a, w, s);
        assert InLanguage(g, a, w');
      }
    }
  }
}
