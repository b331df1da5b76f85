/** Context-free grammars over tokens, leftmost derivations, and the languages they define. */
module Grammar {

  /** A token of a rule: a quoted terminal, a name from the input grammar, or a name made up by the
      converter.  Terminals carry the text between the quotes. */
  datatype Token = Terminal(text: string) | Named(name: string) | Generated(n: nat)

  type Rule = seq<Token>
  type Rules = map<Token, seq<Rule>>

  /** The terminal that stands for the empty tail of a removed left recursion. */
  const SPACE: Token := Terminal(" ")

  ghost predicate HasRule(g: Rules, a: Token, r: Rule)
  {
    a in g && r in g[a]
  }

  // ---------- derivations ----------

  /** `form` derives the terminal string `w` by expanding the leftmost nonterminal again and again,
      choosing the right-hand sides `steps` in turn. */
  ghost predicate Derives(g: Rules, form: seq<Token>, w: seq<Token>, steps: seq<Rule>)
    decreases |steps|, |form|
  {
    if form == [] then w == [] && steps == []
    else if form[0].Terminal? then w != [] && w[0] == form[0] && Derives(g, form[1..], w[1..], steps)
    else steps != [] && HasRule(g, form[0], steps[0]) && Derives(g, steps[0] + form[1..], w, steps[1..])
  }

  ghost predicate InLanguage(g: Rules, a: Token, w: seq<Token>)
  {
    exists steps :: Derives(g, [a], w, steps)
  }

  lemma {:induction false} DerivesConcat(g: Rules, a: seq<Token>, w1: seq<Token>, s1: seq<Rule>,
                                         b: seq<Token>, w2: seq<Token>, s2: seq<Rule>)
    requires Derives(g, a, w1, s1) && Derives(g, b, w2, s2)
    ensures Derives(g, a + b, w1 + w2, s1 + s2)
    decreases |s1|, |a|
  {
    if a == [] {
      assert a + b == b && w1 + w2 == w2 && s1 + s2 == s2;
    } else if a[0].Terminal? {
      DerivesConcat(g, a[1..], w1[1..], s1, b, w2, s2);
      assert (a + b)[1..] == a[1..] + b && (w1 + w2)[1..] == w1[1..] + w2;
    } else {
      DerivesConcat(g, s1[0] + a[1..], w1, s1[1..], b, w2, s2);
      assert (s1[0] + a[1..]) + b == s1[0] + (a + b)[1..];
      assert (s1 + s2)[1..] == s1[1..] + s2;
    }
  }

  lemma {:induction false} DerivesSplit(g: Rules, a: seq<Token>, b: seq<Token>, w: seq<Token>, s: seq<Rule>)
    returns (w1: seq<Token>, s1: seq<Rule>, w2: seq<Token>, s2: seq<Rule>)
    requires Derives(g, a + b, w, s)
    ensures w == w1 + w2 && s == s1 + s2
    ensures Derives(g, a, w1, s1) && Derives(g, b, w2, s2)
    decreases |s|, |a|
  {
    if a == [] {
      assert a + b == b;
      w1, s1, w2, s2 := [], [], w, s;
    } else if a[0].Terminal? {
      assert (a + b)[1..] == a[1..] + b;
      w1, s1, w2, s2 := DerivesSplit(g, a[1..], b, w[1..], s);
      w1 := [w[0]] + w1;
    } else {
      assert s[0] + (a + b)[1..] == (s[0] + a[1..]) + b;
      w1, s1, w2, s2 := DerivesSplit(g, s[0] + a[1..], b, w, s[1..]);
      assert ([s[0]] + s1)[1..] == s1;
      s1 := [s[0]] + s1;
    }
  }

  /** One leftmost step at a nonterminal. */
  lemma DerivesStep(g: Rules, a: Token, rest: seq<Token>, r: Rule, w: seq<Token>, s: seq<Rule>)
    requires !a.Terminal? && HasRule(g, a, r) && Derives(g, r + rest, w, s)
    ensures Derives(g, [a] + rest, w, [r] + s)
  {
    assert ([a] + rest)[1..] == rest && ([r] + s)[1..] == s;
  }

  /** A single nonterminal derives what one of its rules derives. */
  lemma DerivesOne(g: Rules, a: Token, w: seq<Token>, s: seq<Rule>)
    requires !a.Terminal? && Derives(g, [a], w, s)
    ensures s != [] && HasRule(g, a, s[0]) && Derives(g, s[0], w, s[1..])
  {
    assert s[0] + [a][1..] == s[0];
  }

  lemma DerivesFromRule(g: Rules, a: Token, r: Rule, w: seq<Token>, s: seq<Rule>)
    requires !a.Terminal? && HasRule(g, a, r) && Derives(g, r, w, s)
    ensures Derives(g, [a], w, [r] + s)
  {
    assert r + [] == r && [a] + [] == [a];
    DerivesStep(g, a, [], r, w, s);
  }

  lemma DerivesTerminal(g: Rules, t: Token)
    requires t.Terminal?
    ensures Derives(g, [t], [t], [])
  {
    assert [t][1..] == [];
  }

  lemma {:induction false} DerivedWordIsTerminal(g: Rules, form: seq<Token>, w: seq<Token>, s: seq<Rule>)
    requires Derives(g, form, w, s)
    ensures forall i :: 0 <= i < |w| ==> w[i].Terminal?
    decreases |s|, |form|
  {
    if form != [] {
      if form[0].Terminal? {
        DerivedWordIsTerminal(g, form[1..], w[1..], s);
        assert w == [w[0]] + w[1..];
      } else {
        DerivedWordIsTerminal(g, s[0] + form[1..], w, s[1..]);
      }
    }
  }

  // ---------- which names a grammar uses ----------

  ghost predicate Known(t: Token, count: nat)
  {
    t.Generated? ==> t.n <= count
  }

  ghost predicate KnownRule(r: Rule, count: nat)
  {
    forall i :: 0 <= i < |r| ==> Known(r[i], count)
  }

  /** No name made up after the first `count` occurs in the grammar. */
  ghost predicate Bounded(g: Rules, count: nat)
  {
    (forall a :: a in g ==> Known(a, count)) &&
    (forall a, r :: HasRule(g, a, r) ==> KnownRule(r, count))
  }

  // ---------- the same language up to the empty-tail terminal ----------

  ghost function Erase(w: seq<Token>): seq<Token>
  {
    if w == [] then [] else (if w[0] == SPACE then [] else [w[0]]) + Erase(w[1..])
  }

  lemma {:induction false} EraseConcat(a: seq<Token>, b: seq<Token>)
    ensures Erase(a + b) == Erase(a) + Erase(b)
  {
    if a == [] {
      assert a + b == b;
    } else {
      EraseConcat(a[1..], b);
      assert (a + b)[1..] == a[1..] + b;
    }
  }

  /** Whatever `g` derives from `a`, `h` derives up to the empty-tail terminal. */
  ghost predicate Includes(h: Rules, g: Rules, a: Token)
  {
    forall w :: InLanguage(g, a, w) ==> exists w' :: InLanguage(h, a, w') && Erase(w') == Erase(w)
  }

  /** `g` and `h` define the same language for every name known at `count`, up to the empty-tail terminal. */
  ghost predicate SameUpToSpace(g: Rules, h: Rules, count: nat)
  {
    forall a {:trigger Includes(h, g, a)} {:trigger Includes(g, h, a)} ::
      Known(a, count) ==> Includes(h, g, a) && Includes(g, h, a)
  }

  /** `g` and `h` define exactly the same language for every name known at `count`. */
  ghost predicate SameLanguage(g: Rules, h: Rules, count: nat)
  {
    forall a, w {:trigger InLanguage(g, a, w)} {:trigger InLanguage(h, a, w)} ::
      Known(a, count) ==> (InLanguage(g, a, w) <==> InLanguage(h, a, w))
  }

  lemma SameLanguageIsUpToSpace(g: Rules, h: Rules, count: nat)
    requires SameLanguage(g, h, count)
    ensures SameUpToSpace(g, h, count)
  {
    hide InLanguage;
    forall a | Known(a, count)
      ensures Includes(h, g, a) && Includes(g, h, a)
    {
    }
  }

  lemma UpToSpaceTransitive(f: Rules, g: Rules, h: Rules, count: nat, later: nat)
    requires count <= later
    requires SameUpToSpace(f, g, count) && SameUpToSpace(g, h, later)
    ensures SameUpToSpace(f, h, count)
  {
    forall a | Known(a, count)
      ensures Includes(h, f, a) && Includes(f, h, a)
    {
      assert Includes(g, f, a) && Includes(h, g, a);
      IncludesTransitive(f, g, h, a);
      assert Includes(f, g, a) && Includes(g, h, a);
      IncludesTransitive(h, g, f, a);
    }
  }

  lemma IncludesTransitive(f: Rules, g: Rules, h: Rules, a: Token)
    requires Includes(g, f, a) && Includes(h, g, a)
    ensures Includes(h, f, a)
  {
    hide InLanguage, Erase;
    forall w | InLanguage(f, a, w)
      ensures exists w' :: InLanguage(h, a, w') && Erase(w') == Erase(w)
    {
      var v :| InLanguage(g, a, v) && Erase(v) == Erase(w);
    }
  }

  lemma SameLanguageTransitive(f: Rules, g: Rules, h: Rules, count: nat)
    requires SameLanguage(f, g, count) && SameLanguage(g, h, count)
    ensures SameLanguage(f, h, count)
  {
    hide InLanguage;
    forall a, w | Known(a, count)
      ensures InLanguage(f, a, w) <==> InLanguage(h, a, w)
    {
      assert InLanguage(f, a, w) <==> InLanguage(g, a, w);
    }
  }

  // ---------- names that do not occur ----------

  ghost predicate Avoids(g: Rules, x: Token)
  {
    x !in g && forall a, r :: HasRule(g, a, r) ==> x !in r
  }

  /** `h` uses no name from the input that `g` does not use. */
  ghost predicate NoNewNames(g: Rules, h: Rules)
  {
    forall x: Token :: x.Named? && Avoids(g, x) ==> Avoids(h, x)
  }

  lemma NoNewNamesTransitive(f: Rules, g: Rules, h: Rules)
    requires NoNewNames(f, g) && NoNewNames(g, h)
    ensures NoNewNames(f, h)
  {
    hide Avoids;
  }

  /** Rules for an unused name change no derivation that does not start from it. */
  lemma {:induction false} UnusedName(g: Rules, x: Token, list: seq<Rule>, form: seq<Token>, w: seq<Token>, s: seq<Rule>)
    requires Avoids(g, x) && x !in form
    ensures Derives(g[x := list], form, w, s) <==> Derives(g, form, w, s)
    decreases |s|, |form|
  {
    var h := g[x := list];
    if form != [] {
      var a, rest := form[0], form[1..];
      assert a in form;
      assert forall t :: t in rest ==> t in form;
      if a.Terminal? {
        if w != [] { UnusedName(g, x, list, rest, w[1..], s); }
      } else if s != [] {
        assert HasRule(h, a, s[0]) <==> HasRule(g, a, s[0]);
        if HasRule(g, a, s[0]) { UnusedName(g, x, list, s[0] + rest, w, s[1..]); }
      }
    }
  }

  /** Adding a start name changes no other language, and the start name stands for the start symbol. */
  lemma AddStart(g: Rules, x: Token, start: Token)
    requires Avoids(g, x) && x.Named? && start != x
    ensures forall a, w {:trigger InLanguage(g, a, w)} :: a != x ==> (InLanguage(g[x := [[start]]], a, w) <==> InLanguage(g, a, w))
    ensures forall w :: InLanguage(g[x := [[start]]], x, w) <==> InLanguage(g, start, w)
  {
    var h := g[x := [[start]]];
    forall a, w | a != x
      ensures InLanguage(h, a, w) <==> InLanguage(g, a, w)
    {
      OtherName(g, x, [[start]], a, w);
    }
    forall w
      ensures InLanguage(h, x, w) <==> InLanguage(h, start, w)
    {
      if InLanguage(h, x, w) {
        var s :| Derives(h, [x], w, s);
        DerivesOne(h, x, w, s);
        assert Derives(h, [start], w, s[1..]);
      }
      if InLanguage(h, start, w) {
        var s :| Derives(h, [start], w, s);
        assert HasRule(h, x, [start]);
        DerivesFromRule(h, x, [start], w, s);
      }
    }
  }

  lemma OtherName(g: Rules, x: Token, list: seq<Rule>, a: Token, w: seq<Token>)
    requires Avoids(g, x) && a != x
    ensures InLanguage(g[x := list], a, w) <==> InLanguage(g, a, w)
  {
    hide Avoids, Derives;
    if InLanguage(g, a, w) {
      var s :| Derives(g, [a], w, s);
      UnusedName(g, x, list, [a], w, s);
    }
    if InLanguage(g[x := list], a, w) {
      var s :| Derives(g[x := list], [a], w, s);
      UnusedName(g, x, list, [a], w, s);
    }
  }
}
