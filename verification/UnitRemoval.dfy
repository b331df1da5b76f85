/** When the removal of unit rules ends.  Each round turns two steps along unit rules into one, so the
    rounds end if and only if no chain of unit rules is endless, and they raise an exception if and only
    if a chain meets a name without rules. */
module UnitRemoval {
  import opened Bits
  import opened Conversion
  import opened Grammar
  import opened Rounds
  import opened Wrappers

  lemma UnitLink(g: Rules, a: Token, b: Token)
    requires Link(UnitRules, g, a, b)
    ensures HasRule(g, a, [b]) && !NoUnit(g)
  {
    var r: Rule :| HasRule(g, a, r) && Replaced(UnitRules, r) && r[0] == b;
    assert |r| == 1;
    assert r == [r[0]];
  }

  lemma UnitsNone(g: Rules)
    ensures NoUnit(g) <==> forall a, b :: !Link(UnitRules, g, a, b)
  {
    hide Link;
    if a, b :| Link(UnitRules, g, a, b) {
      UnitLink(g, a, b);
    } else {
      forall a, r: Rule | HasRule(g, a, r)
        ensures !UnitRule(r)
      {
        if UnitRule(r) { LinkOf(UnitRules, g, a, r); }
      }
    }
  }

  // ---------- when an exception is raised ----------

  /** The names of unit rules have rule lists, and at the end of a chain of two the list is not empty. */
  ghost predicate NamesHaveRules(g: Rules)
  {
    && (forall a, b :: Link(UnitRules, g, a, b) ==> b in g)
    && (forall a, b, c :: Chain(UnitRules, g, a, b, c) ==> c in g && g[c] != [])
  }

  lemma ChainEnd(g: Rules, a: Token, b: Token, c: Token)
    requires NamesHaveRules(g) && Chain(UnitRules, g, a, b, c)
    ensures c in g && g[c] != []
  {
  }

  lemma NothingMissing(g: Rules)
    requires NamesHaveRules(g)
    ensures forall a, b :: !Missing(UnitRules, g, a, b)
  {
  }

  lemma KeepRules(g: Rules, h: Rules)
    requires NamesHaveRules(g) && Flattened(UnitRules, g, h)
    ensures NamesHaveRules(h)
  {
    hide Flat, Link, NamesHaveRules, Flattened;
    forall a, c | Link(UnitRules, h, a, c)
      ensures c in h && h[c] != []
    {
      LinksAfter(UnitRules, g, h, a, c);
      var b :| Chain(UnitRules, g, a, b, c);
      EndKeepsRules(g, h, a, b, c);
    }
    AllTargets(h);
  }

  lemma AllTargets(h: Rules)
    requires forall a, c :: Link(UnitRules, h, a, c) ==> c in h && h[c] != []
    ensures NamesHaveRules(h)
  {
    hide Link;
  }

  lemma EmptyReplacement(g: Rules, s: Rule)
    requires Replacement(UnitRules, g, s) == Some([])
    ensures UnitRule(s) && s[0] in g && g[s[0]] == []
  {
  }

  lemma EndKeepsRules(g: Rules, h: Rules, a: Token, b: Token, c: Token)
    requires NamesHaveRules(g) && Flattened(UnitRules, g, h) && Chain(UnitRules, g, a, b, c)
    ensures c in h && h[c] != []
  {
    hide Flat, NamesHaveRules;
    ChainEnd(g, a, b, c);
    if h[c] == [] {
      FlatEmpty(UnitRules, g, g[c]);
      var s := g[c][0];
      assert s in g[c];
      EmptyReplacement(g, s);
      LinkOf(UnitRules, g, c, s);
      ChainEnd(g, b, c, s[0]);
    }
  }

  lemma {:induction false} NeverRaised(d: Dict, rounds: nat)
    requires d.Ok() && NamesHaveRules(d.rules)
    ensures UnitFree(d, rounds) != Raised
    decreases rounds
  {
    hide Round, NamesHaveRules, Flattened;
    if rounds > 0 {
      NothingMissing(d.rules);
      RoundStops(UnitRules, d);
      RoundIs(UnitRules, d);
      var m := Round(UnitRules, d).value;
      KeepRules(d.rules, m.rules);
      NeverRaised(m, rounds - 1);
    }
  }

  /** A chain that ends in an empty list leaves a unit rule whose name is gone. */
  lemma LostName(d: Dict, m: Dict, a: Token, b: Token, c: Token)
    requires d.Ok() && m.Ok() && Flattened(UnitRules, d.rules, m.rules)
    requires Chain(UnitRules, d.rules, a, b, c) && c in d.rules && d.rules[c] == []
    ensures !NoUnit(m.rules) && Round(UnitRules, m).None?
  {
    hide Round, NoUnit, Link;
    LinksAfter(UnitRules, d.rules, m.rules, a, c);
    assert c !in m.rules;
    assert Missing(UnitRules, m.rules, a, c);
    RoundStops(UnitRules, m);
    UnitsNone(m.rules);
  }

  lemma MissingOrEmpty(g: Rules)
    requires !NamesHaveRules(g) && forall a, b :: !Missing(UnitRules, g, a, b)
    ensures exists a, b, c :: Chain(UnitRules, g, a, b, c) && c in g && g[c] == []
  {
    hide Link;
    assert forall a, b :: Link(UnitRules, g, a, b) ==> b in g by {
      forall a, b | Link(UnitRules, g, a, b)
        ensures b in g
      {
        assert !Missing(UnitRules, g, a, b);
      }
    }
    var a, b, c :| Chain(UnitRules, g, a, b, c) && !(c in g && g[c] != []);
    assert Link(UnitRules, g, b, c);
  }

  /** Unit removal raises an exception if and only if a unit rule names something without a rule list or
      two unit rules lead to an empty one. */
  lemma UnitRemovalRaises(d: Dict, rounds: nat)
    requires d.Ok() && rounds >= 2
    ensures UnitFree(d, rounds) == Raised <==> !NamesHaveRules(d.rules)
  {
    hide Round, NamesHaveRules, Flattened, Chain, NoUnit;
    if NamesHaveRules(d.rules) {
      NeverRaised(d, rounds);
    } else {
      RoundStops(UnitRules, d);
      if Round(UnitRules, d).Some? {
        RoundIs(UnitRules, d);
        MissingOrEmpty(d.rules);
        var m := Round(UnitRules, d).value;
        var a, b, c :| Chain(UnitRules, d.rules, a, b, c) && c in d.rules && d.rules[c] == [];
        LostName(d, m, a, b, c);
        assert UnitFree(m, rounds - 1) == Raised;
      }
    }
  }

  // ---------- when the rounds end ----------

  /** The ranks halve with every round. */
  lemma {:induction false} RoundsSuffice(d: Dict, rank: map<Token, nat>, rounds: nat)
    requires d.Ok() && NamesHaveRules(d.rules) && rounds >= 1
    requires Ranked(UnitRules, d.rules, rank) && RankBelow(UnitRules, d.rules, rank, Pow2(rounds))
    ensures UnitFree(d, rounds).Converted?
    decreases rounds
  {
    hide Round, NamesHaveRules, Flattened, Ranked, RankBelow, NoUnit;
    NothingMissing(d.rules);
    RoundStops(UnitRules, d);
    RoundIs(UnitRules, d);
    var m := Round(UnitRules, d).value;
    KeepRules(d.rules, m.rules);
    HalvedRanks(UnitRules, d.rules, m.rules, rank, Pow2(rounds - 1));
    UnitsNone(m.rules);
    if rounds > 1 { RoundsSuffice(m, Halved(rank), rounds - 1); }
  }

  lemma EnoughRounds(d: Dict, rank: map<Token, nat>) returns (rounds: nat)
    requires d.Ok() && NamesHaveRules(d.rules) && Ranked(UnitRules, d.rules, rank)
    ensures UnitFree(d, rounds).Converted?
  {
    hide NamesHaveRules, UnitFree, Ranked;
    var top := Highest(d.rules.Keys, rank);
    rounds := top + 1;
    BelowPow2(rounds);
    assert RankBelow(UnitRules, d.rules, rank, Pow2(rounds));
    RoundsSuffice(d, rank, rounds);
  }

  lemma {:induction false} RanksFound(d: Dict, rounds: nat) returns (rank: map<Token, nat>)
    requires d.Ok() && NamesHaveRules(d.rules) && UnitFree(d, rounds).Converted?
    ensures Ranked(UnitRules, d.rules, rank)
    decreases rounds
  {
    hide Round, NamesHaveRules, Flattened, Ranked, NoUnit;
    RoundIs(UnitRules, d);
    var m := Round(UnitRules, d).value;
    KeepRules(d.rules, m.rules);
    if NoUnit(m.rules) {
      rank := map[];
      NoneRanked(m.rules);
    } else {
      rank := RanksFound(m, rounds - 1);
    }
    NothingMissing(d.rules);
    RanksBefore(UnitRules, d.rules, m.rules, rank);
    rank := Lengthened(UnitRules, d.rules, rank);
  }

  lemma NoneRanked(g: Rules)
    requires NoUnit(g)
    ensures Ranked(UnitRules, g, map[])
  {
    hide NoUnit, Link;
    UnitsNone(g);
  }

  lemma {:induction false} StaysConverted(d: Dict, rounds: nat)
    requires d.Ok() && UnitFree(d, rounds).Converted?
    ensures UnitFree(d, rounds + 1) == UnitFree(d, rounds)
    decreases rounds
  {
    hide Round, NoUnit;
    var m := Round(UnitRules, d).value;
    if !NoUnit(m.rules) { StaysConverted(m, rounds - 1); }
  }

  /** Unit removal returns a grammar if and only if the names in unit rules have rules and no chain of
      unit rules is endless. */
  lemma UnitRemovalEnds(d: Dict)
    requires d.Ok()
    ensures (exists rounds: nat :: UnitFree(d, rounds).Converted?) <==>
            NamesHaveRules(d.rules) && exists rank :: Ranked(UnitRules, d.rules, rank)
  {
    hide NamesHaveRules, Ranked, UnitFree;
    if NamesHaveRules(d.rules) && exists rank :: Ranked(UnitRules, d.rules, rank) {
      var rank :| Ranked(UnitRules, d.rules, rank);
      var rounds := EnoughRounds(d, rank);
    }
    if rounds: nat :| UnitFree(d, rounds).Converted? {
      NeedsRounds(d, rounds);
      StaysConverted(d, rounds);
      UnitRemovalRaises(d, rounds + 1);
      var rank := RanksFound(d, rounds);
    }
  }

  lemma NeedsRounds(d: Dict, rounds: nat)
    requires d.Ok() && UnitFree(d, rounds).Converted?
    ensures rounds >= 1
  {
  }

  /** A name that is its own unit rule keeps the rounds going for ever. */
  lemma {:induction false} SelfUnit(a: Token, rounds: nat)
    requires !a.Terminal?
    ensures Dict([a], map[a := [[a]]]).Ok()
    ensures UnitFree(Dict([a], map[a := [[a]]]), rounds) == Unfinished
    decreases rounds
  {
    hide Round, NoUnit;
    var d := Dict([a], map[a := [[a]]]);
    if rounds > 0 {
      SelfRound(a);
      SelfUnit(a, rounds - 1);
    }
  }

  lemma SelfRound(a: Token)
    requires !a.Terminal?
    ensures var d := Dict([a], map[a := [[a]]]);
            d.Ok() && Round(UnitRules, d) == Some(d) && !NoUnit(d.rules)
  {
    var d := Dict([a], map[a := [[a]]]);
    assert HasRule(d.rules, a, [a]) && UnitRule([a]);
    assert d.rules[a][0] == [a];
    assert Replacement(UnitRules, d.rules, d.rules[d.keys[0]][0]) == Some([[a]]);
    assert EMPTY.Extend(a, [[a]]) == d;
    var n: nat := |d.keys|;
    assert RoundTo(UnitRules, d, n - 1, 0) == Some(EMPTY);
    assert RoundTo(UnitRules, d, n - 1, n) == ExtendBy(EMPTY, a, Some([[a]]));
    assert RoundTo(UnitRules, d, n, 0) == RoundTo(UnitRules, d, n - 1, n);
  }
}
