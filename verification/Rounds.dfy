/** What a round of the converter makes of every list of rules, for both kinds of rounds. */
module Rounds {
  import opened Bits
  import opened Conversion
  import opened Grammar
  import opened Wrappers

  /** The rules that take the places of those in `list`. */
  ghost function Flat(kind: Kind, g: Rules, list: seq<Rule>): Option<seq<Rule>>
    decreases |list|
  {
    if list == [] then Some([])
    else Joined(Flat(kind, g, list[..|list| - 1]), Replacement(kind, g, list[|list| - 1]))
  }

  ghost function Joined(a: Option<seq<Rule>>, b: Option<seq<Rule>>): Option<seq<Rule>>
  {
    if a.Some? && b.Some? then Some(a.value + b.value) else None
  }

  lemma FlatNext(kind: Kind, g: Rules, list: seq<Rule>, j: nat)
    requires j < |list|
    ensures Flat(kind, g, list[..j + 1]) == Joined(Flat(kind, g, list[..j]), Replacement(kind, g, list[j]))
  {
    hide Replacement;
    assert list[..j + 1][..j] == list[..j];
  }

  /** The new rules of `k` when its first `j` rules have been replaced; a name without rules is lost. */
  ghost predicate KeyAt(kind: Kind, d: Dict, m: Rules, k: Token, j: nat)
  {
    && k in d.rules && j <= |d.rules[k]|
    && (k in m <==> j > 0)
    && (j > 0 ==> Flat(kind, d.rules, d.rules[k][..j]) == Some(m[k]))
  }

  /** How many rules of name `i` have been replaced. */
  ghost function DoneAt(d: Dict, n: nat, j: nat, i: nat): nat
    requires d.Ok() && i < |d.keys|
  {
    if i < n then |d.rules[d.keys[i]]| else if i == n then j else 0
  }

  ghost predicate Begun(kind: Kind, d: Dict, m: Rules, n: nat, j: nat)
  {
    && d.Ok() && (forall k :: k in m ==> k in d.rules)
    && forall i: nat :: i < |d.keys| ==> KeyAt(kind, d, m, d.keys[i], DoneAt(d, n, j, i))
  }

  lemma {:induction false} RoundToIs(kind: Kind, d: Dict, n: nat, j: nat)
    requires d.Ok() && n <= |d.keys| && j <= (if n < |d.keys| then |d.rules[d.keys[n]]| else 0)
    requires RoundTo(kind, d, n, j).Some?
    ensures Begun(kind, d, RoundTo(kind, d, n, j).value.rules, n, j)
    decreases n, j
  {
    hide Replacement, KeyAt, Flat, RoundTo, Begun;
    if j > 0 {
      if RoundTo(kind, d, n, j - 1).None? { NoneBefore(kind, d, n, j); }
      RoundNext(kind, d, n, j - 1);
      RoundToIs(kind, d, n, j - 1);
      RoundStep(kind, d, RoundTo(kind, d, n, j - 1).value, n, j - 1);
    } else if n > 0 {
      var list := d.rules[d.keys[n - 1]];
      RoundName(kind, d, n - 1);
      RoundToIs(kind, d, n - 1, |list|);
      SameProgress(kind, d, RoundTo(kind, d, n - 1, |list|).value.rules, n - 1);
    } else {
      RoundStart(kind, d);
      NoneBegun(kind, d);
    }
  }

  lemma NoneBefore(kind: Kind, d: Dict, n: nat, j: nat)
    requires d.Ok() && n < |d.keys| && 0 < j <= |d.rules[d.keys[n]]| && RoundTo(kind, d, n, j - 1).None?
    ensures RoundTo(kind, d, n, j).None?
  {
    hide Replacement;
  }

  lemma NoneBegun(kind: Kind, d: Dict)
    requires d.Ok()
    ensures Begun(kind, d, EMPTY.rules, 0, 0)
  {
  }

  lemma SameProgress(kind: Kind, d: Dict, m: Rules, n: nat)
    requires d.Ok() && n < |d.keys| && Begun(kind, d, m, n, |d.rules[d.keys[n]]|)
    ensures Begun(kind, d, m, n + 1, 0)
  {
    hide KeyAt;
    var next: nat := n + 1;
    forall i: nat | i < |d.keys|
      ensures KeyAt(kind, d, m, d.keys[i], DoneAt(d, next, 0, i))
    {
      assert DoneAt(d, next, 0, i) == DoneAt(d, n, |d.rules[d.keys[n]]|, i);
    }
  }

  /** One rule more. */
  lemma RoundStep(kind: Kind, d: Dict, was: Dict, n: nat, j: nat)
    requires d.Ok() && n < |d.keys| && j < |d.rules[d.keys[n]]| && Begun(kind, d, was.rules, n, j)
    requires Replacement(kind, d.rules, d.rules[d.keys[n]][j]).Some?
    ensures Begun(kind, d, was.Extend(d.keys[n], Replacement(kind, d.rules, d.rules[d.keys[n]][j]).value).rules, n, j + 1)
  {
    hide Replacement, KeyAt, Flat;
    var k, more := d.keys[n], Replacement(kind, d.rules, d.rules[d.keys[n]][j]).value;
    var m, next: nat := was.Extend(k, more).rules, j + 1;
    forall i: nat | i < |d.keys|
      ensures KeyAt(kind, d, m, d.keys[i], DoneAt(d, n, next, i))
    {
      assert KeyAt(kind, d, was.rules, d.keys[i], DoneAt(d, n, j, i));
      if i == n {
        KeyStep(kind, d, was, k, j);
      } else {
        KeyElsewhere(kind, d, was, k, more, d.keys[i], DoneAt(d, n, j, i));
      }
    }
  }

  lemma KeyStep(kind: Kind, d: Dict, was: Dict, k: Token, j: nat)
    requires KeyAt(kind, d, was.rules, k, j) && j < |d.rules[k]| && Replacement(kind, d.rules, d.rules[k][j]).Some?
    ensures KeyAt(kind, d, was.Extend(k, Replacement(kind, d.rules, d.rules[k][j]).value).rules, k, j + 1)
  {
    hide Replacement, Flat;
    FlatNext(kind, d.rules, d.rules[k], j);
    var more := Replacement(kind, d.rules, d.rules[k][j]).value;
    if j == 0 {
      FlatNone(kind, d.rules, d.rules[k]);
      assert [] + more == more;
    }
  }

  lemma FlatNone(kind: Kind, g: Rules, list: seq<Rule>)
    ensures Flat(kind, g, list[..0]) == Some([])
  {
  }

  lemma KeyElsewhere(kind: Kind, d: Dict, was: Dict, k: Token, more: seq<Rule>, a: Token, j: nat)
    requires KeyAt(kind, d, was.rules, a, j) && a != k
    ensures KeyAt(kind, d, was.Extend(k, more).rules, a, j)
  {
    hide Flat;
  }

  lemma {:induction false} RoundToNone(kind: Kind, d: Dict, n: nat, j: nat)
    requires d.Ok() && n <= |d.keys| && j <= (if n < |d.keys| then |d.rules[d.keys[n]]| else 0)
    requires RoundTo(kind, d, n, j).None?
    ensures exists a, r :: Blocked(kind, d.rules, a, r)
    decreases n, j
  {
    hide Replacement, RoundTo;
    if j > 0 {
      if RoundTo(kind, d, n, j - 1).None? {
        RoundToNone(kind, d, n, j - 1);
      } else {
        var k, r := d.keys[n], d.rules[d.keys[n]][j - 1];
        RoundNext(kind, d, n, j - 1);
        assert Blocked(kind, d.rules, k, r);
      }
    } else if n > 0 {
      RoundName(kind, d, n - 1);
      RoundToNone(kind, d, n - 1, |d.rules[d.keys[n - 1]]|);
    } else {
      RoundStart(kind, d);
    }
  }

  lemma {:induction false} FlatMembers(kind: Kind, g: Rules, list: seq<Rule>, r: Rule)
    requires Flat(kind, g, list).Some?
    ensures forall s :: s in list ==> Replacement(kind, g, s).Some?
    ensures r in Flat(kind, g, list).value <==> exists s :: s in list && r in Replacement(kind, g, s).value
    decreases |list|
  {
    hide Replacement;
    if list != [] {
      var init, last := list[..|list| - 1], list[|list| - 1];
      assert list == init + [last];
      FlatMembers(kind, g, init, r);
    }
  }

  /** What a round makes of the rules: exactly the names with rules remain. */
  ghost predicate Flattened(kind: Kind, g: Rules, h: Rules)
  {
    forall a :: if a in g && g[a] != [] then a in h && Flat(kind, g, g[a]) == Some(h[a]) else a !in h
  }

  lemma RoundIs(kind: Kind, d: Dict)
    requires d.Ok() && Round(kind, d).Some?
    ensures Flattened(kind, d.rules, Round(kind, d).value.rules)
  {
    hide Flat, RoundTo;
    RoundToIs(kind, d, |d.keys|, 0);
    var h := Round(kind, d).value.rules;
    forall a
      ensures if a in d.rules && d.rules[a] != [] then a in h && Flat(kind, d.rules, d.rules[a]) == Some(h[a]) else a !in h
    {
      if a in d.rules {
        var i: nat :| i < |d.keys| && d.keys[i] == a;
        assert KeyAt(kind, d, h, d.keys[i], DoneAt(d, |d.keys|, 0, i));
        assert d.rules[a][..|d.rules[a]|] == d.rules[a];
      }
    }
  }

  /** A rule that nothing can take the place of. */
  ghost predicate Blocked(kind: Kind, g: Rules, a: Token, r: Rule)
  {
    HasRule(g, a, r) && Replacement(kind, g, r).None?
  }

  lemma {:induction false} FlatEmpty(kind: Kind, g: Rules, list: seq<Rule>)
    requires Flat(kind, g, list) == Some([])
    ensures forall s :: s in list ==> Replacement(kind, g, s) == Some([])
    decreases |list|
  {
    hide Replacement;
    if list != [] {
      var init, last := list[..|list| - 1], list[|list| - 1];
      assert list == init + [last];
      FlatEmpty(kind, g, init);
    }
  }

  /** A round fails if and only if some rule is blocked. */
  lemma RoundFails(kind: Kind, d: Dict)
    requires d.Ok()
    ensures Round(kind, d).None? <==> exists a, r :: Blocked(kind, d.rules, a, r)
  {
    hide RoundTo, Replacement, Flat;
    if Round(kind, d).None? {
      RoundToNone(kind, d, |d.keys|, 0);
    } else {
      RoundIs(kind, d);
      forall a, r
        ensures !Blocked(kind, d.rules, a, r)
      {
        if Blocked(kind, d.rules, a, r) { FlatMembers(kind, d.rules, d.rules[a], r); }
      }
    }
  }

  // ---------- links between names ----------

  /** A rule that a round replaces: a unit rule, or one that starts with a name. */
  predicate Replaced(kind: Kind, r: Rule): (yes: bool)
    ensures yes ==> r != []
  {
    match kind
    case UnitRules => UnitRule(r)
    case LeadingNames => r != [] && !r[0].Terminal?
  }

  /** A rule of `a` is to be replaced by the rules of `b`. */
  ghost predicate Link(kind: Kind, g: Rules, a: Token, b: Token)
  {
    exists r: Rule :: HasRule(g, a, r) && Replaced(kind, r) && r[0] == b
  }

  lemma LinkOf(kind: Kind, g: Rules, a: Token, r: Rule)
    requires HasRule(g, a, r) && Replaced(kind, r)
    ensures Link(kind, g, a, r[0])
  {
  }

  /** An empty rule stops a round that looks at the first token of every rule. */
  ghost predicate Readable(kind: Kind, g: Rules)
  {
    kind == LeadingNames ==> forall a, r: Rule :: HasRule(g, a, r) ==> r != []
  }

  lemma Origin(kind: Kind, g: Rules, s: Rule, r: Rule)
    requires Readable(kind, g) && Replacement(kind, g, s).Some? && r in Replacement(kind, g, s).value && Replaced(kind, r)
    ensures Replaced(kind, s) && Link(kind, g, s[0], r[0])
  {
    hide Link;
    if kind == LeadingNames && Replaced(kind, s) {
      var list := g[s[0]];
      var i :| 0 <= i < |list| && list[i] + s[1..] == r;
      assert HasRule(g, s[0], list[i]);
      LinkOf(kind, g, s[0], list[i]);
    } else if Replaced(kind, s) {
      assert HasRule(g, s[0], r);
      LinkOf(kind, g, s[0], r);
    }
  }

  lemma Offspring(kind: Kind, g: Rules, s: Rule, q: Rule) returns (r: Rule)
    requires Replacement(kind, g, s).Some? && Replaced(kind, s) && HasRule(g, s[0], q) && Replaced(kind, q)
    ensures r in Replacement(kind, g, s).value && Replaced(kind, r) && r[0] == q[0]
  {
    if kind == UnitRules {
      r := q;
    } else {
      var list := g[s[0]];
      var i :| 0 <= i < |list| && list[i] == q;
      r := q + s[1..];
      assert Extended(list, s[1..])[i] == r;
    }
  }

  /** Two links, one after the other. */
  ghost predicate Chain(kind: Kind, g: Rules, a: Token, b: Token, c: Token)
  {
    Link(kind, g, a, b) && Link(kind, g, b, c)
  }

  /** After a round, the links are the chains of two before it. */
  lemma LinksAfter(kind: Kind, g: Rules, h: Rules, a: Token, c: Token)
    requires Flattened(kind, g, h) && Readable(kind, g)
    ensures Link(kind, h, a, c) <==> exists b :: Chain(kind, g, a, b, c)
  {
    hide Replacement, Flat, Readable, Replaced;
    if Link(kind, h, a, c) {
      var r: Rule :| HasRule(h, a, r) && Replaced(kind, r) && r[0] == c;
      FlatMembers(kind, g, g[a], r);
      var s :| s in g[a] && r in Replacement(kind, g, s).value;
      Origin(kind, g, s, r);
      assert HasRule(g, a, s);
      LinkOf(kind, g, a, s);
      assert Chain(kind, g, a, s[0], c);
    }
    forall b | Chain(kind, g, a, b, c)
      ensures Link(kind, h, a, c)
    {
      var s: Rule :| HasRule(g, a, s) && Replaced(kind, s) && s[0] == b;
      var q: Rule :| HasRule(g, b, q) && Replaced(kind, q) && q[0] == c;
      FlatMembers(kind, g, g[a], s);
      var r := Offspring(kind, g, s, q);
      FlatMembers(kind, g, g[a], r);
      assert HasRule(h, a, r);
    }
  }

  /** A link to a name that has no rule list at all. */
  ghost predicate Missing(kind: Kind, g: Rules, a: Token, b: Token)
  {
    Link(kind, g, a, b) && b !in g
  }

  lemma BlockedIs(kind: Kind, g: Rules, a: Token, r: Rule)
    requires Readable(kind, g)
    ensures Blocked(kind, g, a, r) <==> HasRule(g, a, r) && Replaced(kind, r) && r[0] !in g
  {
  }

  /** A round fails if and only if a link is missing. */
  lemma RoundStops(kind: Kind, d: Dict)
    requires d.Ok() && Readable(kind, d.rules)
    ensures Round(kind, d).None? <==> exists a, b :: Missing(kind, d.rules, a, b)
  {
    hide Round, Replaced, Blocked, Readable;
    RoundFails(kind, d);
    if a, r :| Blocked(kind, d.rules, a, r) {
      BlockedIs(kind, d.rules, a, r);
      LinkOf(kind, d.rules, a, r);
      assert Missing(kind, d.rules, a, r[0]);
    }
    if a, b :| Missing(kind, d.rules, a, b) {
      var r: Rule :| HasRule(d.rules, a, r) && Replaced(kind, r) && r[0] == b;
      BlockedIs(kind, d.rules, a, r);
    }
  }

  // ---------- ranks ----------

  function Level(rank: map<Token, nat>, a: Token): nat
  {
    if a in rank then rank[a] else 0
  }

  /** Links lead to lower ranks, so no chain of them is endless. */
  ghost predicate Ranked(kind: Kind, g: Rules, rank: map<Token, nat>)
  {
    forall a, b :: Link(kind, g, a, b) ==> Level(rank, b) < Level(rank, a)
  }

  ghost predicate RankBelow(kind: Kind, g: Rules, rank: map<Token, nat>, bound: nat)
  {
    forall a, b :: Link(kind, g, a, b) ==> Level(rank, a) < bound
  }

  function Halved(rank: map<Token, nat>): map<Token, nat>
  {
    map a | a in rank :: rank[a] / 2
  }

  /** The ranks halve with every round. */
  lemma HalvedRanks(kind: Kind, g: Rules, h: Rules, rank: map<Token, nat>, half: nat)
    requires Flattened(kind, g, h) && Readable(kind, g) && Ranked(kind, g, rank) && RankBelow(kind, g, rank, 2 * half)
    ensures Ranked(kind, h, Halved(rank)) && RankBelow(kind, h, Halved(rank), half)
    ensures half == 1 ==> forall a, b :: !Link(kind, h, a, b)
  {
    hide Flattened, Link, Readable;
    forall a, c | Link(kind, h, a, c)
      ensures Level(Halved(rank), c) < Level(Halved(rank), a) < half && half > 1
    {
      LinksAfter(kind, g, h, a, c);
      var b :| Chain(kind, g, a, b, c);
      assert Link(kind, g, a, b) && Link(kind, g, b, c);
    }
  }

  lemma {:induction false} BelowPow2(n: nat)
    ensures n < Pow2(n)
  {
    if n > 0 { BelowPow2(n - 1); }
  }

  lemma {:induction false} Highest(names: set<Token>, rank: map<Token, nat>) returns (top: nat)
    ensures forall a :: a in names ==> Level(rank, a) <= top
    decreases names
  {
    if names == {} {
      top := 0;
    } else {
      var a :| a in names;
      top := Highest(names - {a}, rank);
      if top < Level(rank, a) { top := Level(rank, a); }
    }
  }

  /** One more than the highest rank that the rules of a list link to. */
  function Height(kind: Kind, list: seq<Rule>, rank: map<Token, nat>): (n: nat)
    decreases |list|
  {
    if list == [] then 0
    else
      var before := Height(kind, list[..|list| - 1], rank);
      if Replaced(kind, list[|list| - 1]) && before <= Level(rank, list[|list| - 1][0]) then Level(rank, list[|list| - 1][0]) + 1
      else before
  }

  lemma {:induction false} HeightIs(kind: Kind, list: seq<Rule>, rank: map<Token, nat>)
    ensures forall s :: s in list && Replaced(kind, s) ==> Level(rank, s[0]) < Height(kind, list, rank)
    ensures Height(kind, list, rank) > 0 ==> exists s :: s in list && Replaced(kind, s) && Level(rank, s[0]) + 1 == Height(kind, list, rank)
    decreases |list|
  {
    hide Level, Replaced;
    if list != [] {
      var init, last := list[..|list| - 1], list[|list| - 1];
      assert list == init + [last];
      HeightIs(kind, init, rank);
      assert last in list;
    }
  }

  /** Ranks before a round, from ranks after it. */
  ghost function Lengthened(kind: Kind, g: Rules, rank: map<Token, nat>): map<Token, nat>
  {
    map a | a in g :: Level(rank, a) + Height(kind, g[a], rank)
  }

  lemma RanksBefore(kind: Kind, g: Rules, h: Rules, rank: map<Token, nat>)
    requires Flattened(kind, g, h) && Readable(kind, g) && Ranked(kind, h, rank) && forall a, b :: !Missing(kind, g, a, b)
    ensures Ranked(kind, g, Lengthened(kind, g, rank))
  {
    hide Flattened, Height, Level, Readable, Link;
    forall a, b | Link(kind, g, a, b)
      ensures Level(Lengthened(kind, g, rank), b) < Level(Lengthened(kind, g, rank), a)
    {
      assert !Missing(kind, g, a, b);
      RankBefore(kind, g, h, rank, a, b);
      LinkOwner(kind, g, a, b);
      RaisedLevel(kind, g, rank, a);
      RaisedLevel(kind, g, rank, b);
    }
  }

  lemma LinkOwner(kind: Kind, g: Rules, a: Token, b: Token)
    requires Link(kind, g, a, b)
    ensures a in g && g[a] != []
  {
  }

  lemma RaisedLevel(kind: Kind, g: Rules, rank: map<Token, nat>, a: Token)
    requires a in g
    ensures Level(Lengthened(kind, g, rank), a) == Level(rank, a) + Height(kind, g[a], rank)
  {
  }

  lemma RankBefore(kind: Kind, g: Rules, h: Rules, rank: map<Token, nat>, a: Token, b: Token)
    requires Flattened(kind, g, h) && Readable(kind, g) && Ranked(kind, h, rank) && Link(kind, g, a, b) && b in g
    ensures Level(rank, b) + Height(kind, g[b], rank) < Level(rank, a) + Height(kind, g[a], rank)
  {
    hide Flattened, Height, Level, Readable;
    HeightIs(kind, g[a], rank);
    HeightIs(kind, g[b], rank);
    var r: Rule :| HasRule(g, a, r) && Replaced(kind, r) && r[0] == b;
    if Height(kind, g[b], rank) > 0 {
      var s :| s in g[b] && Replaced(kind, s) && Level(rank, s[0]) + 1 == Height(kind, g[b], rank);
      LinkOf(kind, g, b, s);
      assert Chain(kind, g, a, b, s[0]);
      LinksAfter(kind, g, h, a, s[0]);
    }
  }
}
