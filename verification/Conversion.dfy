/** What the grammar converter computes, as functions on ordered dictionaries of rules: one function for
    each pass, and one for each loop that repeats passes.  The methods of Gnf are proved equal to them. */
module Conversion {
  import opened Grammar
  import opened Wrappers

  /** A dictionary of rule lists that remembers the order in which its keys were first used. */
  datatype Dict = Dict(keys: seq<Token>, rules: Rules) {
    ghost predicate Ok() {
      && (forall i, j :: 0 <= i < j < |keys| ==> keys[i] != keys[j])
      && (forall k :: k in keys <==> k in rules)
      && (forall k :: k in rules ==> !k.Terminal?)
    }

    /** Appends rules under a key, which is entered if it is new. */
    function Extend(k: Token, more: seq<Rule>): Dict {
      if k in rules then Dict(keys, rules[k := rules[k] + more]) else Dict(keys + [k], rules[k := more])
    }

    /** Replaces the rules of a key. */
    function Set(k: Token, list: seq<Rule>): Dict {
      Dict(if k in rules then keys else keys + [k], rules[k := list])
    }
  }

  /** The name under which the start symbol is entered. */
  const START: Token := Token.Named("Start")

  const EMPTY: Dict := Dict([], map[])

  lemma ExtendOk(d: Dict, k: Token, more: seq<Rule>)
    requires d.Ok() && !k.Terminal?
    ensures d.Extend(k, more).Ok()
    ensures forall r :: HasRule(d.Extend(k, more).rules, k, r) <==> HasRule(d.rules, k, r) || r in more
    ensures forall a, r: Rule :: a != k ==> (HasRule(d.Extend(k, more).rules, a, r) <==> HasRule(d.rules, a, r))
    ensures d.Extend(k, more).rules.Keys == d.rules.Keys + {k}
  {
  }

  lemma SetOk(d: Dict, k: Token, list: seq<Rule>)
    requires d.Ok() && !k.Terminal?
    ensures d.Set(k, list).Ok()
    ensures d.Set(k, list).rules.Keys == d.rules.Keys + {k}
  {
  }

  /** A conversion returns a grammar, raises an exception, or is still running after the given number
      of rounds: its loops need not end. */
  datatype Outcome = Converted(g: Dict) | Raised | Unfinished

  /** ... together with the counter for new names. */
  datatype Counted = Counted(outcome: Outcome, count: nat)

  datatype Partial = Partial(g: Dict, count: nat)

  // ---------- shapes ----------

  predicate UnitRule(r: Rule)
  {
    |r| == 1 && !r[0].Terminal?
  }

  /** No rule is a single nonterminal. */
  ghost predicate NoUnit(g: Rules)
  {
    forall a, r: Rule :: HasRule(g, a, r) ==> !UnitRule(r)
  }

  /** No rule starts with its own left-hand side. */
  ghost predicate NoLeftRecursion(g: Rules)
  {
    forall a, r: Rule :: HasRule(g, a, r) ==> r != [] && r[0] != a
  }

  predicate StartsTerminal(r: Rule)
  {
    r != [] && r[0].Terminal?
  }

  ghost predicate LeadingTerminals(g: Rules)
  {
    forall a, r: Rule :: HasRule(g, a, r) ==> StartsTerminal(r)
  }

  ghost predicate NoEmptyRule(g: Rules)
  {
    forall a, r: Rule :: HasRule(g, a, r) ==> r != []
  }

  // ---------- rounds that replace rules ----------

  /** A round replaces unit rules, or rules that start with a name. */
  datatype Kind = UnitRules | LeadingNames

  ghost function Extended(list: seq<Rule>, tail: Rule): (out: seq<Rule>)
    ensures |out| == |list| && forall i :: 0 <= i < |out| ==> out[i] == list[i] + tail
  {
    seq(|list|, i requires 0 <= i < |list| => list[i] + tail)
  }

  /** The rules that take the place of `r`; none if a name has no rule list. */
  ghost function Replacement(kind: Kind, g: Rules, r: Rule): Option<seq<Rule>>
  {
    match kind
    case UnitRules =>
      if !UnitRule(r) then Some([r]) else if r[0] in g then Some(g[r[0]]) else None
    case LeadingNames =>
      if r == [] then None
      else if r[0].Terminal? then Some([r])
      else if r[0] in g then Some(Extended(g[r[0]], r[1..]))
      else None
  }

  /** The new dictionary after the names before number `n` and the first `j` rules of that one. */
  ghost function RoundTo(kind: Kind, d: Dict, n: nat, j: nat): (new_: Option<Dict>)
    requires d.Ok() && n <= |d.keys| && j <= (if n < |d.keys| then |d.rules[d.keys[n]]| else 0)
    ensures new_.Some? ==> new_.value.Ok()
    decreases n, j
  {
    if j > 0 then
      match RoundTo(kind, d, n, j - 1)
      case None => None
      case Some(new_) => ExtendBy(new_, d.keys[n], Replacement(kind, d.rules, d.rules[d.keys[n]][j - 1]))
    else if n > 0 then RoundTo(kind, d, n - 1, |d.rules[d.keys[n - 1]]|)
    else Some(EMPTY)
  }

  ghost function ExtendBy(d: Dict, k: Token, more: Option<seq<Rule>>): (new_: Option<Dict>)
    requires d.Ok() && !k.Terminal?
    ensures new_.Some? ==> new_.value.Ok()
  {
    match more
    case None => None
    case Some(list) =>
      ExtendOk(d, k, list);
      Some(d.Extend(k, list))
  }

  ghost function Round(kind: Kind, d: Dict): (new_: Option<Dict>)
    requires d.Ok()
    ensures new_.Some? ==> new_.value.Ok()
  {
    RoundTo(kind, d, |d.keys|, 0)
  }

  lemma RoundStart(kind: Kind, d: Dict)
    requires d.Ok()
    ensures RoundTo(kind, d, 0, 0) == Some(EMPTY)
  {
  }

  lemma RoundNext(kind: Kind, d: Dict, n: nat, j: nat)
    requires d.Ok() && n < |d.keys| && j < |d.rules[d.keys[n]]| && RoundTo(kind, d, n, j).Some?
    ensures RoundTo(kind, d, n, j + 1)
            == ExtendBy(RoundTo(kind, d, n, j).value, d.keys[n], Replacement(kind, d.rules, d.rules[d.keys[n]][j]))
  {
    hide Replacement, ExtendBy;
  }

  lemma RoundName(kind: Kind, d: Dict, n: nat)
    requires d.Ok() && n < |d.keys|
    ensures RoundTo(kind, d, n + 1, 0) == RoundTo(kind, d, n, |d.rules[d.keys[n]]|)
  {
    hide Replacement, ExtendBy;
  }

  /** A name without rules stops the whole round. */
  lemma {:induction false} RoundStuck(kind: Kind, d: Dict, n: nat, j: nat)
    requires d.Ok() && n <= |d.keys| && j <= (if n < |d.keys| then |d.rules[d.keys[n]]| else 0)
    requires RoundTo(kind, d, n, j) == None
    ensures Round(kind, d) == None
    decreases |d.keys| - n, (if n < |d.keys| then |d.rules[d.keys[n]]| else 0) - j
  {
    hide Replacement;
    if n < |d.keys| {
      if j < |d.rules[d.keys[n]]| { RoundStuck(kind, d, n, j + 1); } else { RoundStuck(kind, d, n + 1, 0); }
    }
  }

  /** Rounds until no unit rule is left. */
  ghost function UnitFree(d: Dict, rounds: nat): (o: Outcome)
    requires d.Ok()
    ensures o.Converted? ==> o.g.Ok()
    decreases rounds
  {
    if rounds == 0 then Unfinished
    else
      match Round(UnitRules, d)
      case None => Raised
      case Some(new_) => if NoUnit(new_.rules) then Converted(new_) else UnitFree(new_, rounds - 1)
  }

  // ---------- lifting terminals ----------

  datatype Lifted = Lifted(regen: Rule, g: Dict, count: nat)

  /** The first `i` tokens of a rule with new names for terminals after the first token. */
  ghost function LiftTo(tokens: Rule, i: nat, d: Dict, count: nat): (l: Lifted)
    requires d.Ok() && 1 <= i <= |tokens|
    ensures l.g.Ok()
  {
    if i == 1 then Lifted([tokens[0]], d, count)
    else
      var l := LiftTo(tokens, i - 1, d, count);
      var token := tokens[i - 1];
      if token.Terminal? then
        var name := Generated(l.count + 1);
        ExtendOk(l.g, name, [[token]]);
        Lifted(l.regen + [name], l.g.Extend(name, [[token]]), l.count + 1)
      else Lifted(l.regen + [token], l.g, l.count)
  }

  ghost function LiftInto(d: Partial, k: Token, tokens: Rule): (new_: Option<Partial>)
    requires d.g.Ok() && !k.Terminal?
    ensures new_.Some? ==> new_.value.g.Ok()
  {
    if tokens == [] then None
    else
      var l := LiftTo(tokens, |tokens|, d.g, d.count);
      ExtendOk(l.g, k, [l.regen]);
      Some(Partial(l.g.Extend(k, [l.regen]), l.count))
  }

  ghost function MixedTo(d: Dict, count: nat, n: nat, j: nat): (new_: Option<Partial>)
    requires d.Ok() && n <= |d.keys| && j <= (if n < |d.keys| then |d.rules[d.keys[n]]| else 0)
    ensures new_.Some? ==> new_.value.g.Ok()
    decreases n, j
  {
    if j > 0 then
      match MixedTo(d, count, n, j - 1)
      case None => None
      case Some(new_) => LiftInto(new_, d.keys[n], d.rules[d.keys[n]][j - 1])
    else if n > 0 then MixedTo(d, count, n - 1, |d.rules[d.keys[n - 1]]|)
    else Some(Partial(EMPTY, count))
  }

  lemma {:induction false} MixedStuck(d: Dict, count: nat, n: nat, j: nat)
    requires d.Ok() && n <= |d.keys| && j <= (if n < |d.keys| then |d.rules[d.keys[n]]| else 0)
    requires MixedTo(d, count, n, j) == None
    ensures MixedTo(d, count, |d.keys|, 0) == None
    decreases |d.keys| - n, (if n < |d.keys| then |d.rules[d.keys[n]]| else 0) - j
  {
    hide LiftInto;
    if n < |d.keys| {
      if j < |d.rules[d.keys[n]]| { MixedStuck(d, count, n, j + 1); } else { MixedStuck(d, count, n + 1, 0); }
    }
  }

  /** An empty rule, and nothing else, stops the lifting of terminals. */
  lemma {:induction false} MixedUnless(d: Dict, count: nat, n: nat, j: nat)
    requires d.Ok() && n <= |d.keys| && j <= (if n < |d.keys| then |d.rules[d.keys[n]]| else 0) && NoEmptyRule(d.rules)
    ensures MixedTo(d, count, n, j).Some?
    decreases n, j
  {
    hide LiftTo;
    if j > 0 {
      MixedUnless(d, count, n, j - 1);
      assert HasRule(d.rules, d.keys[n], d.rules[d.keys[n]][j - 1]);
    } else if n > 0 {
      MixedUnless(d, count, n - 1, |d.rules[d.keys[n - 1]]|);
    }
  }

  /** Terminals are lifted unless there is an empty rule; then an exception is raised. */
  lemma UnmixedIff(d: Dict, count: nat)
    requires d.Ok()
    ensures Unmixed(d, count).outcome.Converted? <==> NoEmptyRule(d.rules)
    ensures !NoEmptyRule(d.rules) ==> Unmixed(d, count).outcome == Raised
  {
    hide MixedTo;
    if NoEmptyRule(d.rules) {
      MixedUnless(d, count, |d.keys|, 0);
    } else {
      var a, r: Rule :| HasRule(d.rules, a, r) && r == [];
      var n: nat :| n < |d.keys| && d.keys[n] == a;
      var j: nat :| j < |d.rules[a]| && d.rules[a][j] == r;
      MixedAtEmpty(d, count, n, j);
      MixedStuck(d, count, n, j + 1);
    }
  }

  lemma MixedAtEmpty(d: Dict, count: nat, n: nat, j: nat)
    requires d.Ok() && n < |d.keys| && j < |d.rules[d.keys[n]]| && d.rules[d.keys[n]][j] == []
    ensures MixedTo(d, count, n, j + 1) == None
  {
  }

  ghost function Unmixed(d: Dict, count: nat): (c: Counted)
    requires d.Ok()
    ensures c.outcome.Converted? ==> c.outcome.g.Ok()
  {
    match MixedTo(d, count, |d.keys|, 0)
    case None => Counted(Raised, count)
    case Some(new_) => Counted(Converted(new_.g), new_.count)
  }

  // ---------- removing left recursion ----------

  predicate NonEmptyList(list: seq<Rule>)
  {
    forall r :: r in list ==> r != []
  }

  predicate StartsWith(r: Rule, a: Token)
  {
    r != [] && r[0] == a
  }

  /** The rules that start, or do not start, with `a`, in their order. */
  function Starting(list: seq<Rule>, a: Token, with: bool): (out: seq<Rule>)
    ensures forall r :: r in out <==> r in list && StartsWith(r, a) == with
  {
    if list == [] then []
    else
      var last := list[|list| - 1];
      assert list == list[..|list| - 1] + [last];
      Starting(list[..|list| - 1], a, with) + if StartsWith(last, a) == with then [last] else []
  }

  lemma {:induction false} AllElsewhere(list: seq<Rule>, a: Token)
    ensures Starting(list, a, true) == [] ==> Starting(list, a, false) == list
  {
    if list != [] {
      var n := |list| - 1;
      AllElsewhere(list[..n], a);
      assert list == list[..n] + [list[n]];
    }
  }

  /** Every rule without its first `skip` tokens and with `name` at the end. */
  function Appended(list: seq<Rule>, skip: nat, name: Token): (out: seq<Rule>)
    requires forall r :: r in list ==> skip <= |r|
    ensures |out| == |list|
  {
    seq(|list|, i requires 0 <= i < |list| => list[i][skip..] + [name])
  }

  /** The rules of one name after a pass, and those of its tail. */
  ghost function RotateRules(d: Partial, a: Token, list: seq<Rule>): (new_: Option<Partial>)
    requires d.g.Ok() && !a.Terminal?
    ensures new_.Some? ==> new_.value.g.Ok()
  {
    if !NonEmptyList(list) then None
    else
      var left, others := Starting(list, a, true), Starting(list, a, false);
      if left == [] then Some(Partial(d.g.Set(a, others), d.count))
      else
        var b := Generated(d.count + 1);
        SetOk(d.g, a, Appended(others, 0, b));
        Some(Partial(d.g.Set(a, Appended(others, 0, b)).Set(b, Appended(left, 1, b) + [[SPACE]]), d.count + 1))
  }

  lemma NotRotated(d: Partial, a: Token, list: seq<Rule>)
    requires d.g.Ok() && !a.Terminal? && !NonEmptyList(list)
    ensures RotateRules(d, a, list) == None
  {
  }

  lemma RulesRotated(d: Partial, a: Token, list: seq<Rule>)
    requires d.g.Ok() && !a.Terminal? && NonEmptyList(list)
    ensures var left, others, b := Starting(list, a, true), Starting(list, a, false), Generated(d.count + 1);
            RotateRules(d, a, list) == Some(
              if left == [] then Partial(d.g.Set(a, others), d.count)
              else Partial(d.g.Set(a, Appended(others, 0, b)).Set(b, Appended(left, 1, b) + [[SPACE]]), d.count + 1))
  {
    hide Starting, Appended, Dict.Set;
  }

  ghost function RotateTo(d: Dict, count: nat, n: nat): (new_: Option<Partial>)
    requires d.Ok() && n <= |d.keys|
    ensures new_.Some? ==> new_.value.g.Ok()
  {
    if n == 0 then Some(Partial(EMPTY, count))
    else
      match RotateTo(d, count, n - 1)
      case None => None
      case Some(new_) => RotateRules(new_, d.keys[n - 1], d.rules[d.keys[n - 1]])
  }

  lemma {:induction false} RotateStuck(d: Dict, count: nat, n: nat)
    requires d.Ok() && n <= |d.keys| && RotateTo(d, count, n) == None
    ensures RotateTo(d, count, |d.keys|) == None
    decreases |d.keys| - n
  {
    hide RotateRules;
    if n < |d.keys| { RotateStuck(d, count, n + 1); }
  }

  /** Passes until one has found nothing to remove. */
  ghost function LeftFree(d: Dict, count: nat, rounds: nat): (c: Counted)
    requires d.Ok()
    ensures c.outcome.Converted? ==> c.outcome.g.Ok()
    decreases rounds
  {
    if rounds == 0 then Counted(Unfinished, count)
    else
      match RotateTo(d, count, |d.keys|)
      case None => Counted(Raised, count)
      case Some(new_) =>
        if NoLeftRecursion(d.rules) then Counted(Converted(new_.g), new_.count)
        else LeftFree(new_.g, new_.count, rounds - 1)
  }

  // ---------- the whole conversion ----------

  /** Left-recursion removal and substitution of leading names until every rule starts with a terminal;
      each of the loops inside is given `rounds` rounds as well. */
  ghost function NormalForm(d: Dict, count: nat, left: nat, rounds: nat): Counted
    requires d.Ok()
    decreases left
  {
    if left == 0 then Counted(Unfinished, count)
    else
      var s := LeftFree(d, count, rounds);
      if !s.outcome.Converted? then s
      else
        match Round(LeadingNames, s.outcome.g)
        case None => Counted(Raised, s.count)
        case Some(new_) =>
          if LeadingTerminals(new_.rules) then Counted(Converted(new_), s.count)
          else NormalForm(new_, s.count, left - 1, rounds)
  }

  /** Unit removal, lifting of terminals, normal form, and the start rule. */
  ghost function InNormalForm(d: Dict, start: Token, count: nat, rounds: nat): Outcome
    requires d.Ok()
  {
    var unitFree := UnitFree(d, rounds);
    if !unitFree.Converted? then unitFree
    else
      var unmixed := Unmixed(unitFree.g, count);
      if !unmixed.outcome.Converted? then unmixed.outcome
      else
        var normal := NormalForm(unmixed.outcome.g, unmixed.count, rounds, rounds).outcome;
        if !normal.Converted? then normal else Converted(normal.g.Set(START, [[start]]))
  }
}
