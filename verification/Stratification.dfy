/** Strata of a ground program with negation, found by bounded relaxation. */
module Stratification {
  import opened Options

  datatype GroundRule = GroundRule(head: string, positive: seq<string>, negative: seq<string>)

  function Mentioned(rules: seq<GroundRule>): set<string> {
    if rules == [] then {}
    else {rules[0].head} + (set a | a in rules[0].positive) + (set a | a in rules[0].negative) + Mentioned(rules[1..])
  }

  function Atoms(rules: seq<GroundRule>, facts: set<string>): set<string> { facts + Mentioned(rules) }

  lemma {:induction false} RuleAtoms(rules: seq<GroundRule>, r: GroundRule)
    requires r in rules
    ensures r.head in Mentioned(rules)
    ensures forall a | a in r.positive || a in r.negative :: a in Mentioned(rules)
  {
    assert rules == [rules[0]] + rules[1..];
    if r != rules[0] { RuleAtoms(rules[1..], r); }
  }

  type Strata = map<string, nat>

  ghost predicate Covers(strata: Strata, rules: seq<GroundRule>) {
    forall r | r in rules :: r.head in strata && (forall a | a in r.positive || a in r.negative :: a in strata)
  }

  /** A rule's head is no lower than its positive atoms and above its negative ones. */
  ghost predicate Respects(strata: Strata, r: GroundRule)
    requires r.head in strata && forall a | a in r.positive || a in r.negative :: a in strata
  {
    && (forall a | a in r.positive :: strata[a] <= strata[r.head])
    && (forall a | a in r.negative :: strata[a] < strata[r.head])
  }

  ghost predicate Valid(strata: Strata, rules: seq<GroundRule>) {
    Covers(strata, rules) && forall r | r in rules :: Respects(strata, r)
  }

  // ----- Dependency cycles -----

  datatype Edge = Edge(head: string, atom: string, negated: bool)

  ghost predicate IsEdge(rules: seq<GroundRule>, e: Edge) {
    exists r | r in rules :: r.head == e.head && (if e.negated then e.atom in r.negative else e.atom in r.positive)
  }

  /** A chain of dependencies from `a` down to `b`. */
  ghost predicate Path(rules: seq<GroundRule>, a: string, b: string, path: seq<Edge>)
    decreases |path|
  {
    if path == [] then a == b
    else IsEdge(rules, path[0]) && path[0].head == a && Path(rules, path[0].atom, b, path[1..])
  }

  predicate Negated(path: seq<Edge>) { exists e | e in path :: e.negated }

  ghost predicate DependsNegatively(rules: seq<GroundRule>, a: string, b: string) {
    exists path :: Path(rules, a, b, path) && Negated(path)
  }

  ghost predicate NegativeCycle(rules: seq<GroundRule>) { exists a :: DependsNegatively(rules, a, a) }

  /** Strata never rise along a dependency chain, and fall at each negation. */
  lemma {:induction false} PathFalls(strata: Strata, rules: seq<GroundRule>, a: string, b: string, path: seq<Edge>)
    requires Valid(strata, rules) && Path(rules, a, b, path) && path != []
    ensures a in strata && b in strata && strata[b] <= strata[a]
    ensures Negated(path) ==> strata[b] < strata[a]
    decreases |path|
  {
    var e, rest := path[0], path[1..];
    var r :| r in rules && r.head == e.head && (if e.negated then e.atom in r.negative else e.atom in r.positive);
    assert Respects(strata, r);
    assert path == [e] + rest;
    if rest != [] {
      PathFalls(strata, rules, e.atom, b, rest);
    }
    assert Negated(path) ==> e.negated || Negated(rest);
  }

  ghost function Below(rules: seq<GroundRule>, atoms: set<string>, a: string): set<string> {
    set b | b in atoms && DependsNegatively(rules, a, b)
  }

  lemma StepDown(rules: seq<GroundRule>, e: Edge, b: string)
    requires IsEdge(rules, e)
    ensures DependsNegatively(rules, e.atom, b) ==> DependsNegatively(rules, e.head, b)
    ensures e.negated ==> DependsNegatively(rules, e.head, e.atom)
  {
    if DependsNegatively(rules, e.atom, b) {
      var path :| Path(rules, e.atom, b, path) && Negated(path);
      var longer := [e] + path;
      assert longer[1..] == path && longer[0] == e;
      assert Path(rules, e.head, b, longer);
      var n :| n in path && n.negated;
      assert n in longer;
    }
    if e.negated {
      assert [e][1..] == [] && Path(rules, e.atom, e.atom, []);
      assert Path(rules, e.head, e.atom, [e]) && e in [e];
    }
  }

  lemma EdgeBelow(rules: seq<GroundRule>, atoms: set<string>, e: Edge)
    requires IsEdge(rules, e) && e.atom in atoms && !NegativeCycle(rules)
    ensures Below(rules, atoms, e.atom) <= Below(rules, atoms, e.head)
    ensures e.negated ==> Below(rules, atoms, e.atom) < Below(rules, atoms, e.head)
  {
    forall b | b in Below(rules, atoms, e.atom) ensures b in Below(rules, atoms, e.head) { StepDown(rules, e, b); }
    if e.negated {
      StepDown(rules, e, e.atom);
      assert e.atom in Below(rules, atoms, e.head) && e.atom !in Below(rules, atoms, e.atom);
    }
  }

  lemma {:induction false} SubsetSize(a: set<string>, b: set<string>)
    requires a <= b
    ensures |a| <= |b| && (a != b ==> |a| < |b|)
  {
    if a != {} {
      var x :| x in a;
      SubsetSize(a - {x}, b - {x});
    } else if b != {} {
      var x :| x in b;
      assert |b| >= |{x}|;
    }
  }

  /** Without a negative cycle, counting what each atom negatively depends on stratifies the program. */
  lemma AcyclicHasStrata(rules: seq<GroundRule>, atoms: set<string>) returns (strata: Strata)
    requires !NegativeCycle(rules) && Mentioned(rules) <= atoms
    ensures strata.Keys == atoms && Valid(strata, rules)
  {
    strata := map a | a in atoms :: |Below(rules, atoms, a)|;
    forall r | r in rules
      ensures r.head in strata && forall a | a in r.positive || a in r.negative :: a in strata
      ensures Respects(strata, r)
    {
      RuleAtoms(rules, r);
      forall a | a in r.positive ensures strata[a] <= strata[r.head] {
        EdgeBelow(rules, atoms, Edge(r.head, a, false));
        SubsetSize(Below(rules, atoms, a), Below(rules, atoms, r.head));
      }
      forall a | a in r.negative ensures strata[a] < strata[r.head] {
        EdgeBelow(rules, atoms, Edge(r.head, a, true));
        SubsetSize(Below(rules, atoms, a), Below(rules, atoms, r.head));
      }
    }
  }

  /** A program can be stratified exactly when no dependency cycle goes through a negation. */
  lemma StratifiableIffAcyclic(rules: seq<GroundRule>, atoms: set<string>)
    requires Mentioned(rules) <= atoms
    ensures (exists strata: Strata :: strata.Keys == atoms && Valid(strata, rules)) <==> !NegativeCycle(rules)
  {
    if !NegativeCycle(rules) { var strata := AcyclicHasStrata(rules, atoms); }
    forall strata: Strata, a | strata.Keys == atoms && Valid(strata, rules) ensures !DependsNegatively(rules, a, a) {
      forall path | Path(rules, a, a, path) ensures !Negated(path) {
        if path != [] { PathFalls(strata, rules, a, a, path); }
      }
    }
  }

  // ----- A minimal stratification bounds the relaxation -----

  ghost function Sum(strata: Strata, atoms: set<string>): nat
    requires atoms <= strata.Keys
  {
    if atoms == {} then 0 else var a :| a in atoms; strata[a] + Sum(strata, atoms - {a})
  }

  lemma {:induction false} SumSplit(strata: Strata, atoms: set<string>, a: string)
    requires atoms <= strata.Keys && a in atoms
    ensures Sum(strata, atoms) == strata[a] + Sum(strata, atoms - {a})
    decreases |atoms|
  {
    var b :| b in atoms && Sum(strata, atoms) == strata[b] + Sum(strata, atoms - {b});
    if a != b {
      SumSplit(strata, atoms - {b}, a);
      SumSplit(strata, atoms - {a}, b);
      assert atoms - {a} - {b} == atoms - {b} - {a};
    }
  }

  lemma {:induction false} SumMonotone(low: Strata, high: Strata, atoms: set<string>)
    requires atoms <= low.Keys && atoms <= high.Keys
    requires forall a | a in atoms :: low[a] <= high[a]
    ensures Sum(low, atoms) <= Sum(high, atoms)
    ensures (exists a | a in atoms :: low[a] < high[a]) ==> Sum(low, atoms) < Sum(high, atoms)
    decreases |atoms|
  {
    if exists a | a in atoms :: low[a] < high[a] {
      var a :| a in atoms && low[a] < high[a];
      SumSplit(low, atoms, a);
      SumSplit(high, atoms, a);
      SumMonotone(low, high, atoms - {a});
    } else if atoms != {} {
      var a :| a in atoms;
      SumSplit(low, atoms, a);
      SumSplit(high, atoms, a);
      SumMonotone(low, high, atoms - {a});
    }
  }

  /** No valid assignment of strata has a smaller total. */
  ghost predicate Minimal(strata: Strata, rules: seq<GroundRule>) {
    Valid(strata, rules) && forall other: Strata | other.Keys == strata.Keys && Valid(other, rules) ::
      Sum(strata, strata.Keys) <= Sum(other, strata.Keys)
  }

  lemma {:induction false} MinimalExists(strata: Strata, rules: seq<GroundRule>) returns (least: Strata)
    requires Valid(strata, rules)
    ensures Minimal(least, rules) && least.Keys == strata.Keys
    decreases Sum(strata, strata.Keys)
  {
    if other: Strata :|
      other.Keys == strata.Keys && Valid(other, rules) && Sum(other, strata.Keys) < Sum(strata, strata.Keys)
    {
      least := MinimalExists(other, rules);
    } else {
      least := strata;
    }
  }

  /** A non-empty set of atoms with positive strata cannot all be lowered by one. */
  lemma SomethingIsTight(least: Strata, rules: seq<GroundRule>, low: set<string>) returns (r: GroundRule, a: string)
    requires Minimal(least, rules) && low != {} && low <= least.Keys && forall b | b in low :: least[b] > 0
    ensures r in rules && r.head in low && a !in low
    ensures (a in r.positive && least[a] == least[r.head]) || (a in r.negative && least[a] + 1 == least[r.head])
  {
    var lowered: Strata := map b | b in least.Keys :: if b in low then (least[b] - 1) as nat else least[b];
    if forall r, a | r in rules && r.head in low && a !in low ::
        (a in r.positive ==> least[a] < least[r.head]) && (a in r.negative ==> least[a] + 1 < least[r.head]) {
      forall r | r in rules
        ensures r.head in lowered && (forall a | a in r.positive || a in r.negative :: a in lowered)
        ensures Respects(lowered, r)
      {
        assert Respects(least, r);
      }
      SumMonotone(lowered, least, least.Keys);
      assert exists b | b in least.Keys :: lowered[b] < least[b] by { var b :| b in low; assert lowered[b] < least[b]; }
      assert lowered.Keys == least.Keys && Valid(lowered, rules);
      assert false;
    }
    r, a :| r in rules && r.head in low && a !in low &&
      !((a in r.positive ==> least[a] < least[r.head]) && (a in r.negative ==> least[a] + 1 < least[r.head]));
    assert Respects(least, r);
  }

  // ----- Relaxation -----

  function Highest(strata: Strata, atoms: seq<string>, extra: nat): (m: nat)
    requires forall a | a in atoms :: a in strata
    ensures forall a | a in atoms :: strata[a] + extra <= m
    ensures m == 0 || exists a | a in atoms :: m == strata[a] + extra
  {
    if atoms == [] then 0 else
    assert atoms == [atoms[0]] + atoms[1..];
    var rest := Highest(strata, atoms[1..], extra);
    if strata[atoms[0]] + extra > rest then strata[atoms[0]] + extra else rest
  }

  /** The lowest stratum a rule allows its head. */
  function Minimum(strata: Strata, r: GroundRule): (m: nat)
    requires forall a | a in r.positive || a in r.negative :: a in strata
    ensures forall a | a in r.positive :: strata[a] <= m
    ensures forall a | a in r.negative :: strata[a] + 1 <= m
    ensures m == 0 || (exists a | a in r.positive :: m == strata[a]) ||
      (exists a | a in r.negative :: m == strata[a] + 1)
  {
    var p, n := Highest(strata, r.positive, 0), Highest(strata, r.negative, 1);
    if p > n then p else n
  }

  ghost predicate AtMost(strata: Strata, bound: Strata) {
    strata.Keys == bound.Keys && forall a | a in strata :: strata[a] <= bound[a]
  }

  ghost function Settled(strata: Strata, least: Strata): set<string>
    requires strata.Keys == least.Keys
  {
    set a | a in strata && strata[a] == least[a]
  }

  /** One pass over the rules, raising heads in place. */
  method Relax(rules: seq<GroundRule>, before: Strata) returns (strata: Strata, changed: bool)
    requires Covers(before, rules)
    ensures strata.Keys == before.Keys
    ensures forall a | a in before :: before[a] <= strata[a]
    ensures !changed ==> strata == before && Valid(strata, rules)
    ensures changed ==> exists a | a in before :: before[a] < strata[a]
    ensures forall r | r in rules :: Minimum(before, r) <= strata[r.head]
    ensures forall bound | Valid(bound, rules) && AtMost(before, bound) :: AtMost(strata, bound)
  {
    strata, changed := before, false;
    for i := 0 to |rules|
      invariant strata.Keys == before.Keys
      invariant forall a | a in before :: before[a] <= strata[a]
      invariant !changed ==> strata == before
      invariant changed ==> exists a | a in before :: before[a] < strata[a]
      invariant !changed ==> forall r | r in rules[..i] :: Minimum(before, r) <= before[r.head]
      invariant forall r | r in rules[..i] :: Minimum(before, r) <= strata[r.head]
      invariant forall bound | Valid(bound, rules) && AtMost(before, bound) :: AtMost(strata, bound)
    {
      var r := rules[i];
      assert rules[..i + 1] == rules[..i] + [r];
      var minimum := Minimum(strata, r);
      MinimumMonotone(before, strata, r);
      if strata[r.head] < minimum {
        ghost var prior := strata;
        forall bound | Valid(bound, rules) && AtMost(prior, bound) ensures minimum <= bound[r.head] {
          assert Respects(bound, r);
        }
        assert before[r.head] < minimum;
        strata := strata[r.head := minimum];
        changed := true;
      }
    }
    assert rules[..|rules|] == rules;
  }

  lemma MinimumMonotone(low: Strata, high: Strata, r: GroundRule)
    requires low.Keys == high.Keys && forall a | a in r.positive || a in r.negative :: a in low
    requires forall a | a in low :: low[a] <= high[a]
    ensures Minimum(low, r) <= Minimum(high, r)
  {
  }

  /** Each pass settles one more atom at its minimal stratum. */
  lemma PassSettles(rules: seq<GroundRule>, before: Strata, after: Strata, least: Strata)
    requires Minimal(least, rules) && AtMost(before, least) && AtMost(after, least)
    requires forall a | a in before :: before[a] <= after[a]
    requires forall r | r in rules :: r.head in before && (forall a | a in r.positive || a in r.negative :: a in before)
    requires forall r | r in rules :: Minimum(before, r) <= after[r.head]
    requires before != least
    ensures Settled(before, least) < Settled(after, least)
  {
    var low := least.Keys - Settled(before, least);
    assert low != {} by {
      if low == {} {
        forall a | a in least ensures before[a] == least[a] { assert a !in low; }
      }
    }
    var r, a := SomethingIsTight(least, rules, low);
    assert Respects(least, r) && a in least;
    assert a in Settled(before, least);
    assert r.head in Settled(after, least) && r.head !in Settled(before, least);
    assert Settled(before, least) <= Settled(after, least);
  }

  /** Bounded relaxation: strata, or none when a negative cycle rules them out. */
  method Stratify(rules: seq<GroundRule>, facts: set<string>) returns (r: Option<Strata>)
    ensures r.Some? ==> r.value.Keys == Atoms(rules, facts) && Valid(r.value, rules)
    ensures r.None? <==> NegativeCycle(rules)
  {
    hide Settled;
    hide Respects;
    var atoms := Atoms(rules, facts);
    var strata: Strata := map a | a in atoms :: 0 as nat;
    forall r | r in rules ensures r.head in atoms && forall a | a in r.positive || a in r.negative :: a in atoms {
      RuleAtoms(rules, r);
    }
    StratifiableIffAcyclic(rules, atoms);
    ghost var least: Strata := map[];
    if !NegativeCycle(rules) {
      var some: Strata :| some.Keys == atoms && Valid(some, rules);
      least := MinimalExists(some, rules);
    }
    for pass := 0 to |atoms| + 1
      invariant strata.Keys == atoms && Covers(strata, rules)
      invariant !NegativeCycle(rules) ==> AtMost(strata, least)
      invariant !NegativeCycle(rules) ==> pass <= |Settled(strata, least)|
    {
      var after, changed := Relax(rules, strata);
      if !changed {
        return Some(strata);
      }
      if !NegativeCycle(rules) {
        assert AtMost(after, least);
        assert strata != least by {
          var a :| a in strata && strata[a] < after[a];
          assert after[a] <= least[a];
        }
        PassSettles(rules, strata, after, least);
        SubsetSize(Settled(strata, least), Settled(after, least));
      }
      strata := after;
    }
    if !NegativeCycle(rules) { SettledBound(strata, least); }
    r := None;
  }

  lemma SettledBound(strata: Strata, least: Strata)
    requires strata.Keys == least.Keys
    ensures |Settled(strata, least)| <= |least.Keys|
  {
    SubsetSize(Settled(strata, least), least.Keys);
  }
}
