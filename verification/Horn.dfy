/** Positive rules over constants: least models, and their computation by exhaustive grounding. */
module Horn {
  import opened Expressions

  datatype Term = Var(name: string) | Const(value: string)

  datatype Atom = Atom(predicate_: string, args: seq<Term>)

  datatype Rule = Rule(head: Atom, body: seq<Atom>)

  datatype Fact = Fact(predicate_: string, args: seq<string>)

  type Binding = map<string, string>

  // ----- Grounding -----

  function GroundTerm(b: Binding, t: Term): string {
    match t
    case Var(v) => if v in b then b[v] else v
    case Const(c) => c
  }

  function GroundTerms(b: Binding, ts: seq<Term>): (r: seq<string>)
    ensures |r| == |ts|
    ensures forall i | 0 <= i < |ts| :: r[i] == GroundTerm(b, ts[i])
  {
    if ts == [] then [] else [GroundTerm(b, ts[0])] + GroundTerms(b, ts[1..])
  }

  function Ground(b: Binding, a: Atom): Fact { Fact(a.predicate_, GroundTerms(b, a.args)) }

  function TermNames(ts: seq<Term>): seq<string> {
    if ts == [] then [] else (if ts[0].Var? then [ts[0].name] else []) + TermNames(ts[1..])
  }

  function BodyNames(body: seq<Atom>): seq<string> {
    if body == [] then [] else TermNames(body[0].args) + BodyNames(body[1..])
  }

  /** The variables of a rule, without repeats. */
  function Names(r: Rule): seq<string> { Distinct(BodyNames(r.body) + TermNames(r.head.args)) }

  function TermConstants(ts: seq<Term>): set<string> { set t | t in ts && t.Const? :: t.value }

  function RuleConstants(r: Rule): set<string> {
    TermConstants(r.head.args) + set a, t | a in r.body && t in a.args && t.Const? :: t.value
  }

  /** Every constant in the facts or the rules. */
  function Domain(rules: seq<Rule>, facts: set<Fact>): set<string> {
    (set f, c | f in facts && c in f.args :: c) + (set r, c | r in rules && c in RuleConstants(r) :: c)
  }

  // ----- Least models -----

  ghost predicate BindsOver(b: Binding, r: Rule, domain: set<string>) {
    (forall v :: v in b <==> v in Names(r)) && forall v | v in b :: b[v] in domain
  }

  ghost predicate BodyIn(b: Binding, r: Rule, facts: set<Fact>) { forall a | a in r.body :: Ground(b, a) in facts }

  ghost predicate Closed(rules: seq<Rule>, domain: set<string>, model: set<Fact>) {
    forall r, b | r in rules && BindsOver(b, r, domain) && BodyIn(b, r, model) :: Ground(b, r.head) in model
  }

  ghost predicate LeastModel(rules: seq<Rule>, facts: set<Fact>, domain: set<string>, model: set<Fact>) {
    && facts <= model && Closed(rules, domain, model)
    && forall other | facts <= other && Closed(rules, domain, other) :: model <= other
  }

  lemma LeastModelUnique(rules: seq<Rule>, facts: set<Fact>, domain: set<string>, m: set<Fact>, n: set<Fact>)
    requires LeastModel(rules, facts, domain, m) && LeastModel(rules, facts, domain, n)
    ensures m == n
  {
    assert m <= n && n <= m;
  }

  // ----- Exhaustive grounding -----

  function Tuples(domain: seq<string>, n: nat): (r: seq<seq<string>>)
    decreases n, |domain|, 1
  {
    if n == 0 then [[]] else Extended(domain, domain, n)
  }

  /** Tuples of length `n` whose first item is among `firsts`. */
  function Extended(firsts: seq<string>, domain: seq<string>, n: nat): seq<seq<string>>
    requires n > 0 && |firsts| <= |domain|
    decreases n, |firsts|, 0
  {
    if firsts == [] then [] else Prefixed(firsts[0], Tuples(domain, n - 1)) + Extended(firsts[1..], domain, n)
  }

  function Prefixed(first: string, tuples: seq<seq<string>>): (r: seq<seq<string>>)
    ensures |r| == |tuples|
    ensures forall i | 0 <= i < |r| :: r[i] == [first] + tuples[i]
  {
    if tuples == [] then [] else [[first] + tuples[0]] + Prefixed(first, tuples[1..])
  }

  lemma {:induction false} TuplesAre(domain: seq<string>, n: nat, t: seq<string>)
    ensures t in Tuples(domain, n) <==> |t| == n && forall i | 0 <= i < n :: t[i] in domain
    decreases n, |domain|, 1
  {
    if n > 0 { ExtendedAre(domain, domain, n, t); }
  }

  lemma {:induction false} ExtendedAre(firsts: seq<string>, domain: seq<string>, n: nat, t: seq<string>)
    requires n > 0 && |firsts| <= |domain|
    ensures t in Extended(firsts, domain, n) <==> |t| == n && t[0] in firsts && forall i | 1 <= i < n :: t[i] in domain
    decreases n, |firsts|, 0
  {
    if firsts != [] {
      assert firsts == [firsts[0]] + firsts[1..];
      ExtendedAre(firsts[1..], domain, n, t);
      PrefixedAre(firsts[0], Tuples(domain, n - 1), t);
      if |t| == n {
        TuplesAre(domain, n - 1, t[1..]);
        TailWithin(t, domain);
      }
      TupleLength(domain, n - 1, t);
    }
  }

  lemma TailWithin(t: seq<string>, domain: seq<string>)
    requires t != []
    ensures (forall i | 0 <= i < |t| - 1 :: t[1..][i] in domain) <==> forall i | 1 <= i < |t| :: t[i] in domain
  {
    hide Extended;
    hide Tuples;
    if forall i | 0 <= i < |t| - 1 :: t[1..][i] in domain {
      forall i | 1 <= i < |t| ensures t[i] in domain { assert t[1..][i - 1] in domain; }
    }
  }

  lemma {:induction false} PrefixedAre(first: string, tuples: seq<seq<string>>, t: seq<string>)
    ensures t in Prefixed(first, tuples) <==> t != [] && t[0] == first && t[1..] in tuples
  {
    if tuples != [] {
      PrefixedAre(first, tuples[1..], t);
      assert tuples == [tuples[0]] + tuples[1..];
      if t != [] { assert t == [t[0]] + t[1..]; }
      assert ([first] + tuples[0])[1..] == tuples[0];
    }
  }

  /** A tuple whose tail is listed has the length of the listed ones plus one. */
  lemma {:induction false} TupleLength(domain: seq<string>, n: nat, t: seq<string>)
    ensures t != [] && t[1..] in Tuples(domain, n) ==> |t| == n + 1
    decreases n, |domain|, 2
  {
    if t != [] { TuplesAre(domain, n, t[1..]); }
  }

  function Zip(names: seq<string>, values: seq<string>): (b: Binding)
    requires |names| == |values|
    ensures forall v :: v in b <==> v in names
  {
    if names == [] then map[] else
    assert names == [names[0]] + names[1..];
    Zip(names[1..], values[1..])[names[0] := values[0]]
  }

  lemma {:induction false} ZipAt(names: seq<string>, values: seq<string>, i: nat)
    requires |names| == |values| && NoRepeats(names) && i < |names|
    ensures Zip(names, values)[names[i]] == values[i]
  {
    if i > 0 {
      forall j, k | 0 <= j < k < |names[1..]| ensures names[1..][j] != names[1..][k] { }
      ZipAt(names[1..], values[1..], i - 1);
    }
  }

  /** The tuple of values that a binding gives to the names, in order. */
  function Values(names: seq<string>, b: Binding): (r: seq<string>)
    requires forall v | v in names :: v in b
    ensures |r| == |names| && forall i | 0 <= i < |r| :: r[i] == b[names[i]]
  {
    if names == [] then [] else [b[names[0]]] + Values(names[1..], b)
  }

  lemma ZipValuesAt(names: seq<string>, b: Binding, v: string)
    requires NoRepeats(names) && (forall n :: n in b <==> n in names) && v in names
    ensures Zip(names, Values(names, b))[v] == b[v]
  {
    hide NoRepeats;
    hide Zip;
    hide Values;
    var i :| 0 <= i < |names| && names[i] == v;
    ZipAt(names, Values(names, b), i);
  }

  lemma ZipValues(names: seq<string>, b: Binding)
    requires NoRepeats(names) && forall v :: v in b <==> v in names
    ensures Zip(names, Values(names, b)) == b
  {
    hide *;
    var z := Zip(names, Values(names, b));
    forall v | v in b ensures z[v] == b[v] { ZipValuesAt(names, b, v); }
    assert z.Keys == b.Keys;
  }

  datatype Instance = Instance(head: Fact, body: set<Fact>)

  function InstanceOf(r: Rule, b: Binding): Instance {
    Instance(Ground(b, r.head), set a | a in r.body :: Ground(b, a))
  }

  /** The ground instances are those of bindings over the domain. */
  ghost predicate Exhaustive(instances: seq<Instance>, rules: seq<Rule>, domain: set<string>) {
    && (forall r, b | r in rules && BindsOver(b, r, domain) :: InstanceOf(r, b) in instances)
    && (forall x | x in instances :: exists r, b | r in rules && BindsOver(b, r, domain) :: x == InstanceOf(r, b))
  }

  method Listing(s: set<string>) returns (r: seq<string>)
    ensures forall x :: x in r <==> x in s
  {
    r := [];
    var rest := s;
    while rest != {}
      invariant rest <= s && forall x :: x in r <==> x in s && x !in rest
      decreases |rest|
    {
      var x :| x in rest;
      r, rest := r + [x], rest - {x};
    }
  }

  method RuleInstances(r: Rule, domain: set<string>) returns (instances: seq<Instance>)
    ensures Exhaustive(instances, [r], domain)
  {
    var names := Names(r);
    var listed := Listing(domain);
    var assignments := Tuples(listed, |names|);
    instances := [];
    for i := 0 to |assignments|
      invariant |instances| == i
      invariant forall k | 0 <= k < i ::
        |assignments[k]| == |names| && instances[k] == InstanceOf(r, Zip(names, assignments[k]))
    {
      TuplesAre(listed, |names|, assignments[i]);
      instances := instances + [InstanceOf(r, Zip(names, assignments[i]))];
    }
    InstancesExhaustive(r, domain, listed, assignments, instances);
  }

  /** Instantiating a rule at every tuple of constants covers every binding, and nothing else. */
  lemma InstancesExhaustive(r: Rule, domain: set<string>, listed: seq<string>, assignments: seq<seq<string>>,
      instances: seq<Instance>)
    requires forall c :: c in listed <==> c in domain
    requires assignments == Tuples(listed, |Names(r)|)
    requires |instances| == |assignments|
    requires forall k | 0 <= k < |assignments| ::
      |assignments[k]| == |Names(r)| && instances[k] == InstanceOf(r, Zip(Names(r), assignments[k]))
    ensures Exhaustive(instances, [r], domain)
  {
    hide Tuples;
    hide Names;
    hide InstanceOf;
    hide Zip;
    var names := Names(r);
    forall s, b | s in [r] && BindsOver(b, s, domain) ensures InstanceOf(s, b) in instances {
      hide Exhaustive;
      BindingListed(r, b, domain, listed);
      var k :| 0 <= k < |assignments| && assignments[k] == Values(names, b);
      assert instances[k] == InstanceOf(r, b);
    }
    forall x | x in instances ensures exists s, b | s in [r] && BindsOver(b, s, domain) :: x == InstanceOf(s, b) {
      hide Exhaustive;
      var k :| 0 <= k < |instances| && instances[k] == x;
      TupleBinds(r, assignments[k], domain, listed);
      var b := Zip(names, assignments[k]);
      assert r in [r] && BindsOver(b, r, domain) && x == InstanceOf(r, b);
    }
  }

  lemma BindingListed(r: Rule, b: Binding, domain: set<string>, listed: seq<string>)
    requires forall c :: c in listed <==> c in domain
    requires BindsOver(b, r, domain)
    ensures Values(Names(r), b) in Tuples(listed, |Names(r)|) && Zip(Names(r), Values(Names(r), b)) == b
  {
    hide Names;
    hide Tuples;
    hide Zip;
    var names := Names(r);
    NamesDistinct(r);
    ZipValues(names, b);
    TuplesAre(listed, |names|, Values(names, b));
    forall i | 0 <= i < |names| ensures Values(names, b)[i] in listed { assert names[i] in b; }
  }

  lemma TupleBinds(r: Rule, t: seq<string>, domain: set<string>, listed: seq<string>)
    requires forall c :: c in listed <==> c in domain
    requires |t| == |Names(r)| && t in Tuples(listed, |Names(r)|)
    ensures BindsOver(Zip(Names(r), t), r, domain)
  {
    hide Names;
    hide Tuples;
    var names := Names(r);
    NamesDistinct(r);
    TuplesAre(listed, |names|, t);
    var b := Zip(names, t);
    hide Zip;
    forall v | v in b ensures b[v] in domain {
      var i :| 0 <= i < |names| && names[i] == v;
      ZipAt(names, t, i);
    }
  }

  lemma NamesDistinct(r: Rule)
    ensures NoRepeats(Names(r))
  {
    DistinctSpec(BodyNames(r.body) + TermNames(r.head.args));
  }

  /** Grounds every rule over every constant and iterates to the least fixpoint. */
  method FiniteOracle(rules: seq<Rule>, facts: set<Fact>) returns (result: set<Fact>)
    ensures LeastModel(rules, facts, Domain(rules, facts), result)
  {
    var domain := Domain(rules, facts);
    hide Closed;
    hide Exhaustive;
    var instances: seq<Instance> := [];
    NoInstances(domain);
    for i := 0 to |rules|
      invariant Exhaustive(instances, rules[..i], domain)
    {
      var more := RuleInstances(rules[i], domain);
      ExhaustiveAppend(instances, more, rules[..i], rules[i], domain);
      assert rules[..i + 1] == rules[..i] + [rules[i]];
      instances := instances + more;
    }
    assert rules[..|rules|] == rules;
    var heads := set x | x in instances :: x.head;
    result := facts;
    while true
      invariant facts <= result
      invariant forall other | facts <= other && Closed(rules, domain, other) :: result <= other
      decreases |heads - result|
    {
      var added := (set x | x in instances && x.body <= result :: x.head) - result;
      if added == {} {
        FixpointClosed(instances, rules, domain, result);
        break;
      }
      forall other | facts <= other && Closed(rules, domain, other) ensures result + added <= other {
        AddedBelong(instances, rules, domain, result, added, other);
      }
      FewerLeft(heads, result, added);
      result := result + added;
    }
  }

  lemma NoInstances(domain: set<string>)
    ensures Exhaustive([], [], domain)
  {
  }

  lemma ExhaustiveAppend(a: seq<Instance>, b: seq<Instance>, rules: seq<Rule>, r: Rule, domain: set<string>)
    requires Exhaustive(a, rules, domain) && Exhaustive(b, [r], domain)
    ensures Exhaustive(a + b, rules + [r], domain)
  {
    forall s, c | s in rules + [r] && BindsOver(c, s, domain) ensures InstanceOf(s, c) in a + b {
      if s in rules { assert InstanceOf(s, c) in a; } else { assert s in [r] && InstanceOf(s, c) in b; }
    }
    forall x | x in a + b ensures exists s, c | s in rules + [r] && BindsOver(c, s, domain) :: x == InstanceOf(s, c) {
      if x in a {
        var s, c :| s in rules && BindsOver(c, s, domain) && x == InstanceOf(s, c);
        assert s in rules + [r];
      } else {
        var s, c :| s in [r] && BindsOver(c, s, domain) && x == InstanceOf(s, c);
        assert s in rules + [r];
      }
    }
  }

  lemma FixpointClosed(instances: seq<Instance>, rules: seq<Rule>, domain: set<string>, result: set<Fact>)
    requires Exhaustive(instances, rules, domain)
    requires (set x | x in instances && x.body <= result :: x.head) - result == {}
    ensures Closed(rules, domain, result)
  {
    var firing := set x | x in instances && x.body <= result :: x.head;
    forall r, b | r in rules && BindsOver(b, r, domain) && BodyIn(b, r, result) ensures Ground(b, r.head) in result {
      var x := InstanceOf(r, b);
      assert x in instances && x.body <= result && x.head in firing;
      assert x.head in result || x.head in firing - result;
    }
  }

  lemma AddedBelong(instances: seq<Instance>, rules: seq<Rule>, domain: set<string>, result: set<Fact>,
      added: set<Fact>, other: set<Fact>)
    requires Exhaustive(instances, rules, domain) && Closed(rules, domain, other) && result <= other
    requires added <= set x | x in instances && x.body <= result :: x.head
    ensures added <= other
  {
    forall f | f in added ensures f in other {
      var x :| x in instances && x.body <= result && x.head == f;
      var r, b :| r in rules && BindsOver(b, r, domain) && x == InstanceOf(r, b);
      forall a | a in r.body ensures Ground(b, a) in other { assert Ground(b, a) in x.body; }
      assert BodyIn(b, r, other);
    }
  }

  lemma FewerLeft(heads: set<Fact>, result: set<Fact>, added: set<Fact>)
    requires added <= heads && added != {} && added !! result
    ensures |heads - (result + added)| < |heads - result|
  {
    var f :| f in added;
    assert heads - result == (heads - (result + added)) + added;
    assert (heads - (result + added)) !! added;
    assert |added| >= |{f}|;
  }
}
