/** Universal questions about rules, answered by one least model over fresh constants. */
module SchemaProbes {
  import opened Horn
  import opened FamilyRules

  // ----- Structures over any domain -----

  datatype Structure<!D> = Structure(holds: (string, seq<D>) -> bool, constant: string -> D)

  function TermValue<D>(s: Structure<D>, v: string -> D, t: Term): D {
    match t
    case Var(x) => v(x)
    case Const(c) => s.constant(c)
  }

  function TermValues<D>(s: Structure<D>, v: string -> D, ts: seq<Term>): (r: seq<D>)
    ensures |r| == |ts| && forall i | 0 <= i < |r| :: r[i] == TermValue(s, v, ts[i])
  {
    seq(|ts|, i requires 0 <= i < |ts| => TermValue(s, v, ts[i]))
  }

  function Mapped<D>(h: string -> D, cs: seq<string>): (r: seq<D>)
    ensures |r| == |cs| && forall i | 0 <= i < |r| :: r[i] == h(cs[i])
  {
    seq(|cs|, i requires 0 <= i < |cs| => h(cs[i]))
  }

  ghost predicate AtomTrue<D(!new)>(s: Structure<D>, v: string -> D, a: Atom) {
    s.holds(a.predicate_, TermValues(s, v, a.args))
  }

  ghost predicate BodyTrue<D(!new)>(s: Structure<D>, v: string -> D, body: seq<Atom>) {
    forall a | a in body :: AtomTrue(s, v, a)
  }

  ghost predicate RuleTrue<D(!new)>(s: Structure<D>, r: Rule) {
    forall v: string -> D | BodyTrue(s, v, r.body) :: AtomTrue(s, v, r.head)
  }

  ghost predicate ModelOf<D(!new)>(s: Structure<D>, rules: seq<Rule>) { forall r | r in rules :: RuleTrue(s, r) }

  /** The fact, with its constants standing for any individuals. */
  ghost predicate FactTrue<D(!new)>(s: Structure<D>, h: string -> D, f: Fact) {
    s.holds(f.predicate_, Mapped(h, f.args))
  }

  /** Wherever the facts hold of some individuals, so does the goal. */
  ghost predicate Follows<D(!new)>(s: Structure<D>, facts: set<Fact>, goal: Fact) {
    forall h: string -> D | forall f | f in facts :: FactTrue(s, h, f) :: FactTrue(s, h, goal)
  }

  function FactConstants(facts: set<Fact>): set<string> { set f, c | f in facts && c in f.args :: c }

  function RulesConstants(rules: seq<Rule>): set<string> { set r, c | r in rules && c in RuleConstants(r) :: c }

  predicate Fresh(rules: seq<Rule>, facts: set<Fact>) { RulesConstants(rules) !! FactConstants(facts) }

  // ----- Soundness: what the probe derives holds in every model -----

  /** Individuals for the constants: the given ones for the probe's, the structure's own for the rest. */
  function Naming<D>(s: Structure<D>, h: string -> D, facts: set<Fact>): string -> D {
    (c: string) => if c in FactConstants(facts) then h(c) else s.constant(c)
  }

  lemma ProbeSound<D(!new)>(rules: seq<Rule>, facts: set<Fact>, goal: Fact, m: set<Fact>, s: Structure<D>)
    requires Fresh(rules, facts) && LeastModel(rules, facts, Domain(rules, facts), m)
    requires goal in m && (forall c | c in goal.args :: c in FactConstants(facts))
    requires ModelOf(s, rules)
    ensures Follows(s, facts, goal)
  {
    var domain := Domain(rules, facts);
    forall h: string -> D | forall f | f in facts :: FactTrue(s, h, f) ensures FactTrue(s, h, goal) {
      var g := Naming(s, h, facts);
      var holding := set f | f in m && FactTrue(s, g, f);
      forall f | f in facts ensures f in holding {
        assert FactTrue(s, h, f);
        SameNames(s, h, facts, f);
      }
      HoldingClosed(rules, facts, m, s, g, h, holding);
      assert goal in holding;
      SameNames(s, h, facts, goal);
    }
  }

  lemma SameNames<D(!new)>(s: Structure<D>, h: string -> D, facts: set<Fact>, f: Fact)
    requires forall c | c in f.args :: c in FactConstants(facts)
    ensures FactTrue(s, h, f) <==> FactTrue(s, Naming(s, h, facts), f)
  {
    var g := Naming(s, h, facts);
    assert Mapped(h, f.args) == Mapped(g, f.args);
  }

  lemma HoldingClosed<D(!new)>(rules: seq<Rule>, facts: set<Fact>, m: set<Fact>, s: Structure<D>, g: string -> D,
      h: string -> D, holding: set<Fact>)
    requires Fresh(rules, facts) && Closed(rules, Domain(rules, facts), m) && ModelOf(s, rules)
    requires g == Naming(s, h, facts)
    requires holding == set f | f in m && FactTrue(s, g, f)
    ensures Closed(rules, Domain(rules, facts), holding)
  {
    var domain := Domain(rules, facts);
    forall r, b | r in rules && BindsOver(b, r, domain) && BodyIn(b, r, holding) ensures Ground(b, r.head) in holding {
      assert BodyIn(b, r, m) by {
        forall a | a in r.body ensures Ground(b, a) in m { assert Ground(b, a) in holding; }
      }
      assert Ground(b, r.head) in m;
      assert Ground(b, r.head) in holding by { InstanceHolds(rules, facts, s, g, h, holding, r, b); }
    }
  }

  lemma InstanceHolds<D(!new)>(rules: seq<Rule>, facts: set<Fact>, s: Structure<D>, g: string -> D, h: string -> D,
      holding: set<Fact>, r: Rule, b: Binding)
    requires Fresh(rules, facts) && ModelOf(s, rules) && g == Naming(s, h, facts) && r in rules
    requires BindsOver(b, r, Domain(rules, facts)) && BodyIn(b, r, holding)
    requires forall f | f in holding :: FactTrue(s, g, f)
    ensures FactTrue(s, g, Ground(b, r.head))
  {
    hide Domain;
    hide FactTrue;
    hide AtomTrue;
    hide Names;
    hide Ground;
    hide Naming;
    var v := (x: string) => if x in b then g(b[x]) else g(x);
    forall a | a in r.body ensures AtomTrue(s, v, a) {
      assert FactTrue(s, g, Ground(b, a));
      BodyNamesOf(r, a);
      BodyConstants(rules, r, a);
      GroundTrue(rules, facts, s, g, h, v, b, a);
    }
    assert RuleTrue(s, r) && BodyTrue(s, v, r.body);
    BodyConstants(rules, r, r.head);
    HeadNamesOf(r);
    GroundTrue(rules, facts, s, g, h, v, b, r.head);
  }

  lemma BodyConstants(rules: seq<Rule>, r: Rule, a: Atom)
    requires r in rules && (a in r.body || a == r.head)
    ensures forall t | t in a.args && t.Const? :: t.value in RulesConstants(rules)
  {
    forall t | t in a.args && t.Const? ensures t.value in RulesConstants(rules) {
      assert t.value in RuleConstants(r);
    }
  }

  lemma {:induction false} TermNamesHave(ts: seq<Term>)
    ensures forall t | t in ts && t.Var? :: t.name in TermNames(ts)
  {
    if ts != [] {
      TermNamesHave(ts[1..]);
      forall t | t in ts && t.Var? ensures t.name in TermNames(ts) { assert t == ts[0] || t in ts[1..]; }
    }
  }

  lemma {:induction false} BodyNamesHave(body: seq<Atom>, a: Atom)
    requires a in body
    ensures forall t | t in a.args && t.Var? :: t.name in BodyNames(body)
  {
    if a == body[0] { TermNamesHave(a.args); } else { BodyNamesHave(body[1..], a); }
  }

  lemma BodyNamesOf(r: Rule, a: Atom)
    requires a in r.body
    ensures forall t | t in a.args && t.Var? :: t.name in Names(r)
  {
    NamesOf(r);
    BodyNamesHave(r.body, a);
  }

  lemma HeadNamesOf(r: Rule)
    ensures forall t | t in r.head.args && t.Var? :: t.name in Names(r)
  {
    NamesOf(r);
    TermNamesHave(r.head.args);
  }

  lemma GroundTrue<D(!new)>(rules: seq<Rule>, facts: set<Fact>, s: Structure<D>, g: string -> D, h: string -> D,
      v: string -> D, b: Binding, a: Atom)
    requires Fresh(rules, facts) && g == Naming(s, h, facts)
    requires forall x | x in b :: v(x) == g(b[x])
    requires forall t | t in a.args && t.Var? :: t.name in b
    requires forall t | t in a.args && t.Const? :: t.value in RulesConstants(rules)
    ensures FactTrue(s, g, Ground(b, a)) <==> AtomTrue(s, v, a)
  {
    var f := Ground(b, a);
    forall i | 0 <= i < |a.args| ensures g(f.args[i]) == TermValue(s, v, a.args[i]) { assert a.args[i] in a.args; }
    assert Mapped(g, f.args)
        == TermValues(s, v, a.args);
  }

  // ----- Completeness: what the probe does not derive fails in some model -----

  /** Constants outside the domain behave as one constant inside it. */
  function Clamp(domain: set<string>, inside: string, c: string): string { if c in domain then c else inside }

  function ClampAll(domain: set<string>, inside: string, cs: seq<string>): (r: seq<string>)
    ensures |r| == |cs| && forall i | 0 <= i < |r| :: r[i] == Clamp(domain, inside, cs[i])
  {
    seq(|cs|, i requires 0 <= i < |cs| => Clamp(domain, inside, cs[i]))
  }

  function Herbrand(m: set<Fact>, domain: set<string>, inside: string): Structure<string> {
    Structure((p: string, cs: seq<string>) => Fact(p, ClampAll(domain, inside, cs)) in m, c => c)
  }

  lemma HerbrandModels(rules: seq<Rule>, m: set<Fact>, domain: set<string>, inside: string)
    requires Closed(rules, domain, m) && inside in domain && RulesConstants(rules) <= domain
    ensures ModelOf(Herbrand(m, domain, inside), rules)
  {
    hide Closed;
    var s := Herbrand(m, domain, inside);
    hide Herbrand;
    forall r | r in rules ensures RuleTrue(s, r) {
      forall v: string -> string | BodyTrue(s, v, r.body) ensures AtomTrue(s, v, r.head) {
        HerbrandStep(rules, m, domain, inside, r, v);
      }
    }
  }

  function BindingOf(r: Rule, domain: set<string>, inside: string, v: string -> string): Binding {
    map x | x in Names(r) :: Clamp(domain, inside, v(x))
  }

  lemma HerbrandStep(rules: seq<Rule>, m: set<Fact>, domain: set<string>, inside: string, r: Rule, v: string -> string)
    requires Closed(rules, domain, m) && inside in domain && RulesConstants(rules) <= domain && r in rules
    requires BodyTrue(Herbrand(m, domain, inside), v, r.body)
    ensures AtomTrue(Herbrand(m, domain, inside), v, r.head)
  {
    hide Names;
    hide Ground;
    hide Herbrand;
    hide RulesConstants;
    hide AtomTrue;
    var s := Herbrand(m, domain, inside);
    var b := BindingOf(r, domain, inside, v);
    forall a | a in r.body ensures Ground(b, a) in m {
      assert AtomTrue(s, v, a);
      BodyNamesOf(r, a);
      BodyConstants(rules, r, a);
      HerbrandAtom(m, domain, inside, r, v, a);
    }
    assert BindsOver(b, r, domain) && BodyIn(b, r, m);
    HeadNamesOf(r);
    BodyConstants(rules, r, r.head);
    HerbrandAtom(m, domain, inside, r, v, r.head);
  }

  lemma HerbrandAtom(m: set<Fact>, domain: set<string>, inside: string, r: Rule, v: string -> string, a: Atom)
    requires inside in domain
    requires forall t | t in a.args && t.Var? :: t.name in Names(r)
    requires forall t | t in a.args && t.Const? :: t.value in domain
    ensures AtomTrue(Herbrand(m, domain, inside), v, a) <==> Ground(BindingOf(r, domain, inside, v), a) in m
  {
    hide Names;
    var s := Herbrand(m, domain, inside);
    var b := BindingOf(r, domain, inside, v);
    var values := TermValues(s, v, a.args);
    HerbrandHolds(m, domain, inside, a.predicate_, values);
    forall i | 0 <= i < |a.args| ensures ClampAll(domain, inside, values)[i] == GroundTerm(b, a.args[i]) {
      assert a.args[i] in a.args;
    }
    assert ClampAll(domain, inside, values) == GroundTerms(b, a.args);
  }

  lemma ProbeComplete(rules: seq<Rule>, facts: set<Fact>, goal: Fact, m: set<Fact>)
    requires LeastModel(rules, facts, Domain(rules, facts), m) && FactConstants(facts) != {}
    requires goal !in m && forall c | c in goal.args :: c in FactConstants(facts)
    ensures exists s: Structure<string> :: ModelOf(s, rules) && !Follows(s, facts, goal)
  {
    var domain := Domain(rules, facts);
    var inside :| inside in FactConstants(facts);
    assert domain == FactConstants(facts) + RulesConstants(rules);
    var s := Herbrand(m, domain, inside);
    HerbrandModels(rules, m, domain, inside);
    var h := (c: string) => c;
    forall f | f in facts || f == goal ensures FactTrue(s, h, f) <==> f in m {
      HerbrandFact(m, domain, inside, h, f);
    }
    assert !FactTrue(s, h, goal);
  }

  lemma HerbrandFact(m: set<Fact>, domain: set<string>, inside: string, h: string -> string, f: Fact)
    requires (forall c :: h(c) == c) && forall c | c in f.args :: c in domain
    ensures FactTrue(Herbrand(m, domain, inside), h, f) <==> f in m
  {
    var values := Mapped(h, f.args);
    HerbrandHolds(m, domain, inside, f.predicate_, values);
    forall i | 0 <= i < |f.args|
      ensures ClampAll(domain, inside, values)[i] == f.args[i]
    {
      assert f.args[i] in f.args;
    }
    assert ClampAll(domain, inside, values) == f.args;
  }

  lemma HerbrandHolds(m: set<Fact>, domain: set<string>, inside: string, p: string, cs: seq<string>)
    ensures Herbrand(m, domain, inside).holds(p, cs) <==> Fact(p, ClampAll(domain, inside, cs)) in m
  {
  }

  /** The probe decides the universal question. */
  lemma ProbeDecides(rules: seq<Rule>, facts: set<Fact>, goal: Fact, m: set<Fact>)
    requires Fresh(rules, facts) && LeastModel(rules, facts, Domain(rules, facts), m) && FactConstants(facts) != {}
    requires forall c | c in goal.args :: c in FactConstants(facts)
    ensures goal in m <==> forall s: Structure<string> | ModelOf(s, rules) :: Follows(s, facts, goal)
  {
    if goal in m {
      forall s: Structure<string> | ModelOf(s, rules) ensures Follows(s, facts, goal) {
        ProbeSound(rules, facts, goal, m, s);
      }
    } else {
      ProbeComplete(rules, facts, goal, m);
    }
  }
}
