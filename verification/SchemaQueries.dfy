/** Symmetry, transitivity and subsumption questions as probes, and their answers for the family rules. */
module SchemaQueries {
  import opened Options
  import opened Horn
  import opened FamilyRules
  import opened SchemaProbes

  datatype Query = IsSymmetric(p: string) | IsTransitive(p: string) | Subsumes(sup: string, sub: string)

  /** The question itself, asked of a structure. */
  ghost predicate QueryHolds<D(!new)>(s: Structure<D>, q: Query) {
    match q
    case IsSymmetric(p) => forall x, y | s.holds(p, [x, y]) :: s.holds(p, [y, x])
    case IsTransitive(p) => forall x, y, z | s.holds(p, [x, y]) && s.holds(p, [y, z]) :: s.holds(p, [x, z])
    case Subsumes(sup, sub) => forall x, y | s.holds(sub, [x, y]) :: s.holds(sup, [x, y])
  }

  const PROBE_A := "urn:bach:zodiac:universal-probe:a"
  const PROBE_B := "urn:bach:zodiac:universal-probe:b"
  const PROBE_C := "urn:bach:zodiac:universal-probe:c"

  lemma ProbesDiffer()
    ensures PROBE_A != PROBE_B && PROBE_B != PROBE_C && PROBE_A != PROBE_C
  {
    assert PROBE_A[32] == 'a' && PROBE_B[32] == 'b' && PROBE_C[32] == 'c';
  }

  function ProbeFacts(q: Query): set<Fact> {
    match q
    case IsSymmetric(p) => {Pair(p, PROBE_A, PROBE_B)}
    case IsTransitive(p) => {Pair(p, PROBE_A, PROBE_B), Pair(p, PROBE_B, PROBE_C)}
    case Subsumes(_, sub) => {Pair(sub, PROBE_A, PROBE_B)}
  }

  function ProbeGoal(q: Query): Fact {
    match q
    case IsSymmetric(p) => Pair(p, PROBE_B, PROBE_A)
    case IsTransitive(p) => Pair(p, PROBE_A, PROBE_C)
    case Subsumes(sup, _) => Pair(sup, PROBE_A, PROBE_B)
  }

  lemma PairTrue<D(!new)>(s: Structure<D>, h: string -> D, p: string, a: string, b: string)
    ensures FactTrue(s, h, Pair(p, a, b)) <==> s.holds(p, [h(a), h(b)])
  {
    assert Mapped(h, [a, b]) == [h(a), h(b)];
  }

  /** Asking the question is asking whether the goal follows from the probe's facts. */
  lemma QueryIsProbe<D(!new)>(s: Structure<D>, q: Query)
    ensures QueryHolds(s, q) <==> Follows(s, ProbeFacts(q), ProbeGoal(q))
  {
    if QueryHolds(s, q) { QueryFollows(s, q); }
    if Follows(s, ProbeFacts(q), ProbeGoal(q)) { FollowsQuery(s, q); }
  }

  lemma QueryFollows<D(!new)>(s: Structure<D>, q: Query)
    requires QueryHolds(s, q)
    ensures Follows(s, ProbeFacts(q), ProbeGoal(q))
  {
    hide FactTrue;
    forall h: string -> D | forall f | f in ProbeFacts(q) :: FactTrue(s, h, f) ensures FactTrue(s, h, ProbeGoal(q)) {
      match q
      case IsSymmetric(p) =>
        PairTrue(s, h, p, PROBE_A, PROBE_B);
        PairTrue(s, h, p, PROBE_B, PROBE_A);
      case IsTransitive(p) =>
        PairTrue(s, h, p, PROBE_A, PROBE_B);
        PairTrue(s, h, p, PROBE_B, PROBE_C);
        PairTrue(s, h, p, PROBE_A, PROBE_C);
        assert Pair(p, PROBE_A, PROBE_B) in ProbeFacts(q) && Pair(p, PROBE_B, PROBE_C) in ProbeFacts(q);
      case Subsumes(sup, sub) =>
        PairTrue(s, h, sub, PROBE_A, PROBE_B);
        PairTrue(s, h, sup, PROBE_A, PROBE_B);
    }
  }

  /** Individuals for the three probe constants. */
  function Naming3<D>(x: D, y: D, z: D): string -> D {
    (c: string) => if c == PROBE_A then x else if c == PROBE_B then y else z
  }

  lemma FollowsQuery<D(!new)>(s: Structure<D>, q: Query)
    requires Follows(s, ProbeFacts(q), ProbeGoal(q))
    ensures QueryHolds(s, q)
  {
    ProbesDiffer();
    hide FactTrue;
    match q
    case IsSymmetric(p) =>
      forall x, y | s.holds(p, [x, y]) ensures s.holds(p, [y, x]) {
        var h := Naming3(x, y, y);
        PairTrue(s, h, p, PROBE_A, PROBE_B);
        PairTrue(s, h, p, PROBE_B, PROBE_A);
        assert FactTrue(s, h, ProbeGoal(q));
      }
    case IsTransitive(p) =>
      forall x, y, z | s.holds(p, [x, y]) && s.holds(p, [y, z]) ensures s.holds(p, [x, z]) {
        var h := Naming3(x, y, z);
        PairTrue(s, h, p, PROBE_A, PROBE_B);
        PairTrue(s, h, p, PROBE_B, PROBE_C);
        PairTrue(s, h, p, PROBE_A, PROBE_C);
        assert FactTrue(s, h, ProbeGoal(q));
      }
    case Subsumes(sup, sub) =>
      forall x, y | s.holds(sub, [x, y]) ensures s.holds(sup, [x, y]) {
        var h := Naming3(x, y, y);
        PairTrue(s, h, sub, PROBE_A, PROBE_B);
        PairTrue(s, h, sup, PROBE_A, PROBE_B);
        assert FactTrue(s, h, ProbeGoal(q));
      }
  }

  lemma PairConstants(facts: set<Fact>, p: string, a: string, b: string)
    requires Pair(p, a, b) in facts
    ensures a in FactConstants(facts) && b in FactConstants(facts)
  {
    var f := Pair(p, a, b);
    assert f.args[0] in f.args && f.args[1] in f.args;
  }

  lemma ProbeConstants(q: Query)
    ensures PROBE_A in FactConstants(ProbeFacts(q))
    ensures forall c | c in ProbeGoal(q).args :: c in FactConstants(ProbeFacts(q))
    ensures FactConstants(ProbeFacts(q)) <= {PROBE_A, PROBE_B, PROBE_C}
  {
    var facts := ProbeFacts(q);
    forall c | c in FactConstants(facts) ensures c in {PROBE_A, PROBE_B, PROBE_C} {
      var f :| f in facts && c in f.args;
    }
    hide FactConstants;
    match q
    case IsSymmetric(p) => PairConstants(facts, p, PROBE_A, PROBE_B);
    case IsTransitive(p) =>
      PairConstants(facts, p, PROBE_A, PROBE_B);
      PairConstants(facts, p, PROBE_B, PROBE_C);
    case Subsumes(_, sub) => PairConstants(facts, sub, PROBE_A, PROBE_B);
  }

  predicate ProbeFresh(rules: seq<Rule>) { RulesConstants(rules) !! {PROBE_A, PROBE_B, PROBE_C} }

  /** For rules that do not mention the probe constants, the probe answers the question asked of all models. */
  lemma QueryDecided(rules: seq<Rule>, q: Query, m: set<Fact>)
    requires ProbeFresh(rules) && LeastModel(rules, ProbeFacts(q), Domain(rules, ProbeFacts(q)), m)
    ensures ProbeGoal(q) in m <==> forall s: Structure<string> | ModelOf(s, rules) :: QueryHolds(s, q)
  {
    hide QueryHolds;
    hide Follows;
    hide LeastModel;
    hide ModelOf;
    ProbeConstants(q);
    ProbeDecides(rules, ProbeFacts(q), ProbeGoal(q), m);
    forall s: Structure<string>
      ensures QueryHolds(s, q) <==> Follows(s, ProbeFacts(q), ProbeGoal(q))
    {
      QueryIsProbe(s, q);
    }
  }

  /** A positive answer holds in every model, whatever its domain. */
  lemma QuerySound<D(!new)>(rules: seq<Rule>, q: Query, m: set<Fact>, s: Structure<D>)
    requires ProbeFresh(rules) && LeastModel(rules, ProbeFacts(q), Domain(rules, ProbeFacts(q)), m)
    requires ProbeGoal(q) in m && ModelOf(s, rules)
    ensures QueryHolds(s, q)
  {
    ProbeConstants(q);
    ProbeSound(rules, ProbeFacts(q), ProbeGoal(q), m, s);
    QueryIsProbe(s, q);
  }

  // ----- The family rules' answers -----

  function OracleAnswer(rules: seq<Rule>, q: Query): bool {
    match q
    case IsSymmetric(p) => p == DYNASTY && Symmetry() in rules
    case IsTransitive(p) => p == ANCESTOR && Transitive() in rules
    case Subsumes(sup, sub) => sup == sub || (sup == DYNASTY && sub == ANCESTOR && Inclusion() in rules)
  }

  predicate FamilyQuery(q: Query) {
    match q
    case IsSymmetric(p) => p in {ANCESTOR, DYNASTY}
    case IsTransitive(p) => p in {ANCESTOR, DYNASTY}
    case Subsumes(sup, sub) => sup in {ANCESTOR, DYNASTY} && sub in {ANCESTOR, DYNASTY}
  }

  lemma NamesDiffer()
    ensures ANCESTOR != DYNASTY
  {
    assert |ANCESTOR| != |DYNASTY|;
  }

  /** The oracle's table is the least model's answer. */
  lemma AnswerInModel(rules: seq<Rule>, q: Query, m: set<Fact>)
    requires Family(rules) && FamilyQuery(q) && LeastModel(rules, ProbeFacts(q), Domain(rules, ProbeFacts(q)), m)
    ensures ProbeGoal(q) in m <==> OracleAnswer(rules, q)
  {
    hide Domain;
    hide Closed;
    var domain := Domain(rules, ProbeFacts(q));
    FamilyClosedMeans(rules, domain, m);
    if OracleAnswer(rules, q) {
      AnswerDerived(rules, q, domain, m);
    } else {
      Refuted(rules, q, domain);
      FamilyClosedMeans(rules, domain, Counterexample(q));
    }
  }

  lemma AnswerDerived(rules: seq<Rule>, q: Query, domain: set<string>, m: set<Fact>)
    requires OracleAnswer(rules, q) && ProbeFacts(q) <= m && FamilyClosed(rules, domain, m)
    requires domain == Domain(rules, ProbeFacts(q))
    ensures ProbeGoal(q) in m
  {
    hide Transitive;
    hide Inclusion;
    hide Symmetry;
    ProbeConstants(q);
    ConstantsInDomain(rules, ProbeFacts(q));
    hide Domain;
    hide FactConstants;
    match q
    case IsSymmetric(p) => assert Pair(p, PROBE_A, PROBE_B) in m && PROBE_B in ProbeGoal(q).args;
    case IsTransitive(p) =>
      MiddleConstant(p);
      assert Pair(p, PROBE_A, PROBE_B) in m && Pair(p, PROBE_B, PROBE_C) in m && PROBE_C in ProbeGoal(q).args;
    case Subsumes(sup, sub) => assert Pair(sub, PROBE_A, PROBE_B) in m && PROBE_B in ProbeGoal(q).args;
  }

  lemma MiddleConstant(p: string)
    ensures PROBE_B in FactConstants(ProbeFacts(IsTransitive(p)))
  {
    var f := Pair(p, PROBE_A, PROBE_B);
    assert f in ProbeFacts(IsTransitive(p)) && f.args[1] in f.args;
  }

  lemma ConstantsInDomain(rules: seq<Rule>, facts: set<Fact>)
    ensures FactConstants(facts) <= Domain(rules, facts)
  {
  }

  /** A closed set that contains the probe's facts but misses the goal. */
  function Counterexample(q: Query): set<Fact> {
    match q
    case IsSymmetric(p) =>
      if p == DYNASTY then {Pair(DYNASTY, PROBE_A, PROBE_B)}
      else {Pair(ANCESTOR, PROBE_A, PROBE_B), Pair(DYNASTY, PROBE_A, PROBE_B), Pair(DYNASTY, PROBE_B, PROBE_A)}
    case IsTransitive(p) =>
      var links := {Pair(DYNASTY, PROBE_A, PROBE_B), Pair(DYNASTY, PROBE_B, PROBE_A), Pair(DYNASTY, PROBE_B, PROBE_C),
        Pair(DYNASTY, PROBE_C, PROBE_B)};
      if p == DYNASTY then links else links + {Pair(ANCESTOR, PROBE_A, PROBE_B), Pair(ANCESTOR, PROBE_B, PROBE_C)}
    case Subsumes(sup, _) =>
      if sup == DYNASTY then {Pair(ANCESTOR, PROBE_A, PROBE_B)} else
        {Pair(DYNASTY, PROBE_A, PROBE_B), Pair(DYNASTY, PROBE_B, PROBE_A)}
  }

  lemma PairsInjective()
    ensures forall p, a, b, p', a', b' :: Pair(p, a, b) == Pair(p', a', b') <==> p == p' && a == a' && b == b'
  {
    forall p, a, b, p', a', b' | Pair(p, a, b) == Pair(p', a', b') ensures p == p' && a == a' && b == b' {
      assert [a, b][0] == [a', b'][0] && [a, b][1] == [a', b'][1];
    }
  }

  lemma Refuted(rules: seq<Rule>, q: Query, domain: set<string>)
    requires FamilyQuery(q) && !OracleAnswer(rules, q)
    ensures ProbeFacts(q) <= Counterexample(q) && ProbeGoal(q) !in Counterexample(q)
    ensures FamilyClosed(rules, domain, Counterexample(q))
  {
    hide Transitive;
    hide Inclusion;
    hide Symmetry;
    ProbesDiffer();
    NamesDiffer();
    PairsInjective();
    hide Pair;
  }

  /** One least model over fresh constants, in place of the native engine; other predicates are rejected. */
  method SchemaProbe(rules: seq<Rule>, q: Query) returns (r: Option<bool>)
    ensures r.Some? <==>
      match q
      case IsSymmetric(p) => p in {ANCESTOR, DYNASTY}
      case IsTransitive(p) => p in {ANCESTOR, DYNASTY}
      case Subsumes(sup, sub) => sup in {ANCESTOR, DYNASTY} && sub in {ANCESTOR, DYNASTY}
    ensures r.Some? && ProbeFresh(rules) ==>
      (r.value <==> forall s: Structure<string> | ModelOf(s, rules) :: QueryHolds(s, q))
    ensures r.Some? && Family(rules) ==> r.value == OracleAnswer(rules, q)
  {
    if !FamilyQuery(q) { return None; }
    var model := FiniteOracle(rules, ProbeFacts(q));
    hide *;
    if ProbeFresh(rules) { QueryDecided(rules, q, model); }
    if Family(rules) { AnswerInModel(rules, q, model); }
    r := Some(ProbeGoal(q) in model);
  }
}
