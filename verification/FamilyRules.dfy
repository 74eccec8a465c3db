/** The family rules, and their closure by graph traversal instead of grounding. */
module FamilyRules {
  import opened Options
  import opened Expressions
  import opened Horn
  import opened Reachability

  const ANCESTOR := "ancestorOf"
  const DYNASTY := "inDynasty"

  function Relation(name: string, s: string, t: string): Atom { Atom(name, [Var(s), Var(t)]) }

  function Transitive(): Rule {
    Rule(Relation(ANCESTOR, "x", "z"), [Relation(ANCESTOR, "x", "y"), Relation(ANCESTOR, "y", "z")])
  }

  function Inclusion(): Rule { Rule(Relation(DYNASTY, "x", "y"), [Relation(ANCESTOR, "x", "y")]) }

  function Symmetry(): Rule { Rule(Relation(DYNASTY, "y", "x"), [Relation(DYNASTY, "x", "y")]) }

  predicate Family(rules: seq<Rule>) { forall r | r in rules :: r in {Transitive(), Inclusion(), Symmetry()} }

  function Pair(name: string, a: string, b: string): Fact { Fact(name, [a, b]) }

  // ----- What it means for a set of facts to be closed under each rule -----

  ghost predicate TransitiveOver(domain: set<string>, m: set<Fact>) {
    forall a, b, c | a in domain && b in domain && c in domain && Pair(ANCESTOR, a, b) in m &&
      Pair(ANCESTOR, b, c) in m ::
      Pair(ANCESTOR, a, c) in m
  }

  ghost predicate IncludedOver(domain: set<string>, m: set<Fact>) {
    forall a, b | a in domain && b in domain && Pair(ANCESTOR, a, b) in m :: Pair(DYNASTY, a, b) in m
  }

  ghost predicate SymmetricOver(domain: set<string>, m: set<Fact>) {
    forall a, b | a in domain && b in domain && Pair(DYNASTY, a, b) in m :: Pair(DYNASTY, b, a) in m
  }

  ghost predicate FamilyClosed(rules: seq<Rule>, domain: set<string>, m: set<Fact>) {
    && (Transitive() in rules ==> TransitiveOver(domain, m))
    && (Inclusion() in rules ==> IncludedOver(domain, m))
    && (Symmetry() in rules ==> SymmetricOver(domain, m))
  }

  lemma GroundRelation(b: Binding, name: string, s: string, t: string)
    requires s in b && t in b
    ensures Ground(b, Relation(name, s, t)) == Pair(name, b[s], b[t])
  {
    assert GroundTerms(b, [Var(s), Var(t)]) == [b[s], b[t]];
  }

  lemma PairNames(s: string, t: string)
    ensures TermNames([Var(s), Var(t)]) == [s, t]
  {
    assert [Var(s), Var(t)][1..] == [Var(t)];
    assert TermNames([Var(t)]) == [t] + TermNames([]);
  }

  lemma NamesOf(r: Rule)
    ensures forall v :: v in Names(r) <==> v in BodyNames(r.body) || v in TermNames(r.head.args)
  {
    DistinctSpec(BodyNames(r.body) + TermNames(r.head.args));
  }

  lemma TransitiveNames()
    ensures forall v :: v in Names(Transitive()) <==> v in {"x", "y", "z"}
  {
    NamesOf(Transitive());
    PairNames("x", "z");
    PairNames("x", "y");
    PairNames("y", "z");
    var body := [Relation(ANCESTOR, "x", "y"), Relation(ANCESTOR, "y", "z")];
    assert body[1..] == [Relation(ANCESTOR, "y", "z")];
    assert BodyNames(body[1..]) == ["y", "z"] + BodyNames([]);
    assert BodyNames(body) == ["x", "y"] + BodyNames(body[1..]);
  }

  lemma SingleNames(r: Rule, name: string, s: string, t: string)
    requires r.body == [Relation(name, s, t)]
    requires r.head.args == [Var(s), Var(t)] || r.head.args == [Var(t), Var(s)]
    ensures forall v :: v in Names(r) <==> v in {s, t}
  {
    NamesOf(r);
    PairNames(s, t);
    PairNames(t, s);
    assert BodyNames(r.body) == [s, t] + BodyNames([]);
  }

  lemma TransitiveMeans(domain: set<string>, m: set<Fact>)
    ensures Closed([Transitive()], domain, m) <==> TransitiveOver(domain, m)
  {
    var r := Transitive();
    TransitiveNames();
    hide Names;
    if Closed([r], domain, m) {
      forall a, b, c | a in domain && b in domain && c in domain && Pair(ANCESTOR, a, b) in m &&
        Pair(ANCESTOR, b, c) in m
        ensures Pair(ANCESTOR, a, c) in m
      {
        var bind := map["x" := a, "y" := b, "z" := c];
        TransitiveGround(bind);
        assert r in [r] && BindsOver(bind, r, domain) && BodyIn(bind, r, m);
      }
    }
    if TransitiveOver(domain, m) {
      forall s, bind | s in [r] && BindsOver(bind, s, domain) && BodyIn(bind, s, m) ensures Ground(bind, s.head) in m {
        TransitiveGround(bind);
        assert Relation(ANCESTOR, "x", "y") in r.body && Relation(ANCESTOR, "y", "z") in r.body;
      }
    }
  }

  lemma TransitiveGround(b: Binding)
    requires "x" in b && "y" in b && "z" in b
    ensures Ground(b, Relation(ANCESTOR, "x", "y")) == Pair(ANCESTOR, b["x"], b["y"])
    ensures Ground(b, Relation(ANCESTOR, "y", "z")) == Pair(ANCESTOR, b["y"], b["z"])
    ensures Ground(b, Relation(ANCESTOR, "x", "z")) == Pair(ANCESTOR, b["x"], b["z"])
  {
    GroundRelation(b, ANCESTOR, "x", "y");
    GroundRelation(b, ANCESTOR, "y", "z");
    GroundRelation(b, ANCESTOR, "x", "z");
  }

  lemma InclusionMeans(domain: set<string>, m: set<Fact>)
    ensures Closed([Inclusion()], domain, m) <==> IncludedOver(domain, m)
  {
    var r := Inclusion();
    SingleNames(r, ANCESTOR, "x", "y");
    hide Names;
    if Closed([r], domain, m) {
      forall a, b | a in domain && b in domain && Pair(ANCESTOR, a, b) in m ensures Pair(DYNASTY, a, b) in m {
        var bind := map["x" := a, "y" := b];
        GroundRelation(bind, ANCESTOR, "x", "y");
        GroundRelation(bind, DYNASTY, "x", "y");
        assert r in [r] && BindsOver(bind, r, domain) && BodyIn(bind, r, m);
      }
    }
    if IncludedOver(domain, m) {
      forall s, bind | s in [r] && BindsOver(bind, s, domain) && BodyIn(bind, s, m) ensures Ground(bind, s.head) in m {
        GroundRelation(bind, ANCESTOR, "x", "y");
        GroundRelation(bind, DYNASTY, "x", "y");
        assert Relation(ANCESTOR, "x", "y") in r.body;
      }
    }
  }

  lemma SymmetryMeans(domain: set<string>, m: set<Fact>)
    ensures Closed([Symmetry()], domain, m) <==> SymmetricOver(domain, m)
  {
    var r := Symmetry();
    SingleNames(r, DYNASTY, "x", "y");
    hide Names;
    if Closed([r], domain, m) {
      forall a, b | a in domain && b in domain && Pair(DYNASTY, a, b) in m ensures Pair(DYNASTY, b, a) in m {
        var bind := map["x" := a, "y" := b];
        GroundRelation(bind, DYNASTY, "x", "y");
        GroundRelation(bind, DYNASTY, "y", "x");
        assert r in [r] && BindsOver(bind, r, domain) && BodyIn(bind, r, m);
      }
    }
    if SymmetricOver(domain, m) {
      forall s, bind | s in [r] && BindsOver(bind, s, domain) && BodyIn(bind, s, m) ensures Ground(bind, s.head) in m {
        GroundRelation(bind, DYNASTY, "x", "y");
        GroundRelation(bind, DYNASTY, "y", "x");
        assert Relation(DYNASTY, "x", "y") in r.body;
      }
    }
  }

  lemma ClosedEach(rules: seq<Rule>, domain: set<string>, m: set<Fact>)
    ensures Closed(rules, domain, m) <==> forall r | r in rules :: Closed([r], domain, m)
  {
    if Closed(rules, domain, m) {
      forall r | r in rules ensures Closed([r], domain, m) { }
    }
    if forall r | r in rules :: Closed([r], domain, m) {
      forall r, b | r in rules && BindsOver(b, r, domain) && BodyIn(b, r, m) ensures Ground(b, r.head) in m {
        assert Closed([r], domain, m) && r in [r];
      }
    }
  }

  /** Closure under family rules, said without bindings. */
  lemma FamilyClosedMeans(rules: seq<Rule>, domain: set<string>, m: set<Fact>)
    requires Family(rules)
    ensures Closed(rules, domain, m) <==> FamilyClosed(rules, domain, m)
  {
    ClosedEach(rules, domain, m);
    TransitiveMeans(domain, m);
    InclusionMeans(domain, m);
    SymmetryMeans(domain, m);
    hide *;
    hide Closed;
    FamilyClosedIs(rules, domain, m);
  }

  lemma FamilyClosedIs(rules: seq<Rule>, domain: set<string>, m: set<Fact>)
    requires Family(rules)
    requires Closed([Transitive()], domain, m) <==> TransitiveOver(domain, m)
    requires Closed([Inclusion()], domain, m) <==> IncludedOver(domain, m)
    requires Closed([Symmetry()], domain, m) <==> SymmetricOver(domain, m)
    ensures (forall r | r in rules :: Closed([r], domain, m)) <==> FamilyClosed(rules, domain, m)
  {
    hide Closed;
    hide TransitiveOver;
    hide IncludedOver;
    hide SymmetricOver;
    hide Transitive;
    hide Inclusion;
    hide Symmetry;
    if FamilyClosed(rules, domain, m) {
      forall r | r in rules ensures Closed([r], domain, m) {
        assert r == Transitive() || r == Inclusion() || r == Symmetry();
      }
    }
  }

  // ----- The closure oracle -----

  ghost predicate AncestorFacts(facts: set<Fact>) { forall f | f in facts :: f.predicate_ == ANCESTOR && |f.args| == 2 }

  /** The closure by graph traversal; it accepts the family rules with transitivity, over ancestor pairs. */
  method ExpectedClosure(facts: set<Fact>, rules: seq<Rule>) returns (r: Option<set<Fact>>)
    ensures r.Some? <==>
      && (forall s | s in rules :: s in {Transitive(), Inclusion(), Symmetry()}) && Transitive() in rules
      && forall f | f in facts :: f.predicate_ == ANCESTOR && |f.args| == 2
    ensures r.Some? ==> LeastModel(rules, facts, Domain(rules, facts), r.value)
  {
    if (exists s :: s in rules && s !in {Transitive(), Inclusion(), Symmetry()}) || Transitive() !in rules {
      return None;
    }
    if exists f | f in facts :: f.predicate_ != ANCESTOR || |f.args| != 2 { return None; }
    var edges := set f | f in facts :: (f.args[0], f.args[1]);
    var ancestors := Reachability.Reachability(edges);
    var dynasty: set<Edge> := if Inclusion() in rules then ancestors else {};
    if Symmetry() in rules {
      dynasty := dynasty + set e | e in dynasty :: (e.1, e.0);
    }
    var closure := (set e | e in ancestors :: Pair(ANCESTOR, e.0, e.1)) + set e | e in dynasty ::
      Pair(DYNASTY, e.0, e.1);
    ClosureIsLeast(rules, facts, edges, ancestors, dynasty, closure);
    r := Some(closure);
  }

  ghost predicate ClosureOf(rules: seq<Rule>, edges: set<Edge>, m: set<Fact>) {
    && (forall f | f in m :: |f.args| == 2 && f.predicate_ in {ANCESTOR, DYNASTY})
    && (forall a, b :: Pair(ANCESTOR, a, b) in m <==> Joined(edges, a, b))
    && forall a, b :: Pair(DYNASTY, a, b) in m <==>
         Inclusion() in rules && (Joined(edges, a, b) || (Symmetry() in rules && Joined(edges, b, a)))
  }

  lemma ClosureIsLeast(rules: seq<Rule>, facts: set<Fact>, edges: set<Edge>, ancestors: set<Edge>, dynasty: set<Edge>,
      closure: set<Fact>)
    requires Family(rules) && Transitive() in rules && AncestorFacts(facts)
    requires edges == set f | f in facts :: (f.args[0], f.args[1])
    requires forall a, b :: (a, b) in ancestors <==> Joined(edges, a, b)
    requires forall a, b :: (a, b) in dynasty <==>
               Inclusion() in rules && ((a, b) in ancestors || (Symmetry() in rules && (b, a) in ancestors))
    requires closure == (set e | e in ancestors :: Pair(ANCESTOR, e.0, e.1)) + set e | e in dynasty ::
      Pair(DYNASTY, e.0, e.1)
    ensures LeastModel(rules, facts, Domain(rules, facts), closure)
  {
    hide Joined;
    hide Transitive;
    hide Inclusion;
    hide Symmetry;
    hide Domain;
    forall a, b ensures Pair(ANCESTOR, a, b) in closure <==> Joined(edges, a, b) {
      if (a, b) in ancestors { var e := (a, b); assert Pair(ANCESTOR, e.0, e.1) in closure; }
    }
    forall a, b ensures Pair(DYNASTY, a, b) in closure <==> (a, b) in dynasty {
      if (a, b) in dynasty { var e := (a, b); assert Pair(DYNASTY, e.0, e.1) in closure; }
    }
    assert ClosureOf(rules, edges, closure);
    LeastOfClosure(rules, facts, edges, closure);
  }

  /** The traversal's answer contains the facts, is closed, and lies in every closed set. */
  lemma LeastOfClosure(rules: seq<Rule>, facts: set<Fact>, edges: set<Edge>, closure: set<Fact>)
    requires Family(rules) && Transitive() in rules && AncestorFacts(facts)
    requires edges == set f | f in facts :: (f.args[0], f.args[1])
    requires ClosureOf(rules, edges, closure)
    ensures LeastModel(rules, facts, Domain(rules, facts), closure)
  {
    var domain := Domain(rules, facts);
    FactsInClosure(rules, facts, edges, closure);
    FamilyClosedMeans(rules, domain, closure);
    ClosureClosed(rules, edges, domain, closure);
    forall other | facts <= other && Closed(rules, domain, other) ensures closure <= other {
      FamilyClosedMeans(rules, domain, other);
      ClosureBelow(rules, facts, edges, closure, other);
    }
    hide *;
    LeastModelIs(rules, facts, domain, closure);
  }

  lemma LeastModelIs(rules: seq<Rule>, facts: set<Fact>, domain: set<string>, m: set<Fact>)
    requires facts <= m && Closed(rules, domain, m)
    requires forall other | facts <= other && Closed(rules, domain, other) :: m <= other
    ensures LeastModel(rules, facts, domain, m)
  {
  }

  lemma FactsInClosure(rules: seq<Rule>, facts: set<Fact>, edges: set<Edge>, closure: set<Fact>)
    requires AncestorFacts(facts) && edges == set f | f in facts :: (f.args[0], f.args[1])
    requires ClosureOf(rules, edges, closure)
    ensures facts <= closure
  {
    forall f | f in facts ensures f in closure {
      assert f == Pair(ANCESTOR, f.args[0], f.args[1]);
      EdgeJoins(edges, f.args[0], f.args[1]);
    }
  }

  lemma ClosureClosed(rules: seq<Rule>, edges: set<Edge>, domain: set<string>, m: set<Fact>)
    requires ClosureOf(rules, edges, m)
    ensures FamilyClosed(rules, domain, m)
  {
    hide Joined;
    forall a, b, c | Pair(ANCESTOR, a, b) in m && Pair(ANCESTOR, b, c) in m ensures Pair(ANCESTOR, a, c) in m {
      JoinedTransitive(edges, a, b, c);
    }
  }

  lemma ClosureBelow(rules: seq<Rule>, facts: set<Fact>, edges: set<Edge>, closure: set<Fact>, other: set<Fact>)
    requires Transitive() in rules && AncestorFacts(facts)
    requires edges == set f | f in facts :: (f.args[0], f.args[1])
    requires ClosureOf(rules, edges, closure)
    requires facts <= other && FamilyClosed(rules, Domain(rules, facts), other)
    ensures closure <= other
  {
    var domain := Domain(rules, facts);
    forall a, b | Joined(edges, a, b) ensures a in domain && b in domain && Pair(ANCESTOR, a, b) in other {
      JoinedWithin(rules, facts, edges, other, a, b);
    }
    hide Joined;
    hide Domain;
    forall f | f in closure ensures f in other {
      assert f == Pair(f.predicate_, f.args[0], f.args[1]);
    }
  }

  lemma JoinedWithin(rules: seq<Rule>, facts: set<Fact>, edges: set<Edge>, other: set<Fact>, a: string, b: string)
    requires AncestorFacts(facts) && edges == set f | f in facts :: (f.args[0], f.args[1])
    requires facts <= other && TransitiveOver(Domain(rules, facts), other)
    requires Joined(edges, a, b)
    ensures a in Domain(rules, facts) && b in Domain(rules, facts) && Pair(ANCESTOR, a, b) in other
  {
    var domain := Domain(rules, facts);
    var closed := set s, t | s in domain && t in domain && Pair(ANCESTOR, s, t) in other :: (s, t);
    forall e | e in edges ensures e in closed {
      var f :| f in facts && e == (f.args[0], f.args[1]);
      assert f == Pair(ANCESTOR, e.0, e.1);
      assert e.0 in f.args && e.1 in f.args;
    }
    var p :| Walk(edges, p) && p[0] == a && p[|p| - 1] == b;
    JoinedLeast(edges, closed, p);
  }
}
