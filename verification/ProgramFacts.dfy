/** Which ground facts a compiled program holds. */
module ProgramFacts {
  import opened Options
  import opened Expressions
  import opened Normalization
  import opened Axioms
  import opened Rules
  import opened Results
  import opened Translation

  // ----- What is asserted is recorded -----

  /** The facts that an assertion puts into the program. */
  ghost predicate Recorded(facts: set<Atom>, ax: Axiom) {
    match ax
    case NamedIndividual(a) => TopAtom(Const(a)) in facts
    case ClassAssertion(a, c) =>
      && (Normalize(c).Top? ==> TopAtom(Const(a)) in facts)
      && (Normalize(c).Class? ==> ClassAtom(Normalize(c).name, Const(a)) in facts)
    case PropertyAssertion(name, a, b) => RoleAtom(name, Const(a), Const(b)) in facts
    case SameAs(a, b) => EqAtom(Const(a), Const(b)) in facts
    case DifferentFrom(a, b) => NeqAtom(Const(a), Const(b)) in facts
    case AllDifferent(ns) => forall i, j | 0 <= i < j < |ns| :: NeqAtom(Const(ns[i]), Const(ns[j])) in facts
    case _ => true
  }

  lemma RecordedLater(a: set<Atom>, b: set<Atom>, ax: Axiom)
    requires Recorded(a, ax) && a <= b
    ensures Recorded(b, ax)
  {
  }

  lemma FactStored(st: State, a: Atom)
    requires GroundAtom(a)
    ensures Fact(st, a) == Ok(st.(facts := st.facts + {a}))
  {
  }

  lemma {:induction false} AllStored(st: State, clauses: seq<Rule>, i: nat)
    requires EmitAll(st, clauses).Ok? && i < |clauses|
    requires clauses[i].body == [] && clauses[i].head.Some? && GroundAtom(clauses[i].head.value)
    ensures clauses[i].head.value in EmitAll(st, clauses).value.facts
    decreases |clauses|
  {
    var next := Emit(st, clauses[0].head, clauses[0].body).value;
    if i > 0 { AllStored(next, clauses[1..], i - 1); }
  }

  lemma DifferentStored(st: State, ns: seq<Node>, i: nat, j: nat)
    requires EmitAll(st, Different(Combinations(Constants(ns)), [])).Ok? && i < j < |ns|
    ensures NeqAtom(Const(ns[i]), Const(ns[j])) in EmitAll(st, Different(Combinations(Constants(ns)), [])).value.facts
  {
    hide EmitAll;
    hide Combinations;
    var terms := Constants(ns);
    CombinationsAre(terms, i, j);
    var k :| 0 <= k < |Combinations(terms)| && Combinations(terms)[k] == (terms[i], terms[j]);
    AllStored(st, Different(Combinations(terms), []), k);
  }

  lemma AxiomRecorded(level: nat, st: State, ax: Axiom)
    requires CompileAxiom(level, st, ax).Ok?
    ensures Recorded(CompileAxiom(level, st, ax).value.facts, ax)
  {
    hide CompileClassAxiom;
    hide CompileRoleAxiom;
    hide CompileCharacteristic;
    hide EmitAll;
    hide Normalize;
    match ax
    case ClassAssertion(a, c) => MembershipRecorded(level, st, a, Normalize(c));
    case PropertyAssertion(name, a, b) => FactStored(st, RoleAtom(name, Const(a), Const(b)));
    case SameAs(a, b) => FactStored(st, EqAtom(Const(a), Const(b)));
    case DifferentFrom(a, b) => FactStored(st, NeqAtom(Const(a), Const(b)));
    case AllDifferent(ns) =>
      forall i, j | 0 <= i < j < |ns|
        ensures NeqAtom(Const(ns[i]), Const(ns[j])) in CompileAxiom(level, st, ax).value.facts
      {
        DifferentStored(st, ns, i, j);
      }
    case NamedIndividual(a) => FactStored(st, TopAtom(Const(a)));
    case _ =>
  }

  lemma MembershipRecorded(level: nat, st: State, a: Node, e: Expr)
    requires Head(level, st, e, Const(a), []).Ok?
    ensures e.Top? ==> TopAtom(Const(a)) in Head(level, st, e, Const(a), []).value.facts
    ensures e.Class? ==> ClassAtom(e.name, Const(a)) in Head(level, st, e, Const(a), []).value.facts
  {
    hide HeadEach;
    hide HeadOver;
    hide Body;
    hide Normalize;
    if e.Top? { FactStored(st, TopAtom(Const(a))); }
    if e.Class? { FactStored(st, ClassAtom(e.name, Const(a))); }
  }

  lemma {:induction false} AxiomsRecorded(level: nat, st: State, axioms: seq<Axiom>, i: nat)
    requires CompileAxioms(level, st, axioms).Ok? && i < |axioms|
    ensures Recorded(CompileAxioms(level, st, axioms).value.facts, axioms[i])
    decreases |axioms|
  {
    hide CompileAxiom;
    hide Recorded;
    var next := CompileAxiom(level, st, axioms[0]).value;
    if i == 0 {
      AxiomRecorded(level, st, axioms[0]);
      RecordedLater(next.facts, CompileAxioms(level, next, axioms[1..]).value.facts, axioms[0]);
    } else {
      AxiomsRecorded(level, next, axioms[1..], i - 1);
    }
  }

  // ----- Only named individuals are recorded as being in the domain -----

  /** The consequent says, of an individual itself and at no other place, that it is in the domain. */
  predicate SaysTop(e: Expr)
    decreases e
  {
    match e
    case Top => true
    case Junction(_, args) => args == [] || exists c | c in args :: SaysTop(c)
    case Min(_, n) => n == 0
    case Exact(_, n) => n == 0
    case _ => false
  }

  lemma {:induction false} NormalSaysTop(e: Expr)
    requires Normal(e)
    ensures SaysTop(e) <==> e == Top
    decreases e
  {
    if e.Junction? {
      forall c | c in e.args ensures !SaysTop(c) { NormalSaysTop(c); }
    }
  }

  /** No new fact puts `a` in the domain, unless the consequent says so of `a` itself. */
  ghost predicate TopFrom(st: State, r: Result<State>, a: Node, said: bool) {
    r.Ok? && TopAtom(Const(a)) in r.value.facts ==> TopAtom(Const(a)) in st.facts || said
  }

  lemma EmitTop(st: State, head: Option<Atom>, raw: seq<Atom>, a: Node)
    ensures TopFrom(st, Emit(st, head, raw), a, head == Some(TopAtom(Const(a))))
  {
  }

  lemma {:induction false} EmitAllTop(st: State, clauses: seq<Rule>, a: Node)
    requires forall c | c in clauses :: c.head != Some(TopAtom(Const(a)))
    ensures TopFrom(st, EmitAll(st, clauses), a, false)
    decreases |clauses|
  {
    hide Emit;
    if clauses != [] {
      EmitTop(st, clauses[0].head, clauses[0].body, a);
      var next := Emit(st, clauses[0].head, clauses[0].body);
      if next.Ok? { EmitAllTop(next.value, clauses[1..], a); }
    }
  }

  lemma MinTop(level: nat, st: State, p: Property, n: nat, x: Term, body: seq<Atom>, a: Node)
    ensures TopFrom(st, HeadMin(level, st, p, n, x, body), a, n == 0 && x == Const(a))
  {
    hide Emit;
    hide EmitAll;
    if n == 0 {
      EmitTop(st, Some(TopAtom(x)), body, a);
    } else {
      var witnesses := Witnesses(Min(p, n), x, n);
      EmitAllTop(st, Edges(p, x, witnesses, body), a);
      var linked := EmitAll(st, Edges(p, x, witnesses, body));
      if linked.Ok? { EmitAllTop(linked.value, Different(Combinations(witnesses), body), a); }
    }
  }

  lemma MaxTop(level: nat, st: State, p: Property, n: nat, x: Term, body: seq<Atom>, a: Node)
    ensures TopFrom(st, HeadMax(level, st, p, n, x, body), a, false)
  {
  }

  lemma {:induction false} HeadTopFrom(level: nat, st: State, e: Expr, x: Term, body: seq<Atom>, a: Node)
    ensures TopFrom(st, Head(level, st, e, x, body), a, SaysTop(e) && x == Const(a))
    decreases Weight(e), if x.Skolem? then 2 else 1, 0
  {
    hide Emit;
    hide EmitAll;
    hide HeadOver;
    hide HeadEach;
    hide HeadMin;
    hide HeadMax;
    hide Body;
    hide Normalize;
    hide NegatedOperands;
    hide Positives;
    if Named(e, x) {
      NamedTop(level, st, e, x, body, a);
    } else {
      match e
      case Class(c) => EmitTop(st, Some(ClassAtom(c, x)), body, a);
      case Top => EmitTop(st, Some(TopAtom(x)), body, a);
      case Bottom => EmitTop(st, None, body, a);
      case Junction(And, args) =>
        EmitTop(st, Some(TopAtom(x)), body, a);
        EachTop(level, st, args, x, body, a);
      case Junction(Or, args) => OrTop(level, st, args, x, body, a);
      case Value(p, b) => EmitTop(st, Some(RoleFor(p, x, Const(b))), body, a);
      case Forall(p, c) => ForallTop(level, st, p, c, x, body, a);
      case Exists(p, c) => ExistsTop(level, st, p, c, x, body, a);
      case OneOf(items) =>
        EmitTop(st, None, body, a);
        if |items| == 1 { EmitTop(st, Some(EqAtom(x, Const(items[0]))), body, a); }
      case Not(c) =>
        var negative := Body(level, st, c, x, true);
        if negative.Ok? { EmitAllTop(negative.value.st, Clauses(None, body, negative.value.alternatives), a); }
      case Min(p, n) => MinTop(level, st, p, n, x, body, a);
      case Max(p, n) => MaxTop(level, st, p, n, x, body, a);
      case Exact(p, n) =>
        MinTop(level, st, p, n, x, body, a);
        var atLeast := HeadMin(level, st, p, n, x, body);
        if atLeast.Ok? { MaxTop(level, atLeast.value, p, n, x, body, a); }
    }
  }

  lemma {:induction false} NamedTop(level: nat, st: State, e: Expr, x: Term, body: seq<Atom>, a: Node)
    requires Named(e, x)
    ensures TopFrom(st, Head(level, st, e, x, body), a, false)
    decreases Weight(e), 1, 1
  {
    hide Emit;
    EmitTop(st, Some(HeadName(e, x)), body, a);
    var named := Emit(st, Some(HeadName(e, x)), body);
    if named.Ok? && e !in named.value.headDefs {
      var entered := named.value.(headDefs := named.value.headDefs + {e});
      var y := entered.Next();
      HeadTopFrom(level, entered.Bump(), e, y, [HeadName(e, y)], a);
    }
  }

  lemma {:induction false} ForallTop(level: nat, st: State, p: Property, c: Expr, x: Term, body: seq<Atom>, a: Node)
    requires !Named(Forall(p, c), x)
    ensures TopFrom(st, Head(level, st, Forall(p, c), x, body), a, false)
    decreases Weight(Forall(p, c)), 0, 1
  {
    hide Emit;
    HeadTopFrom(level, st.Bump(), c, st.Next(), body + [RoleFor(p, x, st.Next())], a);
  }

  lemma {:induction false} ExistsTop(level: nat, st: State, p: Property, c: Expr, x: Term, body: seq<Atom>, a: Node)
    requires !Named(Exists(p, c), x)
    ensures TopFrom(st, Head(level, st, Exists(p, c), x, body), a, false)
    decreases Weight(Exists(p, c)), 0, 1
  {
    hide Emit;
    EmitTop(st, None, body, a);
    if !c.Bottom? {
      var w := Witness(Exists(p, c), x, 0);
      EmitTop(st, Some(RoleFor(p, x, w)), body, a);
      var linked := Emit(st, Some(RoleFor(p, x, w)), body);
      if linked.Ok? { HeadTopFrom(level, linked.value, c, w, body, a); }
    }
  }

  lemma {:induction false} EachTop(level: nat, st: State, args: seq<Expr>, x: Term, body: seq<Atom>, a: Node)
    requires !x.Skolem?
    ensures TopFrom(st, HeadEach(level, st, args, x, body), a, x == Const(a) && exists c | c in args :: SaysTop(c))
    decreases Weights(args) + 1, 3, 0
  {
    hide Head;
    hide SaysTop;
    if args != [] {
      HeadTopFrom(level, st, args[0], x, body, a);
      var first := Head(level, st, args[0], x, body);
      if first.Ok? { EachTop(level, first.value, args[1..], x, body, a); }
      assert args == [args[0]] + args[1..];
    }
  }

  lemma {:induction false} OrTop(level: nat, st: State, args: seq<Expr>, x: Term, body: seq<Atom>, a: Node)
    requires !Named(Junction(Or, args), x)
    ensures TopFrom(st, Head(level, st, Junction(Or, args), x, body), a, x == Const(a) && SaysTop(Junction(Or, args)))
    decreases Weight(Junction(Or, args)), 0, 1
  {
    hide Emit;
    hide Body;
    hide HeadOver;
    hide Normalize;
    hide NegatedOperands;
    hide Positives;
    if args == [] {
      EmitTop(st, None, body, a);
    } else if |args| == 1 {
      assert Weights(args) == Weight(args[0]) + Weights(args[1..]);
      HeadTopFrom(level, st, args[0], x, body, a);
    } else {
      var negatives, positives := NegatedOperands(args), Positives(args);
      if negatives != [] && |positives| <= 1 {
        var target := if positives == [] then Bottom else positives[0];
        var extra := Body(level, st, Normalize(Junction(And, negatives)), x, true);
        if extra.Ok? {
          assert positives != [] ==> positives[0] in positives && Weight(positives[0]) <= Weights(args);
          OverTop(level, extra.value.st, target, x, body, extra.value.alternatives, a);
        }
      }
    }
  }

  lemma {:induction false} OverTop(level: nat, st: State, e: Expr, x: Term, body: seq<Atom>,
      alternatives: seq<seq<Atom>>, a: Node)
    requires !x.Skolem?
    ensures TopFrom(st, HeadOver(level, st, e, x, body, alternatives), a, x == Const(a) && SaysTop(e))
    decreases Weight(e), 3, |alternatives|
  {
    hide Head;
    hide SaysTop;
    if alternatives != [] {
      HeadTopFrom(level, st, e, x, body + alternatives[0], a);
      var first := Head(level, st, e, x, body + alternatives[0]);
      if first.Ok? { OverTop(level, first.value, e, x, body, alternatives[1..], a); }
    }
  }

  /** The axiom says outright that the individual is in the domain. */
  ghost predicate Declares(ax: Axiom, a: Node) {
    ax == NamedIndividual(a) || (ax.ClassAssertion? && ax.subject == a && Normalize(ax.class_) == Top)
  }

  lemma InclusionTop(level: nat, st: State, left: Expr, right: Expr, a: Node)
    ensures TopFrom(st, Inclusion(level, st, left, right), a, false)
  {
    hide Body;
    hide Head;
    hide HeadOver;
    var x := st.Next();
    var bodies := Body(level, st.Bump(), left, x, true);
    if bodies.Ok? { OverTop(level, bodies.value.st, right, x, [], bodies.value.alternatives, a); }
  }

  lemma DisjointTop(level: nat, st: State, left: Expr, right: Expr, a: Node)
    ensures TopFrom(st, Disjoint(level, st, left, right), a, false)
  {
    hide Body;
    hide EmitAll;
    hide Cross;
    DisjointUnfolds(level, st, left, right);
    hide Disjoint;
    if level >= 2 {
      var first := Body(level, st.Bump(), left, st.Next(), true);
      if first.Ok? {
        var second := Body(level, first.value.st, right, st.Next(), true);
        if second.Ok? {
          EmitAllTop(
            second.value.st, Clauses(None, [], Cross(first.value.alternatives, second.value.alternatives)), a);
        }
      }
    }
  }

  lemma {:induction false} PairsTop(level: nat, st: State, pairs: seq<(Expr, Expr)>, a: Node)
    ensures TopFrom(st, DisjointPairs(level, st, pairs), a, false)
    decreases |pairs|
  {
    hide Disjoint;
    hide Normalize;
    if pairs != [] {
      var left, right := Normalize(pairs[0].0), Normalize(pairs[0].1);
      DisjointTop(level, st, left, right, a);
      var first := Disjoint(level, st, left, right);
      if first.Ok? { PairsTop(level, first.value, pairs[1..], a); }
    }
  }

  lemma ClassAxiomTop(level: nat, st: State, ax: Axiom, a: Node)
    requires ax.AboutClasses()
    ensures TopFrom(st, CompileClassAxiom(level, st, ax), a, false)
  {
    hide Inclusion;
    hide Disjoint;
    hide DisjointPairs;
    hide Normalize;
    match ax
    case SubClass(c, d) => InclusionTop(level, st, Normalize(c), Normalize(d), a);
    case EquivalentClasses(c, d) =>
      InclusionTop(level, st, Normalize(c), Normalize(d), a);
      var forward := Inclusion(level, st, Normalize(c), Normalize(d));
      if forward.Ok? { InclusionTop(level, forward.value, Normalize(d), Normalize(c), a); }
    case DisjointClasses(c, d) => DisjointTop(level, st, Normalize(c), Normalize(d), a);
    case AllDisjoint(members) => PairsTop(level, st, Combinations(members), a);
  }

  lemma OtherAxiomTop(level: nat, st: State, ax: Axiom, a: Node)
    requires ax.AboutRoles() || ax.Characteristic()
    ensures TopFrom(st, CompileAxiom(level, st, ax), a, false)
  {
    if ax.AboutRoles() { RoleAxiomTop(level, st, ax, a); } else { CharacteristicTop(level, st, ax, a); }
  }

  lemma CharacteristicTop(level: nat, st: State, ax: Axiom, a: Node)
    requires ax.Characteristic()
    ensures TopFrom(st, CompileCharacteristic(level, st, ax), a, false)
  {
  }

  lemma RoleAxiomTop(level: nat, st: State, ax: Axiom, a: Node)
    requires ax.AboutRoles()
    ensures TopFrom(st, CompileRoleAxiom(level, st, ax), a, false)
  {
    hide Head;
    hide Normalize;
    var x, y, two := st.Next(), st.Bump().Next(), st.Bump().Bump();
    match ax
    case Domain(p, c) => HeadTopFrom(level, two, Normalize(c), x, [RoleFor(p, x, y)], a);
    case Range(p, c) => HeadTopFrom(level, two, Normalize(c), y, [RoleFor(p, x, y)], a);
    case _ =>
  }

  lemma AssertionTop(level: nat, st: State, ax: Axiom, a: Node)
    requires ax.Assertion()
    ensures TopFrom(st, CompileAssertion(level, st, ax), a, Declares(ax, a))
  {
    hide Emit;
    hide EmitAll;
    hide Head;
    hide Normalize;
    match ax
    case ClassAssertion(b, c) =>
      HeadTopFrom(level, st, Normalize(c), Const(b), [], a);
      NormalizeIsNormal(c);
      NormalSaysTop(Normalize(c));
    case PropertyAssertion(name, b, c) => EmitTop(st, Some(RoleAtom(name, Const(b), Const(c))), [], a);
    case SameAs(b, c) => EmitTop(st, Some(EqAtom(Const(b), Const(c))), [], a);
    case DifferentFrom(b, c) => EmitTop(st, Some(NeqAtom(Const(b), Const(c))), [], a);
    case AllDifferent(nodes) => EmitAllTop(st, Different(Combinations(Constants(nodes)), []), a);
    case NamedIndividual(b) => EmitTop(st, Some(TopAtom(Const(b))), [], a);
  }

  lemma {:induction false} AxiomsTop(level: nat, st: State, axioms: seq<Axiom>, a: Node)
    ensures TopFrom(st, CompileAxioms(level, st, axioms), a, exists ax | ax in axioms :: Declares(ax, a))
    decreases |axioms|
  {
    hide CompileClassAxiom;
    hide CompileRoleAxiom;
    hide CompileCharacteristic;
    hide CompileAssertion;
    hide Declares;
    if axioms != [] {
      var ax := axioms[0];
      if ax.AboutClasses() {
        ClassAxiomTop(level, st, ax, a);
      } else if ax.Assertion() {
        AssertionTop(level, st, ax, a);
      } else {
        OtherAxiomTop(level, st, ax, a);
      }
      var first := CompileAxiom(level, st, ax);
      if first.Ok? { AxiomsTop(level, first.value, axioms[1..], a); }
      assert axioms == [ax] + axioms[1..];
    }
  }

  /** An individual is recorded as being in the domain exactly when some axiom declares it. */
  lemma DomainFacts(level: nat, axioms: seq<Axiom>, a: Node)
    requires Compile(level, axioms).Ok?
    ensures TopAtom(Const(a)) in Compile(level, axioms).value.facts <==>
      || NamedIndividual(a) in axioms
      || exists c :: ClassAssertion(a, c) in axioms && Normalize(c) == Top
  {
    hide CompileAxioms;
    hide Normalize;
    AxiomsTop(level, INITIAL, axioms, a);
    forall i | 0 <= i < |axioms| ensures Recorded(Compile(level, axioms).value.facts, axioms[i]) {
      AxiomsRecorded(level, INITIAL, axioms, i);
    }
  }
}
