/** Which axioms each profile accepts, as a grammar; and that a higher profile only adds to a lower one. */
module Acceptance {
  import opened Options
  import opened Expressions
  import opened Normalization
  import opened Axioms
  import opened Rules
  import opened Results
  import opened Translation

  // ----- The accepted language -----

  /** Expressions that may stand on the left of an inclusion. */
  predicate LegalBody(level: nat, e: Expr)
    decreases e
  {
    match e
    case Class(_) => true
    case Value(_, _) => true
    case Top => level >= 1
    case Bottom => level >= 2
    case OneOf(_) => level >= 1
    case Junction(And, args) => (args == [] ==> level >= 1) && forall c | c in args :: LegalBody(level, c)
    case Junction(Or, args) => (args == [] ==> level >= 2) && forall c | c in args :: LegalBody(level, c)
    case Exists(_, c) => LegalBody(level, c)
    case Min(_, n) => level >= 1 && n <= 1
    case _ => false
  }

  predicate LegalMin(level: nat, n: nat) { if n == 0 then level >= 1 else level >= 3 }

  predicate LegalMax(level: nat, n: nat) { if n == 0 then level >= 2 else n == 1 && level >= 1 }

  /** Expressions that may stand on the right of an inclusion, or be asserted. */
  predicate LegalHead(level: nat, e: Expr)
    decreases Weight(e)
  {
    match e
    case Class(_) => true
    case Value(_, _) => true
    case Top => level >= 1
    case Bottom => level >= 2
    case OneOf(items) => if items == [] then level >= 2 else |items| == 1 && level >= 1
    case Forall(_, c) => LegalHead(level, c)
    case Exists(_, c) => if c.Bottom? then level >= 2 else level >= 3 && LegalHead(level, c)
    case Not(c) => level >= 2 && LegalBody(level, c)
    case Min(_, n) => LegalMin(level, n)
    case Max(_, n) => LegalMax(level, n)
    case Exact(_, n) => LegalMin(level, n) && LegalMax(level, n)
    case Junction(And, args) => (args == [] ==> level >= 1) && LegalHeads(level, args)
    case Junction(Or, args) =>
      if args == [] then level >= 2
      else if |args| == 1 then
        assert Weights(args) == Weight(args[0]) + Weights(args[1..]);
        LegalHead(level, args[0])
      else
        var negatives, positives := NegatedOperands(args), Positives(args);
        var condition := Normalize(Junction(And, negatives));
        && negatives != [] && |positives| <= 1 && level >= 2 && LegalBody(level, condition)
        && (condition != Bottom && positives != [] ==> LegalHead(level, positives[0]))
  }

  predicate LegalHeads(level: nat, args: seq<Expr>)
    decreases Weights(args) + 1
  {
    args == [] || (LegalHead(level, args[0]) && LegalHeads(level, args[1..]))
  }

  predicate LegalAxiom(level: nat, ax: Axiom) {
    match ax
    case SubClass(c, d) => LegalBody(level, Normalize(c)) && LegalHead(level, Normalize(d))
    case EquivalentClasses(c, d) =>
      && LegalBody(level, Normalize(c)) && LegalHead(level, Normalize(d))
      && LegalBody(level, Normalize(d)) && LegalHead(level, Normalize(c))
    case DisjointClasses(c, d) => level >= 2 && LegalBody(level, Normalize(c)) && LegalBody(level, Normalize(d))
    case AllDisjoint(members) =>
      level >= 2 && forall q | q in Combinations(members) ::
        LegalBody(level, Normalize(q.0)) && LegalBody(level, Normalize(q.1))
    case ClassAssertion(_, c) => LegalHead(level, Normalize(c))
    case Domain(_, c) => LegalHead(level, Normalize(c))
    case Range(_, c) => LegalHead(level, Normalize(c))
    case Functional(_) => level >= 1
    case InverseFunctional(_) => level >= 1
    case SameAs(_, _) => level >= 1
    case DifferentFrom(_, _) => level >= 2
    case AllDifferent(_) => level >= 2
    case _ => true
  }

  // ----- Verdicts -----

  /** An outcome that agrees with legality; running over the budget is never a verdict. */
  predicate Judges<T>(r: Result<T>, legal: bool) {
    match r
    case Ok(_) => legal
    case Err(reason) => reason == OverBudget || !legal
  }

  predicate LegalTo(level: nat, defs: set<Expr>, bound: int) {
    forall d | d in defs && Weight(d) <= bound :: LegalBody(level, d)
  }

  predicate AllLegal(level: nat, defs: set<Expr>) { forall d | d in defs :: LegalBody(level, d) }

  lemma EmitBudget(st: State, head: Option<Atom>, raw: seq<Atom>)
    ensures Judges(Emit(st, head, raw), true)
  {
  }

  lemma {:induction false} EmitAllBudget(st: State, clauses: seq<Rule>)
    ensures Judges(EmitAll(st, clauses), true)
    decreases |clauses|
  {
    hide Emit;
    if clauses != [] {
      EmitBudget(st, clauses[0].head, clauses[0].body);
      var next := Emit(st, clauses[0].head, clauses[0].body);
      if next.Ok? { EmitAllBudget(next.value, clauses[1..]); }
    }
  }

  // ----- Antecedents -----

  lemma {:induction false} BodyJudged(level: nat, st: State, e: Expr, x: Term, factor: bool)
    requires LegalTo(level, st.bodyDefs, if factor then Weight(e) else Weight(e) - 1)
    ensures Judges(Body(level, st, e, x, factor), LegalBody(level, e))
    ensures Body(level, st, e, x, factor).Ok? ==>
      AllLegal(level, Body(level, st, e, x, factor).value.st.bodyDefs - st.bodyDefs)
    decreases Weight(e), if factor then 2 else 0
  {
    hide BodyReference;
    hide BodyParts;
    hide BodyUnion;
    if factor && Factored(e) {
      ReferenceJudged(level, st, e, x);
    } else {
      match e
      case Junction(And, args) =>
        if args == [] { BodyJudged(level, st, Top, x, true); } else { PartsJudged(level, st, args, x); }
      case Junction(Or, args) => UnionJudged(level, st, args, x);
      case Exists(p, c) => BodyJudged(level, st.Bump(), c, st.Next(), true);
      case _ =>
    }
  }

  lemma {:induction false} ReferenceJudged(level: nat, st: State, e: Expr, x: Term)
    requires LegalTo(level, st.bodyDefs, Weight(e))
    ensures Judges(BodyReference(level, st, e, x), LegalBody(level, e))
    ensures BodyReference(level, st, e, x).Ok? ==>
      AllLegal(level, BodyReference(level, st, e, x).value.st.bodyDefs - st.bodyDefs)
    decreases Weight(e), 1
  {
    hide Body;
    hide EmitAll;
    hide LegalBody;
    if e !in st.bodyDefs {
      var entered := st.(bodyDefs := st.bodyDefs + {e});
      var y := entered.Next();
      BodyJudged(level, entered.Bump(), e, y, false);
      var inner := Body(level, entered.Bump(), e, y, false);
      if inner.Ok? {
        EmitAllBudget(inner.value.st, Clauses(Some(BodyName(e, y)), [], inner.value.alternatives));
      }
    }
  }

  lemma {:induction false} PartsJudged(level: nat, st: State, args: seq<Expr>, x: Term)
    requires LegalTo(level, st.bodyDefs, Weights(args))
    ensures Judges(BodyParts(level, st, args, x), forall c | c in args :: LegalBody(level, c))
    ensures BodyParts(level, st, args, x).Ok? ==>
      AllLegal(level, BodyParts(level, st, args, x).value.st.bodyDefs - st.bodyDefs)
    decreases Weights(args) + 1, 0
  {
    hide Body;
    hide BodyReference;
    hide LegalBody;
    if args != [] {
      assert args == [args[0]] + args[1..];
      if args[0].OneOf? { ReferenceJudged(level, st, args[0], x); } else { BodyJudged(level, st, args[0], x, true); }
      var first := if args[0].OneOf? then BodyReference(level, st, args[0], x) else Body(level, st, args[0], x, true);
      if first.Ok? { PartsJudged(level, first.value.st, args[1..], x); }
    }
  }

  lemma {:induction false} UnionJudged(level: nat, st: State, args: seq<Expr>, x: Term)
    requires LegalTo(level, st.bodyDefs, Weights(args))
    ensures Judges(BodyUnion(level, st, args, x), forall c | c in args :: LegalBody(level, c))
    ensures BodyUnion(level, st, args, x).Ok? ==>
      AllLegal(level, BodyUnion(level, st, args, x).value.st.bodyDefs - st.bodyDefs)
    decreases Weights(args) + 1, 0
  {
    hide Body;
    hide LegalBody;
    if args != [] {
      assert args == [args[0]] + args[1..];
      BodyJudged(level, st, args[0], x, true);
      var first := Body(level, st, args[0], x, true);
      if first.Ok? { UnionJudged(level, first.value.st, args[1..], x); }
    }
  }

  /** Only the empty class has no alternatives, among simplified expressions. */
  lemma NoAlternatives(level: nat, st: State, e: Expr, x: Term)
    requires Normal(e) && Body(level, st, e, x, true).Ok?
    ensures Body(level, st, e, x, true).value.alternatives == [] <==> e == Bottom
  {
  }

  // ----- Consequents -----

  predicate HeadLegalTo(level: nat, defs: set<Expr>, bound: int) {
    forall d | d in defs && Weight(d) <= bound :: LegalHead(level, d)
  }

  predicate AllLegalHeads(level: nat, defs: set<Expr>) { forall d | d in defs :: LegalHead(level, d) }

  predicate LegalTables(level: nat, st: State, bound: int) {
    AllLegal(level, st.bodyDefs) && HeadLegalTo(level, st.headDefs, bound)
  }

  /** What a step may add to the tables. */
  predicate AddsLegal(level: nat, st: State, r: Result<State>) {
    r.Ok? ==> AllLegal(level, r.value.bodyDefs) && AllLegalHeads(level, r.value.headDefs - st.headDefs)
  }

  lemma LaterTables(level: nat, st: State, r: Result<State>, bound: int)
    requires LegalTables(level, st, bound) && AddsLegal(level, st, r) && r.Ok?
    ensures LegalTables(level, r.value, bound)
  {
  }

  lemma SameTablesLegal(level: nat, st: State, r: Result<State>)
    requires AllLegal(level, st.bodyDefs) && (r.Ok? ==> SameTables(st, r.value))
    ensures AddsLegal(level, st, r)
  {
  }

  lemma {:induction false} HeadJudged(level: nat, st: State, e: Expr, x: Term, body: seq<Atom>)
    requires LegalTables(level, st, if x.Skolem? then Weight(e) else Weight(e) - 1)
    ensures Judges(Head(level, st, e, x, body), LegalHead(level, e))
    ensures AddsLegal(level, st, Head(level, st, e, x, body))
    decreases Weight(e), if x.Skolem? then 2 else 1, 0
  {
    hide Emit;
    hide LegalHead;
    hide LegalTables;
    hide AddsLegal;
    if Named(e, x) {
      NamedJudged(level, st, e, x, body);
    } else {
      match e
      case Junction(And, args) => HeadAndJudged(level, st, args, x, body);
      case Junction(Or, args) => HeadOrJudged(level, st, args, x, body);
      case Forall(p, c) => HeadForallJudged(level, st, p, c, x, body);
      case Exists(p, c) => HeadExistsJudged(level, st, p, c, x, body);
      case Not(c) => HeadNotJudged(level, st, c, x, body);
      case _ => HeadLeafJudged(level, st, e, x, body, if x.Skolem? then Weight(e) else Weight(e) - 1);
    }
  }

  lemma HeadLeafJudged(level: nat, st: State, e: Expr, x: Term, body: seq<Atom>, bound: int)
    requires !Named(e, x) && !e.Junction? && !e.Forall? && !e.Exists? && !e.Not?
    requires LegalTables(level, st, bound)
    ensures Judges(Head(level, st, e, x, body), LegalHead(level, e))
    ensures AddsLegal(level, st, Head(level, st, e, x, body))
  {
    hide Emit;
    hide HeadMin;
    hide HeadMax;
    hide AddsLegal;
    match e
    case Class(c) =>
      EmitBudget(st, Some(ClassAtom(c, x)), body);
      SameTablesLegal(level, st, Emit(st, Some(ClassAtom(c, x)), body));
    case Top => EmitBudget(st, Some(TopAtom(x)), body); SameTablesLegal(level, st, HeadTop(level, st, x, body));
    case Bottom => EmitBudget(st, None, body); SameTablesLegal(level, st, HeadBottom(level, st, body));
    case Value(p, a) =>
      EmitBudget(st, Some(RoleFor(p, x, Const(a))), body);
      SameTablesLegal(level, st, Emit(st, Some(RoleFor(p, x, Const(a))), body));
    case OneOf(items) =>
      EmitBudget(st, None, body);
      if |items| == 1 { EmitBudget(st, Some(EqAtom(x, Const(items[0]))), body); }
      SameTablesLegal(level, st, Head(level, st, e, x, body));
    case Min(p, n) =>
      MinJudged(level, st, p, n, x, body);
      SameTablesLegal(level, st, HeadMin(level, st, p, n, x, body));
    case Max(p, n) =>
      MaxJudged(level, st, p, n, x, body);
      SameTablesLegal(level, st, HeadMax(level, st, p, n, x, body));
    case Exact(p, n) =>
      MinJudged(level, st, p, n, x, body);
      var atLeast := HeadMin(level, st, p, n, x, body);
      if atLeast.Ok? { MaxJudged(level, atLeast.value, p, n, x, body); }
      SameTablesLegal(level, st, Head(level, st, e, x, body));
  }

  lemma MinJudged(level: nat, st: State, p: Property, n: nat, x: Term, body: seq<Atom>)
    ensures Judges(HeadMin(level, st, p, n, x, body), LegalMin(level, n))
  {
    hide Emit;
    hide EmitAll;
    hide Combinations;
    EmitBudget(st, Some(TopAtom(x)), body);
    var witnesses := Witnesses(Min(p, n), x, n);
    EmitAllBudget(st, Edges(p, x, witnesses, body));
    var linked := EmitAll(st, Edges(p, x, witnesses, body));
    if linked.Ok? { EmitAllBudget(linked.value, Different(Combinations(witnesses), body)); }
  }

  lemma MaxJudged(level: nat, st: State, p: Property, n: nat, x: Term, body: seq<Atom>)
    ensures Judges(HeadMax(level, st, p, n, x, body), LegalMax(level, n))
  {
    hide Emit;
    var y, z := st.Next(), st.Bump().Next();
    EmitBudget(st.Bump(), None, body + [RoleFor(p, x, y)]);
    EmitBudget(st.Bump().Bump(), Some(EqAtom(y, z)), body + [RoleFor(p, x, y), RoleFor(p, x, z)]);
  }

  lemma {:induction false} NamedJudged(level: nat, st: State, e: Expr, x: Term, body: seq<Atom>)
    requires Named(e, x) && LegalTables(level, st, Weight(e))
    ensures Judges(Head(level, st, e, x, body), LegalHead(level, e))
    ensures AddsLegal(level, st, Head(level, st, e, x, body))
    decreases Weight(e), 1, 2
  {
    hide Emit;
    hide LegalHead;
    EmitBudget(st, Some(HeadName(e, x)), body);
    var named := Emit(st, Some(HeadName(e, x)), body);
    if named.Ok? && e !in named.value.headDefs {
      var entered := named.value.(headDefs := named.value.headDefs + {e});
      var y := entered.Next();
      HeadJudged(level, entered.Bump(), e, y, [HeadName(e, y)]);
    }
  }

  lemma {:induction false} HeadForallJudged(level: nat, st: State, p: Property, c: Expr, x: Term, body: seq<Atom>)
    requires !x.Skolem? && LegalTables(level, st, Weight(c))
    ensures Judges(Head(level, st, Forall(p, c), x, body), LegalHead(level, Forall(p, c)))
    ensures AddsLegal(level, st, Head(level, st, Forall(p, c), x, body))
    decreases Weight(c), 3, 0
  {
    HeadJudged(level, st.Bump(), c, st.Next(), body + [RoleFor(p, x, st.Next())]);
  }

  lemma {:induction false} HeadExistsJudged(level: nat, st: State, p: Property, c: Expr, x: Term, body: seq<Atom>)
    requires !x.Skolem? && LegalTables(level, st, Weight(c))
    ensures Judges(Head(level, st, Exists(p, c), x, body), LegalHead(level, Exists(p, c)))
    ensures AddsLegal(level, st, Head(level, st, Exists(p, c), x, body))
    decreases Weight(c), 3, 0
  {
    hide Emit;
    var w := Witness(Exists(p, c), x, 0);
    EmitBudget(st, None, body);
    EmitBudget(st, Some(RoleFor(p, x, w)), body);
    var linked := Emit(st, Some(RoleFor(p, x, w)), body);
    if linked.Ok? { HeadJudged(level, linked.value, c, w, body); }
  }

  lemma HeadNotJudged(level: nat, st: State, c: Expr, x: Term, body: seq<Atom>)
    requires !x.Skolem? && LegalTables(level, st, Weight(Not(c)) - 1)
    ensures Judges(Head(level, st, Not(c), x, body), LegalHead(level, Not(c)))
    ensures AddsLegal(level, st, Head(level, st, Not(c), x, body))
  {
    hide Body;
    hide EmitAll;
    hide LegalBody;
    BodyJudged(level, st, c, x, true);
    var negative := Body(level, st, c, x, true);
    if negative.Ok? { EmitAllBudget(negative.value.st, Clauses(None, body, negative.value.alternatives)); }
  }

  lemma {:induction false} HeadAndJudged(level: nat, st: State, args: seq<Expr>, x: Term, body: seq<Atom>)
    requires !x.Skolem? && LegalTables(level, st, Weights(args) + 1)
    ensures Judges(Head(level, st, Junction(And, args), x, body), LegalHead(level, Junction(And, args)))
    ensures AddsLegal(level, st, Head(level, st, Junction(And, args), x, body))
    decreases Weights(args) + 1, 4, 0
  {
    hide Emit;
    hide HeadEach;
    hide LegalHeads;
    if args == [] {
      EmitBudget(st, Some(TopAtom(x)), body);
      EmptyLegalHeads(level);
    } else {
      HeadEachJudged(level, st, args, x, body);
    }
  }

  lemma EmptyLegalHeads(level: nat)
    ensures LegalHeads(level, [])
  {
  }

  lemma {:induction false} HeadEachJudged(level: nat, st: State, args: seq<Expr>, x: Term, body: seq<Atom>)
    requires !x.Skolem? && LegalTables(level, st, Weights(args))
    ensures Judges(HeadEach(level, st, args, x, body), LegalHeads(level, args))
    ensures AddsLegal(level, st, HeadEach(level, st, args, x, body))
    decreases Weights(args) + 1, 3, 0
  {
    hide Head;
    hide LegalHead;
    if args != [] {
      HeadJudged(level, st, args[0], x, body);
      var first := Head(level, st, args[0], x, body);
      if first.Ok? {
        LaterTables(level, st, first, Weights(args));
        HeadEachJudged(level, first.value, args[1..], x, body);
      }
    }
  }

  lemma {:induction false} HeadOrJudged(level: nat, st: State, args: seq<Expr>, x: Term, body: seq<Atom>)
    requires !x.Skolem? && LegalTables(level, st, Weights(args) + 1)
    ensures Judges(Head(level, st, Junction(Or, args), x, body), LegalHead(level, Junction(Or, args)))
    ensures AddsLegal(level, st, Head(level, st, Junction(Or, args), x, body))
    decreases Weights(args) + 1, 4, 0
  {
    hide Emit;
    hide Body;
    hide HeadOver;
    hide Normalize;
    hide NegatedOperands;
    hide Positives;
    hide LegalBody;
    if args == [] {
      EmitBudget(st, None, body);
    } else if |args| == 1 {
      HeadJudged(level, st, args[0], x, body);
    } else if NegatedOperands(args) != [] && |Positives(args)| <= 1 {
      var positives := Positives(args);
      var target := if positives == [] then Bottom else positives[0];
      var condition := Normalize(Junction(And, NegatedOperands(args)));
      BodyJudged(level, st, condition, x, true);
      NormalizeIsNormal(Junction(And, NegatedOperands(args)));
      var extra := Body(level, st, condition, x, true);
      if extra.Ok? {
        NoAlternatives(level, st, condition, x);
        HeadOverJudged(level, extra.value.st, target, x, body, extra.value.alternatives);
        BottomLegal(level);
      }
    }
  }

  lemma BottomLegal(level: nat)
    ensures LegalHead(level, Bottom) <==> level >= 2
  {
  }

  lemma {:induction false} HeadOverJudged(level: nat, st: State, e: Expr, x: Term, body: seq<Atom>,
      alternatives: seq<seq<Atom>>)
    requires !x.Skolem? && LegalTables(level, st, Weight(e))
    ensures alternatives == [] ==> HeadOver(level, st, e, x, body, alternatives) == Ok(st)
    ensures alternatives != [] ==> Judges(HeadOver(level, st, e, x, body, alternatives), LegalHead(level, e))
    ensures AddsLegal(level, st, HeadOver(level, st, e, x, body, alternatives))
    decreases Weight(e), 3, |alternatives|
  {
    hide Head;
    hide LegalHead;
    if alternatives != [] {
      HeadJudged(level, st, e, x, body + alternatives[0]);
      var first := Head(level, st, e, x, body + alternatives[0]);
      if first.Ok? {
        LaterTables(level, st, first, Weight(e));
        HeadOverJudged(level, first.value, e, x, body, alternatives[1..]);
      }
    }
  }

  // ----- Axioms -----

  predicate Legal(level: nat, st: State) { AllLegal(level, st.bodyDefs) && AllLegalHeads(level, st.headDefs) }

  /** The verdict on a step from legal tables, which leaves them legal. */
  predicate Step(level: nat, r: Result<State>, legal: bool) {
    Judges(r, legal) && (r.Ok? ==> Legal(level, r.value))
  }

  lemma HeadStep(level: nat, st: State, e: Expr, x: Term, body: seq<Atom>)
    requires Legal(level, st)
    ensures Step(level, Head(level, st, e, x, body), LegalHead(level, e))
  {
    hide Head;
    hide LegalHead;
    HeadJudged(level, st, e, x, body);
  }

  lemma BodyStep(level: nat, st: State, e: Expr, x: Term)
    requires Legal(level, st)
    ensures Judges(Body(level, st, e, x, true), LegalBody(level, e))
    ensures Body(level, st, e, x, true).Ok? ==> Legal(level, Body(level, st, e, x, true).value.st)
  {
    hide Body;
    hide LegalBody;
    BodyJudged(level, st, e, x, true);
  }

  /** An inclusion is accepted exactly when both sides are, even if its left side is empty. */
  lemma InclusionStep(level: nat, st: State, left: Expr, right: Expr)
    requires Legal(level, st)
    ensures Step(level, Inclusion(level, st, left, right), LegalBody(level, left) && LegalHead(level, right))
  {
    hide Body;
    hide Head;
    hide HeadOver;
    hide LegalBody;
    hide LegalHead;
    var x := st.Next();
    BodyStep(level, st.Bump(), left, x);
    var bodies := Body(level, st.Bump(), left, x, true);
    if bodies.Ok? {
      if bodies.value.alternatives == [] {
        HeadStep(level, bodies.value.st, right, x, [TopAtom(x)]);
      } else {
        HeadOverJudged(level, bodies.value.st, right, x, [], bodies.value.alternatives);
      }
    }
  }

  lemma DisjointStep(level: nat, st: State, left: Expr, right: Expr)
    requires Legal(level, st)
    ensures Step(level, Disjoint(level, st, left, right),
      level >= 2 && LegalBody(level, left) && LegalBody(level, right))
  {
    hide Disjoint;
    hide Body;
    hide EmitAll;
    hide LegalBody;
    hide Cross;
    hide Clauses;
    hide Grows;
    hide Legal;
    DisjointUnfolds(level, st, left, right);
    BumpLegal(level, st);
    BodyStep(level, st.Bump(), left, st.Next());
    var first := Body(level, st.Bump(), left, st.Next(), true);
    if first.Ok? {
      BodyStep(level, first.value.st, right, st.Next());
      var second := Body(level, first.value.st, right, st.Next(), true);
      if second.Ok? {
        var clauses := Clauses(None, [], Cross(first.value.alternatives, second.value.alternatives));
        EmitAllBudget(second.value.st, clauses);
        SameLegal(level, second.value.st, EmitAll(second.value.st, clauses));
      }
    }
  }

  lemma {:induction false} DisjointPairsStep(level: nat, st: State, pairs: seq<(Expr, Expr)>)
    requires Legal(level, st) && level >= 2
    ensures Step(level, DisjointPairs(level, st, pairs), forall q | q in pairs ::
      LegalBody(level, Normalize(q.0)) && LegalBody(level, Normalize(q.1)))
    decreases |pairs|
  {
    hide Disjoint;
    hide LegalBody;
    hide Normalize;
    if pairs != [] {
      assert pairs == [pairs[0]] + pairs[1..];
      DisjointStep(level, st, Normalize(pairs[0].0), Normalize(pairs[0].1));
      var first := Disjoint(level, st, Normalize(pairs[0].0), Normalize(pairs[0].1));
      if first.Ok? { DisjointPairsStep(level, first.value, pairs[1..]); }
    }
  }

  lemma EmitStep(level: nat, st: State, head: Option<Atom>, raw: seq<Atom>)
    requires Legal(level, st)
    ensures Step(level, Emit(st, head, raw), true)
  {
    EmitBudget(st, head, raw);
  }

  lemma ClassAxiomStep(level: nat, st: State, ax: Axiom)
    requires ax.AboutClasses() && Legal(level, st)
    ensures Step(level, CompileClassAxiom(level, st, ax), LegalAxiom(level, ax))
  {
    hide Inclusion;
    hide Disjoint;
    hide Normalize;
    hide LegalBody;
    hide LegalHead;
    match ax
    case SubClass(c, d) => InclusionStep(level, st, Normalize(c), Normalize(d));
    case EquivalentClasses(c, d) =>
      InclusionStep(level, st, Normalize(c), Normalize(d));
      var forward := Inclusion(level, st, Normalize(c), Normalize(d));
      if forward.Ok? { InclusionStep(level, forward.value, Normalize(d), Normalize(c)); }
    case DisjointClasses(c, d) => DisjointStep(level, st, Normalize(c), Normalize(d));
    case AllDisjoint(members) => if level >= 2 { DisjointPairsStep(level, st, Combinations(members)); }
  }

  lemma OtherAxiomStep(level: nat, st: State, ax: Axiom)
    requires !ax.AboutClasses() && Legal(level, st)
    ensures Step(level, CompileAxiom(level, st, ax), LegalAxiom(level, ax))
  {
    hide Emit;
    hide EmitAll;
    hide Head;
    hide Normalize;
    hide LegalHead;
    hide Legal;
    var n := st.counter;
    var x, y, z := Var(n + 1), Var(n + 2), Var(n + 3);
    var two, three := st.Bump().Bump(), st.Bump().Bump().Bump();
    BumpLegal(level, st);
    match ax
    case ClassAssertion(a, c) => HeadStep(level, st, Normalize(c), Const(a), []);
    case Domain(p, c) => HeadStep(level, two, Normalize(c), x, [RoleFor(p, x, y)]);
    case Range(p, c) => HeadStep(level, two, Normalize(c), y, [RoleFor(p, x, y)]);
    case SubProperty(p, q) => EmitStep(level, two, Some(RoleFor(q, x, y)), [RoleFor(p, x, y)]);
    case EquivalentProperties(p, q) => BothStep(level, two, p, q, x, y);
    case InverseProperties(p, q) => BothStep(level, two, p, q.Flip(), x, y);
    case Transitive(p) => EmitStep(level, three, Some(RoleFor(p, x, z)), [RoleFor(p, x, y), RoleFor(p, y, z)]);
    case Symmetric(p) => EmitStep(level, three, Some(RoleFor(p, y, x)), [RoleFor(p, x, y)]);
    case Functional(p) => EmitStep(level, three, Some(EqAtom(y, z)), [RoleFor(p, x, y), RoleFor(p, x, z)]);
    case InverseFunctional(p) => EmitStep(level, three, Some(EqAtom(y, z)), [RoleFor(p, y, x), RoleFor(p, z, x)]);
    case PropertyAssertion(name, a, b) => EmitStep(level, st, Some(RoleAtom(name, Const(a), Const(b))), []);
    case SameAs(a, b) => EmitStep(level, st, Some(EqAtom(Const(a), Const(b))), []);
    case DifferentFrom(a, b) => EmitStep(level, st, Some(NeqAtom(Const(a), Const(b))), []);
    case AllDifferent(nodes) =>
      EmitAllBudget(st, Different(Combinations(Constants(nodes)), []));
      SameLegal(level, st, EmitAll(st, Different(Combinations(Constants(nodes)), [])));
    case NamedIndividual(a) => EmitStep(level, st, Some(TopAtom(Const(a))), []);
  }

  lemma BumpLegal(level: nat, st: State)
    requires Legal(level, st)
    ensures Legal(level, st.Bump()) && Legal(level, st.Bump().Bump()) && Legal(level, st.Bump().Bump().Bump())
  {
  }

  lemma SameLegal(level: nat, st: State, r: Result<State>)
    requires Legal(level, st) && (r.Ok? ==> SameTables(st, r.value))
    ensures r.Ok? ==> Legal(level, r.value)
  {
  }

  lemma BothStep(level: nat, st: State, p: Property, q: Property, x: Term, y: Term)
    requires Legal(level, st)
    ensures Step(level, Implication(st, p, q, x, y), true)
    ensures Implication(st, p, q, x, y).Ok? ==>
      Step(level, Implication(Implication(st, p, q, x, y).value, q, p, x, y), true)
  {
    hide Emit;
    hide Legal;
    EmitStep(level, st, Some(RoleFor(q, x, y)), [RoleFor(p, x, y)]);
    var forward := Implication(st, p, q, x, y);
    if forward.Ok? { EmitStep(level, forward.value, Some(RoleFor(p, x, y)), [RoleFor(q, x, y)]); }
  }

  lemma CompileAxiomStep(level: nat, st: State, ax: Axiom)
    requires Legal(level, st)
    ensures Step(level, CompileAxiom(level, st, ax), LegalAxiom(level, ax))
  {
    hide CompileClassAxiom;
    hide LegalAxiom;
    if ax.AboutClasses() { ClassAxiomStep(level, st, ax); } else { OtherAxiomStep(level, st, ax); }
  }

  lemma {:induction false} CompileAxiomsStep(level: nat, st: State, axioms: seq<Axiom>)
    requires Legal(level, st)
    ensures Judges(CompileAxioms(level, st, axioms), forall ax | ax in axioms :: LegalAxiom(level, ax))
    decreases |axioms|
  {
    hide CompileAxiom;
    hide LegalAxiom;
    if axioms != [] {
      assert axioms == [axioms[0]] + axioms[1..];
      CompileAxiomStep(level, st, axioms[0]);
      var first := CompileAxiom(level, st, axioms[0]);
      if first.Ok? { CompileAxiomsStep(level, first.value, axioms[1..]); }
    }
  }

  /** Success means every axiom is in the profile's language; any failure but the rule budget means some axiom is
      not. */
  lemma AcceptedLanguage(level: nat, axioms: seq<Axiom>)
    ensures Judges(Compile(level, axioms), forall ax | ax in axioms :: LegalAxiom(level, ax))
  {
    hide CompileAxioms;
    hide LegalAxiom;
    CompileAxiomsStep(level, INITIAL, axioms);
  }
}
