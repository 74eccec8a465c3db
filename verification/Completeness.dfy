/** Every interpretation of the axioms expands to a structure in which the compiled program holds. */
module Completeness {
  import opened Options
  import opened Expressions
  import opened Semantics
  import opened Normalization
  import opened Axioms
  import opened Rules
  import opened Structures
  import opened Translation
  import opened Scoping
  import opened Antecedents
  import opened Soundness

  /** A witness for an existential or minimum-cardinality expression, where there is one. */
  ghost function WitnessFor<D(!new)>(I: Interp<D>, k: Symbol, d: D): D {
    match k.expr
    case Exists(p, c) =>
      if Sat(I, Exists(p, c), d) then (var y :| Related(I, p, d, y) && Sat(I, c, y); y) else d
    case Min(p, n) =>
      if AtLeast(I, p, d, n) && k.index < n then (var ys: seq<D> :| Successors(I, p, d, n, ys); ys[k.index]) else d
    case _ => d
  }

  /** The intended expansion: auxiliary predicates are the extensions, Skolem functions choose witnesses. */
  ghost function Expansion<D(!new)>(I: Interp<D>): Structure<D> {
    Structure(
      I,
      (k: Symbol, d: D) => WitnessFor(I, k, d),
      (e: Expr, d: D) => Sat(I, e, d),
      (e: Expr, d: D) => Sat(I, e, d))
  }

  // ----- Emission -----

  lemma EmitHolds<D(!new)>(S: Structure<D>, st: State, head: Option<Atom>, raw: seq<Atom>)
    requires Emit(st, head, raw).Ok? && Holds(S, st) && Implied(S, head, raw)
    ensures Holds(S, Emit(st, head, raw).value)
  {
    var body := Distinct(raw);
    DistinctSpec(raw);
    forall v: nat -> D | BodyTrue(S, v, body) ensures HeadTrue(S, v, head) {
      assert BodyTrue(S, v, raw);
    }
    if head.Some? && body == [] && GroundAtom(head.value) {
      forall v: nat -> D ensures AtomTrue(S, v, head.value) {
        assert BodyTrue(S, v, body);
      }
    } else {
      CanonicalHolds(S, head, body);
    }
  }

  lemma {:induction false} EmitAllHolds<D(!new)>(S: Structure<D>, st: State, clauses: seq<Rule>)
    requires EmitAll(st, clauses).Ok? && Holds(S, st)
    requires forall c | c in clauses :: RuleTrue(S, c)
    ensures Holds(S, EmitAll(st, clauses).value)
    decreases |clauses|
  {
    hide Emit;
    if clauses != [] {
      assert clauses[0] in clauses;
      EmitHolds(S, st, clauses[0].head, clauses[0].body);
      EmitAllHolds(S, Emit(st, clauses[0].head, clauses[0].body).value, clauses[1..]);
    }
  }

  // ----- Antecedents are exact -----

  /** Whatever satisfies an alternative lies in the extension. */
  ghost predicate Within<D(!new)>(I: Interp<D>, alternatives: seq<seq<Atom>>, e: Expr, x: Term) {
    forall v: nat -> D, alt | alt in alternatives && BodyTrue(Expansion(I), v, alt) ::
      Sat(I, e, Eval(Expansion(I), v, x))
  }

  lemma {:induction false} BodyExact<D(!new)>(level: nat, I: Interp<D>, st: State, e: Expr, x: Term, factor: bool)
    requires Body(level, st, e, x, factor).Ok? && Holds(Expansion(I), st)
    ensures Holds(Expansion(I), Body(level, st, e, x, factor).value.st)
    ensures Within(I, Body(level, st, e, x, factor).value.alternatives, e, x)
    decreases Weight(e), if factor then 2 else 0
  {
    hide Emit;
    hide BodyReference;
    hide BodyParts;
    hide BodyUnion;
    var S := Expansion(I);
    var r := Body(level, st, e, x, factor).value;
    if factor && Factored(e) {
      ReferenceHolds(level, I, st, e, x);
      SingleWithin(I, BodyName(e, x), e, x);
    } else {
      match e
      case Junction(And, args) =>
        if args != [] { PartsExact(level, I, st, args, x); }
      case Junction(Or, args) => UnionExact(level, I, st, args, x);
      case Exists(p, c) => ExistsExact(level, I, st, p, c, x);
      case OneOf(items) => EnumeratedWithin(I, items, x);
      case Class(c) => SingleWithin(I, ClassAtom(c, x), e, x);
      case Value(p, a) =>
        forall v: nat -> D { RoleForTrue(S, v, p, x, Const(a)); }
        SingleWithin(I, RoleFor(p, x, Const(a)), e, x);
      case Min(p, n) => MinWithin(level, I, st, p, n, x);
      case _ =>
    }
  }

  lemma SingleWithin<D(!new)>(I: Interp<D>, a: Atom, e: Expr, x: Term)
    requires forall v: nat -> D | AtomTrue(Expansion(I), v, a) :: Sat(I, e, Eval(Expansion(I), v, x))
    ensures Within(I, [[a]], e, x)
  {
    assert [a][0] == a;
  }

  lemma EnumeratedWithin<D(!new)>(I: Interp<D>, items: seq<Node>, x: Term)
    ensures Within(I, Enumerated(items, x), OneOf(items), x)
  {
    var S := Expansion(I);
    forall v: nat -> D, alt | alt in Enumerated(items, x) && BodyTrue(S, v, alt)
      ensures Sat(I, OneOf(items), Eval(S, v, x))
    {
      var i :| 0 <= i < |items| && Enumerated(items, x)[i] == alt;
      assert alt[1] == EqAtom(x, Const(items[i])) && alt[1] in alt;
      assert AtomTrue(S, v, alt[1]) && items[i] in items;
    }
  }

  lemma MinWithin<D(!new)>(level: nat, I: Interp<D>, st: State, p: Property, n: nat, x: Term)
    requires Body(level, st, Min(p, n), x, false).Ok?
    ensures Within(I, Body(level, st, Min(p, n), x, false).value.alternatives, Min(p, n), x)
  {
    var S := Expansion(I);
    if n == 0 {
      forall d: D ensures AtLeast(I, p, d, 0) { assert Successors(I, p, d, 0, []); }
    } else {
      var edge := RoleFor(p, x, st.Next());
      forall v: nat -> D | AtomTrue(S, v, edge) ensures Sat(I, Min(p, n), Eval(S, v, x)) {
        RoleForTrue(S, v, p, x, st.Next());
        OneSuccessor(I, p, Eval(S, v, x), Eval(S, v, st.Next()));
      }
      SingleWithin(I, edge, Min(p, n), x);
    }
  }

  lemma {:induction false} ExistsExact<D(!new)>(level: nat, I: Interp<D>, st: State, p: Property, c: Expr, x: Term)
    requires Body(level, st, Exists(p, c), x, false).Ok? && Holds(Expansion(I), st)
    ensures Holds(Expansion(I), Body(level, st, Exists(p, c), x, false).value.st)
    ensures Within(I, Body(level, st, Exists(p, c), x, false).value.alternatives, Exists(p, c), x)
    decreases Weight(c), 3
  {
    var S := Expansion(I);
    var y := st.Next();
    var inner := Body(level, st.Bump(), c, y, true).value;
    var r := Body(level, st, Exists(p, c), x, false).value;
    BodyExact(level, I, st.Bump(), c, y, true);
    forall v: nat -> D, alt | alt in r.alternatives && BodyTrue(S, v, alt) ensures Sat(I, Exists(p, c), Eval(S, v, x)) {
      var i :| 0 <= i < |inner.alternatives| && r.alternatives[i] == alt;
      BodySplit(S, v, [RoleFor(p, x, y)], inner.alternatives[i]);
      BodyOne(S, v, RoleFor(p, x, y));
      RoleForTrue(S, v, p, x, y);
    }
  }

  lemma {:induction false} ReferenceHolds<D(!new)>(level: nat, I: Interp<D>, st: State, e: Expr, x: Term)
    requires BodyReference(level, st, e, x).Ok? && Holds(Expansion(I), st)
    ensures Holds(Expansion(I), BodyReference(level, st, e, x).value.st)
    decreases Weight(e), 1
  {
    hide Emit;
    if e !in st.bodyDefs {
      var S := Expansion(I);
      var entered := st.(bodyDefs := st.bodyDefs + {e});
      var y := entered.Next();
      var inner := Body(level, entered.Bump(), e, y, false).value;
      BodyExact(level, I, entered.Bump(), e, y, false);
      var clauses := Clauses(Some(BodyName(e, y)), [], inner.alternatives);
      forall c | c in clauses ensures RuleTrue(S, c) {
        var i :| 0 <= i < |clauses| && clauses[i] == c;
        assert c.body == inner.alternatives[i];
      }
      EmitAllHolds(S, inner.st, clauses);
    }
  }

  lemma {:induction false} PartsExact<D(!new)>(level: nat, I: Interp<D>, st: State, args: seq<Expr>, x: Term)
    requires BodyParts(level, st, args, x).Ok? && Holds(Expansion(I), st)
    ensures Holds(Expansion(I), BodyParts(level, st, args, x).value.st)
    ensures Within(I, Product(BodyParts(level, st, args, x).value.parts), Junction(And, args), x)
    decreases Weights(args) + 1, 0
  {
    if args != [] {
      var S := Expansion(I);
      var first := (if args[0].OneOf? then BodyReference(level, st, args[0], x) else
        Body(level, st, args[0], x, true)).value;
      var rest := BodyParts(level, first.st, args[1..], x).value;
      var r := BodyParts(level, st, args, x).value;
      if args[0].OneOf? {
        ReferenceHolds(level, I, st, args[0], x);
        SingleWithin(I, BodyName(args[0], x), args[0], x);
      } else {
        BodyExact(level, I, st, args[0], x, true);
      }
      PartsExact(level, I, first.st, args[1..], x);
      assert r.parts[1..] == rest.parts;
      forall v: nat -> D, alt | alt in Product(r.parts) && BodyTrue(S, v, alt)
        ensures Sat(I, Junction(And, args), Eval(S, v, x))
      {
        var a, b := CrossMember(first.alternatives, Product(rest.parts), alt);
        BodySplit(S, v, a, b);
        assert args == [args[0]] + args[1..];
        JunctionConcat(I, And, [args[0]], args[1..], Eval(S, v, x));
        JunctionSingle(I, And, args[0], Eval(S, v, x));
      }
    }
  }

  lemma {:induction false} UnionExact<D(!new)>(level: nat, I: Interp<D>, st: State, args: seq<Expr>, x: Term)
    requires BodyUnion(level, st, args, x).Ok? && Holds(Expansion(I), st)
    ensures Holds(Expansion(I), BodyUnion(level, st, args, x).value.st)
    ensures Within(I, BodyUnion(level, st, args, x).value.alternatives, Junction(Or, args), x)
    decreases Weights(args) + 1, 0
  {
    if args != [] {
      var S := Expansion(I);
      var first := Body(level, st, args[0], x, true).value;
      BodyExact(level, I, st, args[0], x, true);
      UnionExact(level, I, first.st, args[1..], x);
      forall v: nat -> D, alt | alt in BodyUnion(level, st, args, x).value.alternatives && BodyTrue(S, v, alt)
        ensures Sat(I, Junction(Or, args), Eval(S, v, x))
      {
        assert args == [args[0]] + args[1..];
        JunctionConcat(I, Or, [args[0]], args[1..], Eval(S, v, x));
        JunctionSingle(I, Or, args[0], Eval(S, v, x));
      }
    }
  }

  // ----- Consequents follow from the expression -----

  /** The rule body puts `x` into the extension of `e`. */
  ghost predicate Entails<D(!new)>(I: Interp<D>, body: seq<Atom>, e: Expr, x: Term) {
    forall v: nat -> D | BodyTrue(Expansion(I), v, body) :: Sat(I, e, Eval(Expansion(I), v, x))
  }

  lemma {:induction false} HeadHolds<D(!new)>(level: nat, I: Interp<D>, st: State, e: Expr, x: Term, body: seq<Atom>)
    requires Head(level, st, e, x, body).Ok? && Holds(Expansion(I), st)
    requires Entails(I, body, e, x)
    ensures Holds(Expansion(I), Head(level, st, e, x, body).value)
    decreases Weight(e), if x.Skolem? then 2 else 1, 0
  {
    hide Emit;
    var S := Expansion(I);
    if Named(e, x) {
      var named := Emit(st, Some(HeadName(e, x)), body).value;
      EmitHolds(S, st, Some(HeadName(e, x)), body);
      if e !in named.headDefs {
        var entered := named.(headDefs := named.headDefs + {e});
        var y := entered.Next();
        forall v: nat -> D ensures BodyTrue(S, v, [HeadName(e, y)]) ==> Sat(I, e, Eval(S, v, y)) {
          BodyOne(S, v, HeadName(e, y));
        }
        HeadHolds(level, I, entered.Bump(), e, y, [HeadName(e, y)]);
      }
    } else {
      match e
      case Junction(And, args) =>
        if args == [] {
          EmitHolds(S, st, Some(TopAtom(x)), body);
        } else {
          HeadEachHolds(level, I, st, args, x, body);
        }
      case Junction(Or, args) => HeadOrHolds(level, I, st, args, x, body);
      case Forall(p, c) => HeadForallHolds(level, I, st, p, c, x, body);
      case Exists(p, c) => HeadExistsHolds(level, I, st, p, c, x, body);
      case Not(c) => HeadNotHolds(level, I, st, c, x, body);
      case Class(c) => EmitHolds(S, st, Some(ClassAtom(c, x)), body);
      case Top => EmitHolds(S, st, Some(TopAtom(x)), body);
      case Bottom => EmitHolds(S, st, None, body);
      case Value(p, a) =>
        forall v: nat -> D { RoleForTrue(S, v, p, x, Const(a)); }
        EmitHolds(S, st, Some(RoleFor(p, x, Const(a))), body);
      case OneOf(items) =>
        EmitHolds(S, st, if items == [] then None else Some(EqAtom(x, Const(items[0]))), body);
      case Min(p, n) => HeadMinHolds(level, I, st, p, n, x, body);
      case Max(p, n) => HeadMaxHolds(level, I, st, p, n, x, body);
      case Exact(p, n) =>
        HeadMinHolds(level, I, st, p, n, x, body);
        HeadMaxHolds(level, I, HeadMin(level, st, p, n, x, body).value, p, n, x, body);
    }
  }

  lemma {:induction false} HeadForallHolds<D(!new)>(level: nat, I: Interp<D>, st: State, p: Property, c: Expr, x: Term,
      body: seq<Atom>)
    requires Head(level, st.Bump(), c, st.Next(), body + [RoleFor(p, x, st.Next())]).Ok? && Holds(Expansion(I), st)
    requires Entails(I, body, Forall(p, c), x)
    ensures Holds(Expansion(I), Head(level, st.Bump(), c, st.Next(), body + [RoleFor(p, x, st.Next())]).value)
    decreases Weight(c), 3, 0
  {
    var S := Expansion(I);
    var y := st.Next();
    var extended := body + [RoleFor(p, x, y)];
    forall v: nat -> D | BodyTrue(S, v, extended) ensures Sat(I, c, Eval(S, v, y)) {
      BodySplit(S, v, body, [RoleFor(p, x, y)]);
      BodyOne(S, v, RoleFor(p, x, y));
      RoleForTrue(S, v, p, x, y);
    }
    HeadHolds(level, I, st.Bump(), c, y, extended);
  }

  lemma NoWitness<D(!new)>(I: Interp<D>, p: Property, body: seq<Atom>, x: Term, v: nat -> D)
    requires Entails(I, body, Exists(p, Bottom), x)
    ensures !BodyTrue(Expansion(I), v, body)
  {
    assert !Sat(I, Exists(p, Bottom), Eval(Expansion(I), v, x));
  }

  lemma {:induction false} HeadExistsHolds<D(!new)>(level: nat, I: Interp<D>, st: State, p: Property, c: Expr, x: Term,
      body: seq<Atom>)
    requires !x.Skolem? && Head(level, st, Exists(p, c), x, body).Ok? && Holds(Expansion(I), st)
    requires Entails(I, body, Exists(p, c), x)
    ensures Holds(Expansion(I), Head(level, st, Exists(p, c), x, body).value)
    decreases Weight(c), 3, 0
  {
    hide Emit;
    var S := Expansion(I);
    if c.Bottom? {
      forall v: nat -> D ensures !BodyTrue(S, v, body) { NoWitness(I, p, body, x, v); }
      EmitHolds(S, st, None, body);
    } else {
      var w := Witness(Exists(p, c), x, 0);
      forall v: nat -> D | BodyTrue(S, v, body)
        ensures AtomTrue(S, v, RoleFor(p, x, w)) && Sat(I, c, Eval(S, v, w))
      {
        assert Eval(S, v, w) == WitnessFor(I, Symbol(Exists(p, c), 0), Eval(S, v, x));
        RoleForTrue(S, v, p, x, w);
      }
      EmitHolds(S, st, Some(RoleFor(p, x, w)), body);
      HeadHolds(level, I, Emit(st, Some(RoleFor(p, x, w)), body).value, c, w, body);
    }
  }

  lemma HeadNotHolds<D(!new)>(level: nat, I: Interp<D>, st: State, c: Expr, x: Term, body: seq<Atom>)
    requires !x.Skolem? && Head(level, st, Not(c), x, body).Ok? && Holds(Expansion(I), st)
    requires Entails(I, body, Not(c), x)
    ensures Holds(Expansion(I), Head(level, st, Not(c), x, body).value)
  {
    hide Emit;
    var S := Expansion(I);
    var negative := Body(level, st, c, x, true).value;
    BodyExact(level, I, st, c, x, true);
    var clauses := Clauses(None, body, negative.alternatives);
    forall r | r in clauses ensures RuleTrue(S, r) {
      var i :| 0 <= i < |clauses| && clauses[i] == r;
      forall v: nat -> D ensures !BodyTrue(S, v, r.body) { BodySplit(S, v, body, negative.alternatives[i]); }
    }
    EmitAllHolds(S, negative.st, clauses);
  }

  lemma {:induction false} HeadOrHolds<D(!new)>(level: nat, I: Interp<D>, st: State, args: seq<Expr>, x: Term,
      body: seq<Atom>)
    requires !x.Skolem? && Head(level, st, Junction(Or, args), x, body).Ok? && Holds(Expansion(I), st)
    requires Entails(I, body, Junction(Or, args), x)
    ensures Holds(Expansion(I), Head(level, st, Junction(Or, args), x, body).value)
    decreases Weights(args) + 1, 4, 0
  {
    hide Emit;
    hide Body;
    hide HeadOver;
    hide Normalize;
    hide NegatedOperands;
    hide Positives;
    var S := Expansion(I);
    if args == [] {
      EmitHolds(S, st, None, body);
    } else if |args| == 1 {
      HeadHolds(level, I, st, args[0], x, body);
    } else {
      var negatives, positives := NegatedOperands(args), Positives(args);
      var conj := Junction(And, negatives);
      var extra := Body(level, st, Normalize(conj), x, true).value;
      var target := if positives == [] then Bottom else positives[0];
      BodyExact(level, I, st, Normalize(conj), x, true);
      forall alt, v: nat -> D | alt in extra.alternatives && BodyTrue(S, v, body + alt)
        ensures Sat(I, target, Eval(S, v, x))
      {
        BodySplit(S, v, body, alt);
        RemainingDisjunct(I, args, Eval(S, v, x));
      }
      HeadOverHolds(level, I, extra.st, target, x, body, extra.alternatives);
    }
  }

  lemma NegatedFail<D(!new)>(I: Interp<D>, args: seq<Expr>, c: Expr, d: D)
    requires c in args && c.Not? && forall n | n in NegatedOperands(args) :: Sat(I, n, d)
    ensures !Sat(I, c, d)
  {
    assert Not(c.operand) == c;
  }

  /** When every negated disjunct fails, the one positive disjunct is left. */
  lemma RemainingDisjunct<D(!new)>(I: Interp<D>, args: seq<Expr>, d: D)
    requires Sat(I, Junction(Or, args), d) && |Positives(args)| <= 1
    requires Sat(I, Normalize(Junction(And, NegatedOperands(args))), d)
    ensures Positives(args) != [] && Sat(I, Positives(args)[0], d)
  {
    hide Normalize;
    hide NegatedOperands;
    hide Positives;
    NormalizeSound(I, Junction(And, NegatedOperands(args)), d);
    var c :| c in args && Sat(I, c, d);
    if c.Not? { NegatedFail(I, args, c, d); }
    assert c in Positives(args);
  }

  lemma {:induction false} HeadOverHolds<D(!new)>(level: nat, I: Interp<D>, st: State, e: Expr, x: Term,
      body: seq<Atom>, alternatives: seq<seq<Atom>>)
    requires HeadOver(level, st, e, x, body, alternatives).Ok? && Holds(Expansion(I), st)
    requires forall alt | alt in alternatives :: Entails(I, body + alt, e, x)
    ensures Holds(Expansion(I), HeadOver(level, st, e, x, body, alternatives).value)
    decreases Weight(e), 3, |alternatives|
  {
    hide Emit;
    if alternatives != [] {
      assert alternatives[0] in alternatives;
      HeadHolds(level, I, st, e, x, body + alternatives[0]);
      HeadOverHolds(level, I, Head(level, st, e, x, body + alternatives[0]).value, e, x, body, alternatives[1..]);
    }
  }

  lemma {:induction false} HeadEachHolds<D(!new)>(level: nat, I: Interp<D>, st: State, args: seq<Expr>, x: Term,
      body: seq<Atom>)
    requires HeadEach(level, st, args, x, body).Ok? && Holds(Expansion(I), st)
    requires forall c | c in args :: Entails(I, body, c, x)
    ensures Holds(Expansion(I), HeadEach(level, st, args, x, body).value)
    decreases Weights(args) + 1, 3, 0
  {
    hide Emit;
    if args != [] {
      assert args[0] in args;
      HeadHolds(level, I, st, args[0], x, body);
      HeadEachHolds(level, I, Head(level, st, args[0], x, body).value, args[1..], x, body);
    }
  }

  /** Skolem values of a minimum cardinality are distinct successors. */
  lemma MinWitnesses<D(!new)>(I: Interp<D>, p: Property, n: nat, d: D)
    requires AtLeast(I, p, d, n)
    ensures forall i: nat | i < n :: Related(I, p, d, WitnessFor(I, Symbol(Min(p, n), i), d))
    ensures forall i: nat, j: nat | i < j < n ::
      WitnessFor(I, Symbol(Min(p, n), i), d) != WitnessFor(I, Symbol(Min(p, n), j), d)
  {
  }

  lemma EdgeHolds<D(!new)>(I: Interp<D>, p: Property, n: nat, x: Term, body: seq<Atom>, r: Rule)
    requires forall v: nat -> D | BodyTrue(Expansion(I), v, body) :: AtLeast(I, p, Eval(Expansion(I), v, x), n)
    requires r in Edges(p, x, Witnesses(Min(p, n), x, n), body)
    ensures RuleTrue(Expansion(I), r)
  {
    hide WitnessFor;
    var S := Expansion(I);
    var edges := Edges(p, x, Witnesses(Min(p, n), x, n), body);
    var i :| 0 <= i < |edges| && edges[i] == r;
    var w := Witness(Min(p, n), x, i);
    forall v: nat -> D | BodyTrue(S, v, body) ensures HeadTrue(S, v, r.head) {
      MinWitnesses(I, p, n, Eval(S, v, x));
      RoleForTrue(S, v, p, x, w);
    }
  }

  lemma ApartHolds<D(!new)>(I: Interp<D>, p: Property, n: nat, x: Term, body: seq<Atom>, r: Rule)
    requires forall v: nat -> D | BodyTrue(Expansion(I), v, body) :: AtLeast(I, p, Eval(Expansion(I), v, x), n)
    requires r in Different(Combinations(Witnesses(Min(p, n), x, n)), body)
    ensures RuleTrue(Expansion(I), r)
  {
    hide WitnessFor;
    hide AtLeast;
    hide Combinations;
    var S := Expansion(I);
    var witnesses := Witnesses(Min(p, n), x, n);
    var apart := Different(Combinations(witnesses), body);
    var k :| 0 <= k < |apart| && apart[k] == r;
    var i, j := CombinationsOnly(witnesses, Combinations(witnesses)[k]);
    forall v: nat -> D | BodyTrue(S, v, body) ensures HeadTrue(S, v, r.head) {
      MinWitnesses(I, p, n, Eval(S, v, x));
    }
  }

  lemma HeadMinHolds<D(!new)>(level: nat, I: Interp<D>, st: State, p: Property, n: nat, x: Term, body: seq<Atom>)
    requires HeadMin(level, st, p, n, x, body).Ok? && Holds(Expansion(I), st)
    requires forall v: nat -> D | BodyTrue(Expansion(I), v, body) :: AtLeast(I, p, Eval(Expansion(I), v, x), n)
    ensures Holds(Expansion(I), HeadMin(level, st, p, n, x, body).value)
  {
    hide Emit;
    var S := Expansion(I);
    if n == 0 {
      EmitHolds(S, st, Some(TopAtom(x)), body);
    } else {
      var witnesses := Witnesses(Min(p, n), x, n);
      var edges := Edges(p, x, witnesses, body);
      var apart := Different(Combinations(witnesses), body);
      forall r | r in edges ensures RuleTrue(S, r) { EdgeHolds(I, p, n, x, body, r); }
      EmitAllHolds(S, st, edges);
      forall r | r in apart ensures RuleTrue(S, r) { ApartHolds(I, p, n, x, body, r); }
      EmitAllHolds(S, EmitAll(st, edges).value, apart);
    }
  }

  lemma OneSuccessor<D(!new)>(I: Interp<D>, p: Property, d: D, a: D)
    ensures Related(I, p, d, a) ==> AtLeast(I, p, d, 1)
  {
    if Related(I, p, d, a) { assert Successors(I, p, d, 1, [a]); }
  }

  lemma TwoSuccessors<D(!new)>(I: Interp<D>, p: Property, d: D, a: D, b: D)
    ensures Related(I, p, d, a) && Related(I, p, d, b) && a != b ==> AtLeast(I, p, d, 2)
  {
    if Related(I, p, d, a) && Related(I, p, d, b) && a != b { assert Successors(I, p, d, 2, [a, b]); }
  }

  lemma HeadMaxHolds<D(!new)>(level: nat, I: Interp<D>, st: State, p: Property, n: nat, x: Term, body: seq<Atom>)
    requires HeadMax(level, st, p, n, x, body).Ok? && Holds(Expansion(I), st)
    requires forall v: nat -> D | BodyTrue(Expansion(I), v, body) :: !AtLeast(I, p, Eval(Expansion(I), v, x), n + 1)
    ensures Holds(Expansion(I), HeadMax(level, st, p, n, x, body).value)
  {
    hide Emit;
    var S := Expansion(I);
    var y, z := st.Next(), st.Bump().Next();
    if n == 0 {
      var raw := body + [RoleFor(p, x, y)];
      forall v: nat -> D ensures !BodyTrue(S, v, raw) {
        BodySplit(S, v, body, [RoleFor(p, x, y)]);
        BodyOne(S, v, RoleFor(p, x, y));
        RoleForTrue(S, v, p, x, y);
        OneSuccessor(I, p, Eval(S, v, x), Eval(S, v, y));
      }
      EmitHolds(S, st.Bump(), None, raw);
    } else {
      var raw := body + [RoleFor(p, x, y), RoleFor(p, x, z)];
      forall v: nat -> D | BodyTrue(S, v, raw) ensures Eval(S, v, y) == Eval(S, v, z) {
        BodySplit(S, v, body, [RoleFor(p, x, y), RoleFor(p, x, z)]);
        assert [RoleFor(p, x, y)] + [RoleFor(p, x, z)] == [RoleFor(p, x, y), RoleFor(p, x, z)];
        BodySplit(S, v, [RoleFor(p, x, y)], [RoleFor(p, x, z)]);
        BodyOne(S, v, RoleFor(p, x, y));
        BodyOne(S, v, RoleFor(p, x, z));
        RoleForTrue(S, v, p, x, y);
        RoleForTrue(S, v, p, x, z);
        TwoSuccessors(I, p, Eval(S, v, x), Eval(S, v, y), Eval(S, v, z));
      }
      EmitHolds(S, st.Bump().Bump(), Some(EqAtom(y, z)), raw);
    }
  }

  // ----- Axioms -----

  lemma InclusionHolds<D(!new)>(level: nat, I: Interp<D>, st: State, left: Expr, right: Expr)
    requires Inclusion(level, st, left, right).Ok? && Holds(Expansion(I), st)
    requires Included(I, left, right)
    ensures Holds(Expansion(I), Inclusion(level, st, left, right).value)
  {
    hide Emit;
    hide Body;
    hide Head;
    var S := Expansion(I);
    var x := st.Next();
    var bodies := Body(level, st.Bump(), left, x, true).value;
    BodyExact(level, I, st.Bump(), left, x, true);
    if bodies.alternatives != [] {
      forall alt | alt in bodies.alternatives ensures Entails(I, [] + alt, right, x) {
        assert [] + alt == alt;
      }
      HeadOverHolds(level, I, bodies.st, right, x, [], bodies.alternatives);
    }
  }

  lemma DisjointHolds<D(!new)>(level: nat, I: Interp<D>, st: State, left: Expr, right: Expr)
    requires Disjoint(level, st, left, right).Ok? && Holds(Expansion(I), st)
    requires Apart(I, left, right)
    ensures Holds(Expansion(I), Disjoint(level, st, left, right).value)
  {
    hide Emit;
    hide Body;
    var S := Expansion(I);
    var x := st.Next();
    var first := Body(level, st.Bump(), left, x, true).value;
    var second := Body(level, first.st, right, x, true).value;
    BodyExact(level, I, st.Bump(), left, x, true);
    BodyExact(level, I, first.st, right, x, true);
    var clauses := Clauses(None, [], Cross(first.alternatives, second.alternatives));
    forall r | r in clauses ensures RuleTrue(S, r) {
      var i :| 0 <= i < |clauses| && clauses[i] == r;
      assert r.body == Cross(first.alternatives, second.alternatives)[i];
      var a, b := CrossMember(first.alternatives, second.alternatives, r.body);
      forall v: nat -> D ensures !BodyTrue(S, v, r.body) { BodySplit(S, v, a, b); }
    }
    EmitAllHolds(S, second.st, clauses);
  }

  lemma {:induction false} DisjointPairsHold<D(!new)>(level: nat, I: Interp<D>, st: State, pairs: seq<(Expr, Expr)>)
    requires DisjointPairs(level, st, pairs).Ok? && Holds(Expansion(I), st)
    requires forall q | q in pairs :: Apart(I, q.0, q.1)
    ensures Holds(Expansion(I), DisjointPairs(level, st, pairs).value)
    decreases |pairs|
  {
    hide Disjoint;
    if pairs != [] {
      var c, d := pairs[0].0, pairs[0].1;
      assert pairs[0] in pairs;
      NormalizeSame(I, c);
      NormalizeSame(I, d);
      DisjointHolds(level, I, st, Normalize(c), Normalize(d));
      DisjointPairsHold(level, I, Disjoint(level, st, Normalize(c), Normalize(d)).value, pairs[1..]);
    }
  }

  lemma ClassAxiomHolds<D(!new)>(level: nat, I: Interp<D>, st: State, ax: Axiom)
    requires ax.AboutClasses() && CompileClassAxiom(level, st, ax).Ok? && Holds(Expansion(I), st)
    requires AxiomTrue(I, ax)
    ensures Holds(Expansion(I), CompileClassAxiom(level, st, ax).value)
  {
    hide Inclusion;
    hide Disjoint;
    match ax
    case SubClass(c, d) =>
      NormalizeSame(I, c);
      NormalizeSame(I, d);
      InclusionHolds(level, I, st, Normalize(c), Normalize(d));
    case EquivalentClasses(c, d) =>
      NormalizeSame(I, c);
      NormalizeSame(I, d);
      InclusionHolds(level, I, st, Normalize(c), Normalize(d));
      InclusionHolds(level, I, Inclusion(level, st, Normalize(c), Normalize(d)).value, Normalize(d), Normalize(c));
    case DisjointClasses(c, d) =>
      NormalizeSame(I, c);
      NormalizeSame(I, d);
      DisjointHolds(level, I, st, Normalize(c), Normalize(d));
    case AllDisjoint(members) =>
      forall q | q in Combinations(members) ensures Apart(I, q.0, q.1) {
        var i, j := CombinationsOnly(members, q);
      }
      DisjointPairsHold(level, I, st, Combinations(members));
  }

  lemma ImplicationHolds<D(!new)>(I: Interp<D>, st: State, p: Property, q: Property, x: Term, y: Term)
    requires Implication(st, p, q, x, y).Ok? && Holds(Expansion(I), st)
    requires SubRole(I, p, q)
    ensures Holds(Expansion(I), Implication(st, p, q, x, y).value)
  {
    hide Emit;
    var S := Expansion(I);
    forall v: nat -> D | BodyTrue(S, v, [RoleFor(p, x, y)]) ensures AtomTrue(S, v, RoleFor(q, x, y)) {
      BodyOne(S, v, RoleFor(p, x, y));
      RoleForTrue(S, v, p, x, y);
      RoleForTrue(S, v, q, x, y);
    }
    EmitHolds(S, st, Some(RoleFor(q, x, y)), [RoleFor(p, x, y)]);
  }

  lemma DomainHolds<D(!new)>(level: nat, I: Interp<D>, st: State, p: Property, c: Expr, s: Term, t: Term)
    requires Head(level, st, Normalize(c), s, [RoleFor(p, s, t)]).Ok? && Holds(Expansion(I), st)
    requires HasDomain(I, p, c)
    ensures Holds(Expansion(I), Head(level, st, Normalize(c), s, [RoleFor(p, s, t)]).value)
  {
    hide Head;
    var S := Expansion(I);
    forall v: nat -> D | BodyTrue(S, v, [RoleFor(p, s, t)]) ensures Sat(I, Normalize(c), Eval(S, v, s)) {
      BodyOne(S, v, RoleFor(p, s, t));
      RoleForTrue(S, v, p, s, t);
      NormalizeSame(I, c);
    }
    HeadHolds(level, I, st, Normalize(c), s, [RoleFor(p, s, t)]);
  }

  lemma RoleAxiomHolds<D(!new)>(level: nat, I: Interp<D>, st: State, ax: Axiom)
    requires ax.AboutRoles() && CompileRoleAxiom(level, st, ax).Ok? && Holds(Expansion(I), st)
    requires AxiomTrue(I, ax)
    ensures Holds(Expansion(I), CompileRoleAxiom(level, st, ax).value)
  {
    hide Implication;
    hide Head;
    var x, y := st.Next(), st.Bump().Next();
    var two := st.Bump().Bump();
    match ax
    case SubProperty(p, q) => ImplicationHolds(I, two, p, q, x, y);
    case EquivalentProperties(p, q) =>
      ImplicationHolds(I, two, p, q, x, y);
      ImplicationHolds(I, Implication(two, p, q, x, y).value, q, p, x, y);
    case InverseProperties(p, q) =>
      ImplicationHolds(I, two, p, q.Flip(), x, y);
      ImplicationHolds(I, Implication(two, p, q.Flip(), x, y).value, q.Flip(), p, x, y);
    case Domain(p, c) => DomainHolds(level, I, two, p, c, x, y);
    case Range(p, c) =>
      assert RoleFor(p, x, y) == RoleFor(p.Flip(), y, x);
      DomainHolds(level, I, two, p.Flip(), c, y, x);
  }

  /** A rule with two property atoms in its body. */
  lemma EdgesHold<D(!new)>(I: Interp<D>, st: State, head: Atom, p: Property, s: Term, t: Term, s2: Term, t2: Term)
    requires Emit(st, Some(head), [RoleFor(p, s, t), RoleFor(p, s2, t2)]).Ok? && Holds(Expansion(I), st)
    requires forall v: nat -> D ::
      Related(I, p, Eval(Expansion(I), v, s), Eval(Expansion(I), v, t)) &&
        Related(I, p, Eval(Expansion(I), v, s2), Eval(Expansion(I), v, t2))
      ==> AtomTrue(Expansion(I), v, head)
    ensures Holds(Expansion(I), Emit(st, Some(head), [RoleFor(p, s, t), RoleFor(p, s2, t2)]).value)
  {
    hide Emit;
    var S := Expansion(I);
    var raw := [RoleFor(p, s, t), RoleFor(p, s2, t2)];
    forall v: nat -> D | BodyTrue(S, v, raw) ensures AtomTrue(S, v, head) {
      assert raw == [RoleFor(p, s, t)] + [RoleFor(p, s2, t2)];
      BodySplit(S, v, [RoleFor(p, s, t)], [RoleFor(p, s2, t2)]);
      BodyOne(S, v, RoleFor(p, s, t));
      BodyOne(S, v, RoleFor(p, s2, t2));
      RoleForTrue(S, v, p, s, t);
      RoleForTrue(S, v, p, s2, t2);
    }
    EmitHolds(S, st, Some(head), raw);
  }

  lemma CharacteristicHolds<D(!new)>(level: nat, I: Interp<D>, st: State, ax: Axiom)
    requires ax.Characteristic() && CompileCharacteristic(level, st, ax).Ok? && Holds(Expansion(I), st)
    requires AxiomTrue(I, ax)
    ensures Holds(Expansion(I), CompileCharacteristic(level, st, ax).value)
  {
    hide Emit;
    var S, p := Expansion(I), ax.p;
    var x, y, z := st.Next(), st.Bump().Next(), st.Bump().Bump().Next();
    var three := st.Bump().Bump().Bump();
    match ax
    case Transitive(_) =>
      forall v: nat -> D { RoleForTrue(S, v, p, x, z); }
      EdgesHold(I, three, RoleFor(p, x, z), p, x, y, y, z);
    case Symmetric(_) =>
      assert RoleFor(p, y, x) == RoleFor(p.Flip(), x, y);
      ImplicationHolds(I, three, p, p.Flip(), x, y);
    case Functional(_) => EdgesHold(I, three, EqAtom(y, z), p, x, y, x, z);
    case InverseFunctional(_) =>
      assert RoleFor(p, y, x) == RoleFor(p.Flip(), x, y) && RoleFor(p, z, x) == RoleFor(p.Flip(), x, z);
      EdgesHold(I, three, EqAtom(y, z), p.Flip(), x, y, x, z);
  }

  lemma FactHolds<D(!new)>(I: Interp<D>, st: State, a: Atom)
    requires Fact(st, a).Ok? && Holds(Expansion(I), st) && FactTrue(Expansion(I), a)
    ensures Holds(Expansion(I), Fact(st, a).value)
  {
    EmitHolds(Expansion(I), st, Some(a), []);
  }

  lemma AssertionHolds<D(!new)>(level: nat, I: Interp<D>, st: State, ax: Axiom)
    requires ax.Assertion() && CompileAssertion(level, st, ax).Ok? && Holds(Expansion(I), st)
    requires AxiomTrue(I, ax)
    ensures Holds(Expansion(I), CompileAssertion(level, st, ax).value)
  {
    hide Fact;
    hide Head;
    hide EmitAll;
    match ax
    case ClassAssertion(a, c) =>
      NormalizeSame(I, c);
      HeadHolds(level, I, st, Normalize(c), Const(a), []);
    case PropertyAssertion(name, a, b) => FactHolds(I, st, RoleAtom(name, Const(a), Const(b)));
    case SameAs(a, b) => FactHolds(I, st, EqAtom(Const(a), Const(b)));
    case DifferentFrom(a, b) => FactHolds(I, st, NeqAtom(Const(a), Const(b)));
    case AllDifferent(nodes) =>
      var terms := Constants(nodes);
      var apart := Different(Combinations(terms), []);
      forall r | r in apart ensures RuleTrue(Expansion(I), r) {
        var k :| 0 <= k < |apart| && apart[k] == r;
        var i, j := CombinationsOnly(terms, Combinations(terms)[k]);
      }
      EmitAllHolds(Expansion(I), st, apart);
    case NamedIndividual(a) => FactHolds(I, st, TopAtom(Const(a)));
  }

  lemma CompileAxiomHolds<D(!new)>(level: nat, I: Interp<D>, st: State, ax: Axiom)
    requires CompileAxiom(level, st, ax).Ok? && Holds(Expansion(I), st) && AxiomTrue(I, ax)
    ensures Holds(Expansion(I), CompileAxiom(level, st, ax).value)
  {
    hide AxiomTrue;
    hide CompileClassAxiom;
    hide CompileRoleAxiom;
    hide CompileCharacteristic;
    hide CompileAssertion;
    if ax.AboutClasses() {
      ClassAxiomHolds(level, I, st, ax);
    } else if ax.AboutRoles() {
      RoleAxiomHolds(level, I, st, ax);
    } else if ax.Characteristic() {
      CharacteristicHolds(level, I, st, ax);
    } else {
      AssertionHolds(level, I, st, ax);
    }
  }

  lemma {:induction false} CompileAxiomsHold<D(!new)>(level: nat, I: Interp<D>, st: State, axioms: seq<Axiom>)
    requires CompileAxioms(level, st, axioms).Ok? && Holds(Expansion(I), st) && AxiomsTrue(I, axioms)
    ensures Holds(Expansion(I), CompileAxioms(level, st, axioms).value)
    decreases |axioms|
  {
    hide AxiomTrue;
    hide CompileAxiom;
    if axioms != [] {
      CompileAxiomHolds(level, I, st, axioms[0]);
      CompileAxiomsHold(level, I, CompileAxiom(level, st, axioms[0]).value, axioms[1..]);
    }
  }

  /** A model of the axioms, expanded, is a model of the compiled program. */
  lemma CompileComplete<D(!new)>(level: nat, axioms: seq<Axiom>, I: Interp<D>)
    requires Compile(level, axioms).Ok? && AxiomsTrue(I, axioms)
    ensures Expansion(I).base == I
    ensures Satisfies(Expansion(I), Compile(level, axioms).value.rules, Compile(level, axioms).value.facts)
  {
    hide CompileAxioms;
    hide AxiomTrue;
    DistinctSpec(CompileAxioms(level, INITIAL, axioms).value.rules);
    CompileAxiomsHold(level, I, INITIAL, axioms);
  }

  /** What follows about the original vocabulary is exactly what follows from the compiled program. */
  lemma ConsequencesPreserved<D(!new)>(level: nat, axioms: seq<Axiom>, phi: Interp<D> -> bool)
    requires Compile(level, axioms).Ok?
    ensures var program := Compile(level, axioms).value;
      (forall I: Interp<D> | AxiomsTrue(I, axioms) :: phi(I)) <==>
      (forall S: Structure<D> | Satisfies(S, program.rules, program.facts) :: phi(S.base))
  {
    hide Compile;
    hide AxiomsTrue;
    var program := Compile(level, axioms).value;
    forall S: Structure<D> | Satisfies(S, program.rules, program.facts) ensures AxiomsTrue(S.base, axioms) {
      CompileSound(level, axioms, S);
    }
    forall I: Interp<D> | AxiomsTrue(I, axioms)
      ensures Expansion(I).base == I && Satisfies(Expansion(I), program.rules, program.facts)
    {
      CompileComplete(level, axioms, I);
    }
  }
}
