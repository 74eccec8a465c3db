/** Translated antecedents cover the expressions they translate. */
module Antecedents {
  import opened Options
  import opened Expressions
  import opened Semantics
  import opened Rules
  import opened Structures
  import opened Results
  import opened Translation
  import opened Scoping

  ghost predicate Satisfies<D(!new)>(S: Structure<D>, rules: seq<Rule>, facts: set<Atom>) {
    && (forall r | r in rules :: RuleTrue(S, r))
    && (forall f | f in facts :: FactTrue(S, f))
  }

  ghost predicate Holds<D(!new)>(S: Structure<D>, st: State) { Satisfies(S, st.rules, st.facts) }

  lemma HoldsEarlier<D(!new)>(S: Structure<D>, a: State, b: State)
    requires Grows(a, b) && Holds(S, b)
    ensures Holds(S, a)
  {
    forall r | r in a.rules ensures RuleTrue(S, r) { assert r in b.rules; }
  }

  /** The auxiliary predicate of an antecedent contains its extension. */
  ghost predicate Defined<D(!new)>(S: Structure<D>, e: Expr) {
    forall d: D :: Sat(S.base, e, d) ==> S.bodyNames(e, d)
  }

  /** The auxiliary predicate of a witness filler is contained in its extension. */
  ghost predicate Described<D(!new)>(S: Structure<D>, e: Expr) {
    forall d: D :: S.headNames(e, d) ==> Sat(S.base, e, d)
  }

  /** Definitions up to a given weight are in force; heavier ones may still be under construction. */
  ghost predicate DefinedTo<D(!new)>(S: Structure<D>, defs: set<Expr>, bound: int) {
    forall e | e in defs && Weight(e) <= bound :: Defined(S, e)
  }

  ghost predicate DescribedTo<D(!new)>(S: Structure<D>, defs: set<Expr>, bound: int) {
    forall e | e in defs && Weight(e) <= bound :: Described(S, e)
  }

  ghost predicate AllDefined<D(!new)>(S: Structure<D>, defs: set<Expr>) { forall e | e in defs :: Defined(S, e) }

  ghost predicate AllDescribed<D(!new)>(S: Structure<D>, defs: set<Expr>) { forall e | e in defs :: Described(S, e) }

  ghost predicate AgreeTo<D>(v: nat -> D, w: nat -> D, n: nat) { forall i: nat | i <= n :: v(i) == w(i) }

  // ----- Emitted clauses speak -----

  lemma EmitMeans<D(!new)>(S: Structure<D>, st: State, head: Option<Atom>, raw: seq<Atom>, v: nat -> D)
    requires Emit(st, head, raw).Ok? && Holds(S, Emit(st, head, raw).value)
    requires BodyTrue(S, v, raw)
    ensures HeadTrue(S, v, head)
  {
    var body := Distinct(raw);
    DistinctSpec(raw);
    var after := Emit(st, head, raw).value;
    if head.Some? && body == [] && GroundAtom(head.value) {
      assert head.value in after.facts;
    } else {
      assert Canonical(head, body) in after.rules;
      CanonicalMeans(S, head, body, v);
    }
  }

  lemma {:induction false} EmitAllMeans<D(!new)>(S: Structure<D>, st: State, clauses: seq<Rule>, i: nat, v: nat -> D)
    requires EmitAll(st, clauses).Ok? && Holds(S, EmitAll(st, clauses).value)
    requires i < |clauses| && BodyTrue(S, v, clauses[i].body)
    ensures HeadTrue(S, v, clauses[i].head)
    decreases |clauses|
  {
    var next := Emit(st, clauses[0].head, clauses[0].body).value;
    if i == 0 {
      HoldsEarlier(S, next, EmitAll(next, clauses[1..]).value);
      EmitMeans(S, st, clauses[0].head, clauses[0].body, v);
    } else {
      EmitAllMeans(S, next, clauses[1..], i - 1, v);
    }
  }

  lemma BodyTrueTo<D>(S: Structure<D>, v: nat -> D, w: nat -> D, body: seq<Atom>, n: nat)
    requires BodyBelow(body, n) && AgreeTo(v, w, n)
    ensures BodyTrue(S, v, body) == BodyTrue(S, w, body)
  {
    forall a | a in body ensures AtomTrue(S, v, a) == AtomTrue(S, w, a) { AtomAgree(S, v, w, a); }
  }

  lemma EvalTo<D>(S: Structure<D>, v: nat -> D, w: nat -> D, t: Term, n: nat)
    requires TermBelow(t, n) && AgreeTo(v, w, n)
    ensures Eval(S, v, t) == Eval(S, w, t)
  {
    EvalAgree(S, v, w, t);
  }

  // ----- Antecedents cover their expression -----

  /** An individual in the extension satisfies some alternative, by choosing values for fresh variables. */
  lemma {:induction false} BodyCovers<D(!new)>(level: nat, S: Structure<D>, st: State, e: Expr, x: Term, factor: bool,
      v: nat -> D)
      returns (alt: seq<Atom>, w: nat -> D)
    requires Body(level, st, e, x, factor).Ok?
    requires Holds(S, Body(level, st, e, x, factor).value.st)
    requires DefinedTo(S, st.bodyDefs, if factor then Weight(e) else Weight(e) - 1)
    requires !x.Skolem? && TermBelow(x, st.counter)
    requires Sat(S.base, e, Eval(S, v, x))
    ensures alt in Body(level, st, e, x, factor).value.alternatives
    ensures BodyTrue(S, w, alt) && AgreeTo(v, w, st.counter)
    decreases Weight(e), if factor then 2 else 0
  {
    hide Emit;
    hide BodyReference;
    hide BodyParts;
    hide BodyUnion;
    hide Product;
    var r := Body(level, st, e, x, factor).value;
    w := v;
    if factor && Factored(e) {
      ReferenceDefines(level, S, st, e, x);
      alt := [BodyName(e, x)];
    } else {
      match e
      case Junction(And, args) =>
        if args == [] {
          alt, w := BodyCovers(level, S, st, Top, x, true, v);
        } else {
          alt, w := PartsCover(level, S, st, args, x, v);
        }
      case Junction(Or, args) =>
        alt, w := UnionCovers(level, S, st, args, x, v);
      case Exists(p, c) =>
        alt, w := ExistsCovers(level, S, st, p, c, x, v);
      case OneOf(items) => alt := ItemCovers(S, items, x, v);
      case Min(p, n) =>
        if n == 0 {
          alt := [TopAtom(x)];
        } else {
          alt, w := SuccessorCovers(S, p, x, st.counter, v);
        }
      case Class(c) => alt := [ClassAtom(c, x)];
      case Top => alt := [TopAtom(x)];
      case Value(p, a) => alt := [RoleFor(p, x, Const(a))];
      case _ => assert false;
    }
  }

  lemma ItemCovers<D(!new)>(S: Structure<D>, items: seq<Node>, x: Term, v: nat -> D) returns (alt: seq<Atom>)
    requires Sat(S.base, OneOf(items), Eval(S, v, x))
    ensures alt in Enumerated(items, x) && BodyTrue(S, v, alt)
  {
    var a :| a in items && Eval(S, v, x) == S.base.individuals(a);
    var i :| 0 <= i < |items| && items[i] == a;
    alt := Enumerated(items, x)[i];
  }

  lemma SuccessorCovers<D(!new)>(S: Structure<D>, p: Property, x: Term, n: nat, v: nat -> D)
      returns (alt: seq<Atom>, w: nat -> D)
    requires AtLeast(S.base, p, Eval(S, v, x), 1) && TermBelow(x, n)
    ensures alt == [RoleFor(p, x, Var(n + 1))] && BodyTrue(S, w, alt) && AgreeTo(v, w, n)
  {
    var ys: seq<D> :| Successors(S.base, p, Eval(S, v, x), 1, ys);
    w := Assign(v, n + 1, ys[0]);
    EvalTo(S, v, w, x, n);
    alt := [RoleFor(p, x, Var(n + 1))];
    RoleForTrue(S, w, p, x, Var(n + 1));
    BodyOne(S, w, RoleFor(p, x, Var(n + 1)));
  }

  lemma {:induction false} ExistsCovers<D(!new)>(level: nat, S: Structure<D>, st: State, p: Property, c: Expr, x: Term,
      v: nat -> D)
      returns (alt: seq<Atom>, w: nat -> D)
    requires Body(level, st, Exists(p, c), x, false).Ok?
    requires Holds(S, Body(level, st, Exists(p, c), x, false).value.st)
    requires DefinedTo(S, st.bodyDefs, Weight(c))
    requires !x.Skolem? && TermBelow(x, st.counter)
    requires Sat(S.base, Exists(p, c), Eval(S, v, x))
    ensures alt in Body(level, st, Exists(p, c), x, false).value.alternatives
    ensures BodyTrue(S, w, alt) && AgreeTo(v, w, st.counter)
    decreases Weight(c), 3
  {
    hide Emit;
    var d: D :| Related(S.base, p, Eval(S, v, x), d) && Sat(S.base, c, d);
    var y := st.Next();
    var u := Assign(v, st.counter + 1, d);
    var inner := Body(level, st.Bump(), c, y, true).value;
    var r := Body(level, st, Exists(p, c), x, false).value;
    var rest;
    rest, w := BodyCovers(level, S, st.Bump(), c, y, true, u);
    var i :| 0 <= i < |inner.alternatives| && inner.alternatives[i] == rest;
    alt := r.alternatives[i];
    assert alt == [RoleFor(p, x, y)] + rest;
    EvalTo(S, v, w, x, st.counter);
    assert AtomTrue(S, w, RoleFor(p, x, y));
  }

  /** The rules of a definition put the whole extension into the auxiliary predicate. */
  lemma {:induction false} DefinitionReaches<D(!new)>(level: nat, S: Structure<D>, st: State, e: Expr, d: D)
    requires Body(level, st.Bump(), e, st.Next(), false).Ok?
    requires var inner := Body(level, st.Bump(), e, st.Next(), false).value;
      var closed := EmitAll(inner.st, Clauses(Some(BodyName(e, st.Next())), [], inner.alternatives));
      closed.Ok? && Holds(S, closed.value)
    requires DefinedTo(S, st.bodyDefs, Weight(e) - 1)
    requires Sat(S.base, e, d)
    ensures S.bodyNames(e, d)
    decreases Weight(e), 1, 0
  {
    hide Emit;
    hide Body;
    hide Sat;
    var y := st.Next();
    var inner := Body(level, st.Bump(), e, y, false).value;
    var clauses := Clauses(Some(BodyName(e, y)), [], inner.alternatives);
    HoldsEarlier(S, inner.st, EmitAll(inner.st, clauses).value);
    var v := Constantly(d);
    var alt, w := BodyCovers(level, S, st.Bump(), e, y, false, v);
    var i :| 0 <= i < |inner.alternatives| && inner.alternatives[i] == alt;
    assert clauses[i].body == alt;
    EvalTo(S, v, w, y, st.counter + 1);
    EmitAllMeans(S, inner.st, clauses, i, w);
  }

  /** After a reference, the named expression and everything newly named is defined. */
  lemma {:induction false} ReferenceDefines<D(!new)>(level: nat, S: Structure<D>, st: State, e: Expr, x: Term)
    requires BodyReference(level, st, e, x).Ok?
    requires Holds(S, BodyReference(level, st, e, x).value.st)
    requires DefinedTo(S, st.bodyDefs, Weight(e))
    ensures Defined(S, e)
    ensures AllDefined(S, BodyReference(level, st, e, x).value.st.bodyDefs - st.bodyDefs)
    decreases Weight(e), 1, 1
  {
    hide Emit;
    hide Body;
    hide Sat;
    if e !in st.bodyDefs {
      var entered := st.(bodyDefs := st.bodyDefs + {e});
      var y := entered.Next();
      var inner := Body(level, entered.Bump(), e, y, false).value;
      var clauses := Clauses(Some(BodyName(e, y)), [], inner.alternatives);
      HoldsEarlier(S, inner.st, EmitAll(inner.st, clauses).value);
      forall d: D | Sat(S.base, e, d) ensures S.bodyNames(e, d) {
        DefinitionReaches(level, S, entered, e, d);
      }
      BodyDefines(level, S, entered.Bump(), e, y, false);
    }
  }

  /** Everything that translating an antecedent newly names is defined. */
  lemma {:induction false} BodyDefines<D(!new)>(level: nat, S: Structure<D>, st: State, e: Expr, x: Term, factor: bool)
    requires Body(level, st, e, x, factor).Ok?
    requires Holds(S, Body(level, st, e, x, factor).value.st)
    requires DefinedTo(S, st.bodyDefs, if factor then Weight(e) else Weight(e) - 1)
    ensures AllDefined(S, Body(level, st, e, x, factor).value.st.bodyDefs - st.bodyDefs)
    decreases Weight(e), if factor then 2 else 0
  {
    hide Emit;
    if factor && Factored(e) {
      ReferenceDefines(level, S, st, e, x);
    } else {
      match e
      case Junction(And, args) =>
        if args != [] { PartsDefine(level, S, st, args, x); }
      case Junction(Or, args) => UnionDefines(level, S, st, args, x);
      case Exists(p, c) => BodyDefines(level, S, st.Bump(), c, st.Next(), true);
      case _ =>
    }
  }

  lemma {:induction false} PartsDefine<D(!new)>(level: nat, S: Structure<D>, st: State, args: seq<Expr>, x: Term)
    requires BodyParts(level, st, args, x).Ok?
    requires Holds(S, BodyParts(level, st, args, x).value.st)
    requires DefinedTo(S, st.bodyDefs, Weights(args))
    ensures AllDefined(S, BodyParts(level, st, args, x).value.st.bodyDefs - st.bodyDefs)
    decreases Weights(args) + 1, 0
  {
    hide Emit;
    if args != [] {
      var first := FirstPart(level, S, st, args, x);
      PartsDefine(level, S, first.st, args[1..], x);
    }
  }

  /** The first conjunct's share of `BodyParts`. */
  lemma {:induction false} FirstPart<D(!new)>(level: nat, S: Structure<D>, st: State, args: seq<Expr>, x: Term)
    returns (first: Bodies)
    requires args != [] && BodyParts(level, st, args, x).Ok?
    requires Holds(S, BodyParts(level, st, args, x).value.st)
    requires DefinedTo(S, st.bodyDefs, Weights(args))
    ensures Ok(first) == if args[0].OneOf? then BodyReference(level, st, args[0], x) else
      Body(level, st, args[0], x, true)
    ensures Holds(S, first.st) && BodyGrows(st, first.st)
    ensures AllDefined(S, first.st.bodyDefs - st.bodyDefs)
    ensures DefinedTo(S, first.st.bodyDefs, Weights(args))
    decreases Weights(args), 3
  {
    hide Emit;
    first := (if args[0].OneOf? then BodyReference(level, st, args[0], x) else Body(level, st, args[0], x, true)).value;
    HoldsEarlier(S, first.st, BodyParts(level, st, args, x).value.st);
    if args[0].OneOf? {
      ReferenceDefines(level, S, st, args[0], x);
    } else {
      BodyDefines(level, S, st, args[0], x, true);
    }
  }

  lemma {:induction false} PartsCover<D(!new)>(level: nat, S: Structure<D>, st: State, args: seq<Expr>, x: Term,
      v: nat -> D)
      returns (alt: seq<Atom>, w: nat -> D)
    requires BodyParts(level, st, args, x).Ok?
    requires Holds(S, BodyParts(level, st, args, x).value.st)
    requires DefinedTo(S, st.bodyDefs, Weights(args))
    requires !x.Skolem? && TermBelow(x, st.counter)
    requires forall c | c in args :: Sat(S.base, c, Eval(S, v, x))
    ensures alt in Product(BodyParts(level, st, args, x).value.parts)
    ensures BodyTrue(S, w, alt) && AgreeTo(v, w, st.counter)
    decreases Weights(args) + 1, 0
  {
    hide Emit;
    if args == [] {
      alt, w := [], v;
    } else {
      var first := FirstPart(level, S, st, args, x);
      var rest := BodyParts(level, first.st, args[1..], x).value;
      var l, u;
      if args[0].OneOf? {
        ReferenceDefines(level, S, st, args[0], x);
        l, u := [BodyName(args[0], x)], v;
        assert l[0] == BodyName(args[0], x);
      } else {
        l, u := BodyCovers(level, S, st, args[0], x, true, v);
        BodyScoped(level, st, args[0], x, true);
      }
      assert BodyBelow(l, first.st.counter);
      EvalTo(S, v, u, x, st.counter);
      var r;
      r, w := PartsCover(level, S, first.st, args[1..], x, u);
      BodyTrueTo(S, u, w, l, first.st.counter);
      alt := l + r;
      CrossContains(first.alternatives, Product(rest.parts), l, r);
      assert BodyParts(level, st, args, x).value.parts[1..] == rest.parts;
    }
  }

  lemma {:induction false} UnionDefines<D(!new)>(level: nat, S: Structure<D>, st: State, args: seq<Expr>, x: Term)
    requires BodyUnion(level, st, args, x).Ok?
    requires Holds(S, BodyUnion(level, st, args, x).value.st)
    requires DefinedTo(S, st.bodyDefs, Weights(args))
    ensures AllDefined(S, BodyUnion(level, st, args, x).value.st.bodyDefs - st.bodyDefs)
    decreases Weights(args) + 1, 0
  {
    hide Emit;
    if args != [] {
      var first := Body(level, st, args[0], x, true).value;
      HoldsEarlier(S, first.st, BodyUnion(level, st, args, x).value.st);
      BodyDefines(level, S, st, args[0], x, true);
      UnionDefines(level, S, first.st, args[1..], x);
    }
  }

  lemma {:induction false} UnionCovers<D(!new)>(level: nat, S: Structure<D>, st: State, args: seq<Expr>, x: Term,
      v: nat -> D)
      returns (alt: seq<Atom>, w: nat -> D)
    requires BodyUnion(level, st, args, x).Ok?
    requires Holds(S, BodyUnion(level, st, args, x).value.st)
    requires DefinedTo(S, st.bodyDefs, Weights(args))
    requires !x.Skolem? && TermBelow(x, st.counter)
    requires exists c | c in args :: Sat(S.base, c, Eval(S, v, x))
    ensures alt in BodyUnion(level, st, args, x).value.alternatives
    ensures BodyTrue(S, w, alt) && AgreeTo(v, w, st.counter)
    decreases Weights(args) + 1, 0
  {
    hide Emit;
    var first := Body(level, st, args[0], x, true).value;
    HoldsEarlier(S, first.st, BodyUnion(level, st, args, x).value.st);
    assert args == [args[0]] + args[1..];
    if Sat(S.base, args[0], Eval(S, v, x)) {
      alt, w := BodyCovers(level, S, st, args[0], x, true, v);
    } else {
      BodyDefines(level, S, st, args[0], x, true);
      alt, w := UnionCovers(level, S, first.st, args[1..], x, v);
    }
  }
}
