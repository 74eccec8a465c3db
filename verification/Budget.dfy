/** The rule budget is exceeded only where a count that the axioms alone determine exceeds it. */
module Budget {
  import opened Options
  import opened Expressions
  import opened Normalization
  import opened Axioms
  import opened Rules
  import opened Results
  import opened Translation
  import opened Factoring
  import opened Acceptance

  /** At most this many rules are added, and a failure over the budget needs more than the budget. */
  ghost predicate Within(st: State, r: Result<State>, cost: nat) {
    && (r.Ok? ==> |r.value.rules| <= |st.rules| + cost)
    && (r.Ok? && |st.rules| <= MAX_COMPILED_RULES ==> |r.value.rules| <= MAX_COMPILED_RULES)
    && (r == Err(OverBudget) ==> |st.rules| + cost > MAX_COMPILED_RULES)
  }

  /** The same for an antecedent, whose alternatives may be counted too. */
  ghost predicate BodyWithin(st: State, r: Result<Bodies>, cost: nat, alternatives: nat) {
    && (r.Ok? ==> |r.value.st.rules| + alternatives <= |st.rules| + cost)
    && (r.Ok? && |st.rules| <= MAX_COMPILED_RULES ==> |r.value.st.rules| <= MAX_COMPILED_RULES)
    && (r == Err(OverBudget) ==> |st.rules| + cost > MAX_COMPILED_RULES)
  }

  function Alternatives(r: Result<Bodies>): nat { if r.Ok? then |r.value.alternatives| else 0 }

  // ----- Counts -----

  /** The witnesses of a minimum and their pairs. */
  function Triangle(n: nat): nat { if n == 0 then 0 else n + Triangle(n - 1) }

  lemma {:induction false} TriangleIs(n: nat)
    ensures n * (n + 1) / 2 == Triangle(n)
  {
    if n > 0 {
      TriangleIs(n - 1);
      assert n * (n + 1) == (n - 1) * n + 2 * n;
    }
  }

  function AtLeastOne(n: nat): nat { if n == 0 then 1 else n }

  function Times(a: nat, b: nat): nat { a * b }

  /** Rules that a consequent may need, for each antecedent. */
  function HeadCost(e: Expr): nat
    decreases Weight(e), 0
  {
    match e
    case Junction(And, args) => 1 + HeadCosts(args)
    case Junction(Or, args) =>
      if args == [] then 1
      else if |args| == 1 then
        assert Weights(args) == Weight(args[0]) + Weights(args[1..]);
        HeadCost(args[0])
      else
        var rest := Normalize(Junction(And, NegatedOperands(args)));
        var positives := Positives(args);
        assert positives != [] ==> Weight(positives[0]) <= Weights(args);
        2 * Size(rest) + Times(Width(rest), if positives == [] then 1 else HeadCost(positives[0]))
    case Not(c) => 2 * Size(c) + Width(c)
    case Forall(_, c) => HeadCost(c)
    case Exists(_, c) => 2 + HeadCost(c)
    case Min(_, n) => 1 + Triangle(n)
    case Exact(_, n) => 2 + Triangle(n)
    case _ => 1
  }

  function HeadCosts(args: seq<Expr>): nat
    decreases Weights(args) + 1, 1
  {
    if args == [] then 0 else
    assert Weights(args) == Weight(args[0]) + Weights(args[1..]);
    HeadCost(args[0]) + HeadCosts(args[1..])
  }

  function InclusionCost(left: Expr, right: Expr): nat {
    2 * Size(left) + Times(AtLeastOne(Width(left)), HeadCost(right))
  }

  function DisjointCost(left: Expr, right: Expr): nat {
    2 * Size(left) + 2 * Size(right) + Times(Width(left), Width(right))
  }

  function PairsCost(pairs: seq<(Expr, Expr)>): nat {
    if pairs == [] then 0 else DisjointCost(Normalize(pairs[0].0), Normalize(pairs[0].1)) + PairsCost(pairs[1..])
  }

  /** Rules that an axiom may need. */
  function AxiomCost(ax: Axiom): nat {
    match ax
    case SubClass(c, d) => InclusionCost(Normalize(c), Normalize(d))
    case EquivalentClasses(c, d) =>
      InclusionCost(Normalize(c), Normalize(d)) + InclusionCost(Normalize(d), Normalize(c))
    case DisjointClasses(c, d) => DisjointCost(Normalize(c), Normalize(d))
    case AllDisjoint(members) => PairsCost(Combinations(members))
    case ClassAssertion(_, c) => HeadCost(Normalize(c))
    case SubProperty(_, _) => 1
    case EquivalentProperties(_, _) => 2
    case InverseProperties(_, _) => 2
    case Domain(_, c) => HeadCost(Normalize(c))
    case Range(_, c) => HeadCost(Normalize(c))
    case AllDifferent(nodes) => |Combinations(Constants(nodes))|
    case _ => 1
  }

  function RuleCost(axioms: seq<Axiom>): nat {
    if axioms == [] then 0 else AxiomCost(axioms[0]) + RuleCost(axioms[1..])
  }

  // ----- Emission -----

  lemma EmitWithin(st: State, head: Option<Atom>, raw: seq<Atom>)
    ensures Within(st, Emit(st, head, raw), 1)
  {
  }

  lemma {:induction false} EmitAllWithin(st: State, clauses: seq<Rule>)
    ensures Within(st, EmitAll(st, clauses), |clauses|)
    decreases |clauses|
  {
    hide Emit;
    if clauses != [] {
      var next := Emit(st, clauses[0].head, clauses[0].body);
      EmitWithin(st, clauses[0].head, clauses[0].body);
      if next.Ok? { EmitAllWithin(next.value, clauses[1..]); }
    }
  }

  // ----- Antecedents -----

  lemma {:induction false} BodyIsWithin(level: nat, st: State, e: Expr, x: Term)
    ensures BodyWithin(st, Body(level, st, e, x, true), if e.OneOf? then 0 else 2 * Size(e) - 1, 0)
    ensures Alternatives(Body(level, st, e, x, true)) <= Width(e)
    decreases Weight(e), 2
  {
    hide BodyReference;
    if Factored(e) { ReferenceWithin(level, st, e, x); }
  }

  lemma {:induction false} ReferenceWithin(level: nat, st: State, e: Expr, x: Term)
    requires Factored(e) || e.OneOf?
    ensures BodyWithin(st, BodyReference(level, st, e, x), 2 * Size(e) - 1, 0)
    decreases Weight(e), 1
  {
    hide Body;
    hide EmitAll;
    hide Clauses;
    if e !in st.bodyDefs {
      var entered := st.(bodyDefs := st.bodyDefs + {e});
      var y := entered.Next();
      var inner := Body(level, entered.Bump(), e, y, false);
      DefinitionWithin(level, entered.Bump(), e, y);
      if inner.Ok? {
        EmitAllWithin(inner.value.st, Clauses(Some(BodyName(e, y)), [], inner.value.alternatives));
      }
    }
  }

  lemma {:induction false} DefinitionWithin(level: nat, st: State, e: Expr, y: Term)
    requires Factored(e) || e.OneOf?
    ensures var r := Body(level, st, e, y, false); BodyWithin(st, r, 2 * Size(e) - 1, Alternatives(r))
    decreases Weight(e), 0
  {
    hide BodyParts;
    hide BodyUnion;
    hide Product;
    hide Prefixed;
    match e
    case Junction(And, args) =>
      if args == [] {
        BodyIsWithin(level, st, Top, y);
      } else {
        PartsWithin(level, st, args, y);
      }
    case Junction(Or, args) => UnionWithin(level, st, args, y);
    case Exists(p, c) => BodyIsWithin(level, st.Bump(), c, st.Next());
    case OneOf(items) =>
  }

  lemma {:induction false} PartsWithin(level: nat, st: State, args: seq<Expr>, x: Term)
    ensures var r := BodyParts(level, st, args, x);
      && (r.Ok? ==> |r.value.st.rules| <= |st.rules| + 2 * Sizes(args) && |Product(r.value.parts)| <= 1)
      && (r.Ok? && |st.rules| <= MAX_COMPILED_RULES ==> |r.value.st.rules| <= MAX_COMPILED_RULES)
      && (r == Err(OverBudget) ==> |st.rules| + 2 * Sizes(args) > MAX_COMPILED_RULES)
    decreases Weights(args) + 1, 0
  {
    hide Body;
    hide BodyReference;
    if args != [] {
      var first := if args[0].OneOf? then BodyReference(level, st, args[0], x) else Body(level, st, args[0], x, true);
      if args[0].OneOf? { ReferenceWithin(level, st, args[0], x); } else { BodyIsWithin(level, st, args[0], x); }
      if first.Ok? {
        PartsWithin(level, first.value.st, args[1..], x);
        var rest := BodyParts(level, first.value.st, args[1..], x);
        if rest.Ok? {
          assert BodyParts(level, st, args, x).value.parts[1..] == rest.value.parts;
          AtMostOne(|first.value.alternatives|, |Product(rest.value.parts)|);
        }
      }
    }
  }

  lemma {:induction false} UnionWithin(level: nat, st: State, args: seq<Expr>, x: Term)
    ensures var r := BodyUnion(level, st, args, x); BodyWithin(st, r, 2 * Sizes(args), Alternatives(r))
    decreases Weights(args) + 1, 0
  {
    hide Body;
    if args != [] {
      BodyIsWithin(level, st, args[0], x);
      var first := Body(level, st, args[0], x, true);
      if first.Ok? { UnionWithin(level, first.value.st, args[1..], x); }
    }
  }

  // ----- Consequents -----

  lemma MoreWithin(st: State, r: Result<State>, cost: nat, more: nat)
    requires Within(st, r, cost) && cost <= more
    ensures Within(st, r, more)
  {
  }

  /** Two steps, one after the other. */
  lemma ThenWithin(st: State, first: State, r: Result<State>, a: nat, b: nat)
    requires Within(st, Ok(first), a) && Within(first, r, b)
    ensures Within(st, r, a + b)
  {
  }

  /** A step after an antecedent whose rules are counted. */
  lemma AfterBody(st: State, first: State, r: Result<State>, a: nat, b: nat)
    requires |first.rules| <= |st.rules| + a && Within(first, r, b)
    requires |st.rules| <= MAX_COMPILED_RULES ==> |first.rules| <= MAX_COMPILED_RULES
    ensures Within(st, r, a + b)
  {
  }

  lemma {:induction false} PairsOf(n: nat, s: seq<Term>)
    requires |s| == n
    ensures |Combinations(s)| + n == Triangle(n)
  {
    if n > 0 { PairsOf(n - 1, s[1..]); }
  }

  lemma MinWithin(level: nat, st: State, p: Property, n: nat, x: Term, body: seq<Atom>)
    ensures Within(st, HeadMin(level, st, p, n, x, body), 1 + Triangle(n))
  {
    hide Emit;
    hide EmitAll;
    hide Edges;
    hide Different;
    hide Combinations;
    if n == 0 {
      EmitWithin(st, Some(TopAtom(x)), body);
    } else {
      var witnesses := Witnesses(Min(p, n), x, n);
      PairsOf(n, witnesses);
      TriangleIs(n);
      hide Triangle;
      EmitAllWithin(st, Edges(p, x, witnesses, body));
      var linked := EmitAll(st, Edges(p, x, witnesses, body));
      if linked.Ok? { EmitAllWithin(linked.value, Different(Combinations(witnesses), body)); }
    }
  }

  lemma MaxWithin(level: nat, st: State, p: Property, n: nat, x: Term, body: seq<Atom>)
    ensures Within(st, HeadMax(level, st, p, n, x, body), 1)
  {
    hide Emit;
    if n == 0 {
      EmitWithin(st.Bump(), None, body + [RoleFor(p, x, st.Next())]);
    } else if n == 1 {
      var y, z := st.Next(), st.Bump().Next();
      EmitWithin(st.Bump().Bump(), Some(EqAtom(y, z)), body + [RoleFor(p, x, y), RoleFor(p, x, z)]);
    }
  }

  lemma {:induction false} HeadWithin(level: nat, st: State, e: Expr, x: Term, body: seq<Atom>)
    ensures Within(st, Head(level, st, e, x, body), if Named(e, x) then 1 + HeadCost(e) else HeadCost(e))
    decreases Weight(e), if x.Skolem? then 2 else 1, 0
  {
    hide Emit;
    hide Within;
    hide HeadOver;
    hide HeadEach;
    hide HeadMin;
    hide HeadMax;
    hide Body;
    hide Normalize;
    hide NegatedOperands;
    hide Positives;
    hide HeadCosts;
    if Named(e, x) {
      NamedWithin(level, st, e, x, body);
    } else {
      match e
      case Junction(And, args) => AndWithin(level, st, args, x, body);
      case Junction(Or, args) => OrWithin(level, st, args, x, body);
      case Forall(p, c) => ForallWithin(level, st, p, c, x, body);
      case Exists(p, c) => ExistsWithin(level, st, p, c, x, body);
      case Not(c) => NotWithin(level, st, c, x, body);
      case Min(p, n) => MinWithin(level, st, p, n, x, body);
      case Exact(p, n) => ExactWithin(level, st, p, n, x, body);
      case Max(p, n) => MaxWithin(level, st, p, n, x, body);
      case _ => LeafWithin(level, st, e, x, body);
    }
  }

  lemma LeafWithin(level: nat, st: State, e: Expr, x: Term, body: seq<Atom>)
    requires !Named(e, x) && (e.Class? || e.Top? || e.Bottom? || e.Value? || e.OneOf?)
    ensures Within(st, Head(level, st, e, x, body), 1)
  {
    hide Emit;
    match e
    case Class(c) => EmitWithin(st, Some(ClassAtom(c, x)), body);
    case Top => EmitWithin(st, Some(TopAtom(x)), body);
    case Bottom => EmitWithin(st, None, body);
    case Value(p, a) => EmitWithin(st, Some(RoleFor(p, x, Const(a))), body);
    case OneOf(items) =>
      EmitWithin(st, None, body);
      if |items| == 1 { EmitWithin(st, Some(EqAtom(x, Const(items[0]))), body); }
  }

  lemma {:induction false} NamedWithin(level: nat, st: State, e: Expr, x: Term, body: seq<Atom>)
    requires Named(e, x)
    ensures Within(st, Head(level, st, e, x, body), 1 + HeadCost(e))
    decreases Weight(e), 1, 1
  {
    hide Emit;
    hide HeadCost;
    EmitWithin(st, Some(HeadName(e, x)), body);
    var named := Emit(st, Some(HeadName(e, x)), body);
    if named.Ok? && e !in named.value.headDefs {
      var entered := named.value.(headDefs := named.value.headDefs + {e});
      var y := entered.Next();
      HeadWithin(level, entered.Bump(), e, y, [HeadName(e, y)]);
    }
  }

  lemma {:induction false} AndWithin(level: nat, st: State, args: seq<Expr>, x: Term, body: seq<Atom>)
    requires !Named(Junction(And, args), x)
    ensures Within(st, Head(level, st, Junction(And, args), x, body), 1 + HeadCosts(args))
    decreases Weight(Junction(And, args)), 0, 1
  {
    hide Emit;
    hide HeadEach;
    hide HeadCost;
    if args == [] {
      EmitWithin(st, Some(TopAtom(x)), body);
    } else {
      EachWithin(level, st, args, x, body);
    }
  }

  lemma {:induction false} EachWithin(level: nat, st: State, args: seq<Expr>, x: Term, body: seq<Atom>)
    requires !x.Skolem?
    ensures Within(st, HeadEach(level, st, args, x, body), HeadCosts(args))
    decreases Weights(args) + 1, 3, 0
  {
    hide Head;
    hide HeadCost;
    if args != [] {
      HeadWithin(level, st, args[0], x, body);
      var first := Head(level, st, args[0], x, body);
      if first.Ok? { EachWithin(level, first.value, args[1..], x, body); }
    }
  }

  lemma {:induction false} ForallWithin(level: nat, st: State, p: Property, c: Expr, x: Term, body: seq<Atom>)
    requires !Named(Forall(p, c), x)
    ensures Within(st, Head(level, st, Forall(p, c), x, body), HeadCost(c))
    decreases Weight(Forall(p, c)), 0, 1
  {
    hide Emit;
    hide HeadCost;
    HeadWithin(level, st.Bump(), c, st.Next(), body + [RoleFor(p, x, st.Next())]);
  }

  lemma {:induction false} ExistsWithin(level: nat, st: State, p: Property, c: Expr, x: Term, body: seq<Atom>)
    requires !Named(Exists(p, c), x)
    ensures Within(st, Head(level, st, Exists(p, c), x, body), 2 + HeadCost(c))
    decreases Weight(Exists(p, c)), 0, 1
  {
    hide Emit;
    hide HeadCost;
    EmitWithin(st, None, body);
    if !c.Bottom? {
      var w := Witness(Exists(p, c), x, 0);
      EmitWithin(st, Some(RoleFor(p, x, w)), body);
      var linked := Emit(st, Some(RoleFor(p, x, w)), body);
      if linked.Ok? { HeadWithin(level, linked.value, c, w, body); }
    }
  }

  lemma NotWithin(level: nat, st: State, c: Expr, x: Term, body: seq<Atom>)
    requires !Named(Not(c), x)
    ensures Within(st, Head(level, st, Not(c), x, body), 2 * Size(c) + Width(c))
  {
    hide Body;
    hide EmitAll;
    hide Clauses;
    BodyIsWithin(level, st, c, x);
    var negative := Body(level, st, c, x, true);
    if negative.Ok? { EmitAllWithin(negative.value.st, Clauses(None, body, negative.value.alternatives)); }
  }

  lemma ExactWithin(level: nat, st: State, p: Property, n: nat, x: Term, body: seq<Atom>)
    requires !Named(Exact(p, n), x)
    ensures Within(st, Head(level, st, Exact(p, n), x, body), 2 + Triangle(n))
  {
    hide HeadMin;
    hide HeadMax;
    hide Triangle;
    MinWithin(level, st, p, n, x, body);
    var atLeast := HeadMin(level, st, p, n, x, body);
    if atLeast.Ok? { MaxWithin(level, atLeast.value, p, n, x, body); }
  }

  lemma TimesMore(a: nat, b: nat, c: nat)
    requires a <= b
    ensures Times(a, c) <= Times(b, c)
  {
    assert (b - a) * c >= 0;
  }

  lemma {:induction false} OrWithin(level: nat, st: State, args: seq<Expr>, x: Term, body: seq<Atom>)
    requires !Named(Junction(Or, args), x)
    ensures Within(st, Head(level, st, Junction(Or, args), x, body), HeadCost(Junction(Or, args)))
    decreases Weight(Junction(Or, args)), 0, 1
  {
    hide Emit;
    hide Body;
    hide HeadOver;
    hide Normalize;
    hide NegatedOperands;
    hide Positives;
    hide Times;
    hide Size;
    hide Width;
    if args == [] {
      EmitWithin(st, None, body);
    } else if |args| == 1 {
      assert Weights(args) == Weight(args[0]) + Weights(args[1..]);
      HeadWithin(level, st, args[0], x, body);
    } else {
      var negatives, positives := NegatedOperands(args), Positives(args);
      if negatives != [] && |positives| <= 1 {
        var rest := Normalize(Junction(And, negatives));
        var target := if positives == [] then Bottom else positives[0];
        var extra := Body(level, st, rest, x, true);
        BodyIsWithin(level, st, rest, x);
        if extra.Ok? {
          assert positives != [] ==> positives[0] in positives && Weight(positives[0]) <= Weights(args);
          OverWithin(level, extra.value.st, target, x, body, extra.value.alternatives);
          TimesMore(|extra.value.alternatives|, Width(rest), HeadCost(target));
        }
      }
    }
  }

  lemma {:induction false} OverWithin(level: nat, st: State, e: Expr, x: Term, body: seq<Atom>,
      alternatives: seq<seq<Atom>>)
    requires !x.Skolem?
    ensures Within(st, HeadOver(level, st, e, x, body, alternatives), Times(|alternatives|, HeadCost(e)))
    decreases Weight(e), 3, |alternatives|
  {
    hide Head;
    hide HeadCost;
    if alternatives != [] {
      HeadWithin(level, st, e, x, body + alternatives[0]);
      var first := Head(level, st, e, x, body + alternatives[0]);
      if first.Ok? {
        OverWithin(level, first.value, e, x, body, alternatives[1..]);
        assert |alternatives| * HeadCost(e) == HeadCost(e) + (|alternatives| - 1) * HeadCost(e);
      }
    }
  }

  // ----- Axioms -----

  lemma InclusionWithin(level: nat, st: State, left: Expr, right: Expr)
    ensures Within(st, Inclusion(level, st, left, right), InclusionCost(left, right))
  {
    hide Body;
    hide Head;
    hide HeadOver;
    hide HeadCost;
    hide Size;
    hide Width;
    hide Times;
    var x := st.Next();
    var bodies := Body(level, st.Bump(), left, x, true);
    BodyIsWithin(level, st.Bump(), left, x);
    if bodies.Ok? {
      var alternatives := bodies.value.alternatives;
      OneTimes(HeadCost(right));
      if alternatives == [] {
        HeadWithin(level, bodies.value.st, right, x, [TopAtom(x)]);
        TimesMore(1, AtLeastOne(Width(left)), HeadCost(right));
      } else {
        OverWithin(level, bodies.value.st, right, x, [], alternatives);
        TimesMore(|alternatives|, AtLeastOne(Width(left)), HeadCost(right));
      }
    }
  }

  lemma OneTimes(c: nat)
    ensures Times(1, c) == c
  {
  }

  lemma DisjointWithin(level: nat, st: State, left: Expr, right: Expr)
    ensures Within(st, Disjoint(level, st, left, right), DisjointCost(left, right))
  {
    hide Body;
    hide EmitAll;
    hide Size;
    hide Width;
    hide Clauses;
    hide Cross;
    DisjointUnfolds(level, st, left, right);
    hide Disjoint;
    if level >= 2 {
      BodyIsWithin(level, st.Bump(), left, st.Next());
      var first := Body(level, st.Bump(), left, st.Next(), true);
      if first.Ok? {
        BodyIsWithin(level, first.value.st, right, st.Next());
        var second := Body(level, first.value.st, right, st.Next(), true);
        if second.Ok? {
          var crossed := Cross(first.value.alternatives, second.value.alternatives);
          EmitAllWithin(second.value.st, Clauses(None, [], crossed));
          CrossMore(|first.value.alternatives|, Width(left), |second.value.alternatives|, Width(right));
        }
      }
    }
  }

  lemma CrossMore(a: nat, b: nat, c: nat, d: nat)
    requires a <= b && c <= d
    ensures a * c <= Times(b, d)
  {
    assert (b - a) * c >= 0 && b * (d - c) >= 0;
  }

  lemma {:induction false} PairsWithin(level: nat, st: State, pairs: seq<(Expr, Expr)>)
    ensures Within(st, DisjointPairs(level, st, pairs), PairsCost(pairs))
    decreases |pairs|
  {
    hide Disjoint;
    hide DisjointCost;
    hide Normalize;
    if pairs != [] {
      var left, right := Normalize(pairs[0].0), Normalize(pairs[0].1);
      DisjointWithin(level, st, left, right);
      var first := Disjoint(level, st, left, right);
      if first.Ok? { PairsWithin(level, first.value, pairs[1..]); }
    }
  }

  lemma ClassAxiomWithin(level: nat, st: State, ax: Axiom)
    requires ax.AboutClasses()
    ensures Within(st, CompileClassAxiom(level, st, ax), AxiomCost(ax))
  {
    hide Inclusion;
    hide Disjoint;
    hide DisjointPairs;
    hide Normalize;
    hide InclusionCost;
    hide DisjointCost;
    hide PairsCost;
    hide Combinations;
    match ax
    case SubClass(c, d) => InclusionWithin(level, st, Normalize(c), Normalize(d));
    case EquivalentClasses(c, d) =>
      InclusionWithin(level, st, Normalize(c), Normalize(d));
      var forward := Inclusion(level, st, Normalize(c), Normalize(d));
      if forward.Ok? { InclusionWithin(level, forward.value, Normalize(d), Normalize(c)); }
    case DisjointClasses(c, d) => DisjointWithin(level, st, Normalize(c), Normalize(d));
    case AllDisjoint(members) => PairsWithin(level, st, Combinations(members));
  }

  lemma RoleAxiomWithin(level: nat, st: State, ax: Axiom)
    requires ax.AboutRoles()
    ensures Within(st, CompileRoleAxiom(level, st, ax), AxiomCost(ax))
  {
    hide Emit;
    hide Head;
    hide Normalize;
    hide HeadCost;
    var x, y := st.Next(), st.Bump().Next();
    var two := st.Bump().Bump();
    match ax
    case SubProperty(p, q) => EmitWithin(two, Some(RoleFor(q, x, y)), [RoleFor(p, x, y)]);
    case EquivalentProperties(p, q) => BothWithin(two, p, q, x, y);
    case InverseProperties(p, q) => BothWithin(two, p, q.Flip(), x, y);
    case Domain(p, c) => HeadWithin(level, two, Normalize(c), x, [RoleFor(p, x, y)]);
    case Range(p, c) => HeadWithin(level, two, Normalize(c), y, [RoleFor(p, x, y)]);
  }

  lemma BothWithin(st: State, p: Property, q: Property, x: Term, y: Term)
    ensures Within(st, Implication(st, p, q, x, y), 1)
    ensures Implication(st, p, q, x, y).Ok? ==>
      Within(st, Implication(Implication(st, p, q, x, y).value, q, p, x, y), 2)
  {
    hide Emit;
    EmitWithin(st, Some(RoleFor(q, x, y)), [RoleFor(p, x, y)]);
    var forward := Implication(st, p, q, x, y);
    if forward.Ok? { EmitWithin(forward.value, Some(RoleFor(p, x, y)), [RoleFor(q, x, y)]); }
  }

  lemma CharacteristicWithin(level: nat, st: State, ax: Axiom)
    requires ax.Characteristic()
    ensures Within(st, CompileCharacteristic(level, st, ax), 1)
  {
    hide Emit;
    var x, y, z := st.Next(), st.Bump().Next(), st.Bump().Bump().Next();
    var three := st.Bump().Bump().Bump();
    match ax
    case Transitive(p) => EmitWithin(three, Some(RoleFor(p, x, z)), [RoleFor(p, x, y), RoleFor(p, y, z)]);
    case Symmetric(p) => EmitWithin(three, Some(RoleFor(p, y, x)), [RoleFor(p, x, y)]);
    case Functional(p) => EmitWithin(three, Some(EqAtom(y, z)), [RoleFor(p, x, y), RoleFor(p, x, z)]);
    case InverseFunctional(p) => EmitWithin(three, Some(EqAtom(y, z)), [RoleFor(p, y, x), RoleFor(p, z, x)]);
  }

  lemma AssertionWithin(level: nat, st: State, ax: Axiom)
    requires ax.Assertion()
    ensures Within(st, CompileAssertion(level, st, ax), AxiomCost(ax))
  {
    hide Emit;
    hide EmitAll;
    hide Head;
    hide Normalize;
    hide HeadCost;
    hide Combinations;
    hide Different;
    hide Constants;
    match ax
    case ClassAssertion(a, c) => HeadWithin(level, st, Normalize(c), Const(a), []);
    case PropertyAssertion(name, a, b) => EmitWithin(st, Some(RoleAtom(name, Const(a), Const(b))), []);
    case SameAs(a, b) => EmitWithin(st, Some(EqAtom(Const(a), Const(b))), []);
    case DifferentFrom(a, b) => EmitWithin(st, Some(NeqAtom(Const(a), Const(b))), []);
    case AllDifferent(nodes) => EmitAllWithin(st, Different(Combinations(Constants(nodes)), []));
    case NamedIndividual(a) => EmitWithin(st, Some(TopAtom(Const(a))), []);
  }

  lemma AxiomWithin(level: nat, st: State, ax: Axiom)
    ensures Within(st, CompileAxiom(level, st, ax), AxiomCost(ax))
  {
    hide CompileClassAxiom;
    hide CompileRoleAxiom;
    hide CompileCharacteristic;
    hide CompileAssertion;
    hide Within;
    if ax.AboutClasses() {
      ClassAxiomWithin(level, st, ax);
    } else if ax.AboutRoles() {
      RoleAxiomWithin(level, st, ax);
    } else if ax.Characteristic() {
      CharacteristicWithin(level, st, ax);
    } else {
      AssertionWithin(level, st, ax);
    }
  }

  lemma {:induction false} AxiomsWithin(level: nat, st: State, axioms: seq<Axiom>)
    ensures Within(st, CompileAxioms(level, st, axioms), RuleCost(axioms))
    decreases |axioms|
  {
    hide CompileAxiom;
    hide AxiomCost;
    if axioms != [] {
      AxiomWithin(level, st, axioms[0]);
      var first := CompileAxiom(level, st, axioms[0]);
      if first.Ok? { AxiomsWithin(level, first.value, axioms[1..]); }
    }
  }

  /** A program has at most 100,000 rules, and the budget is exceeded only by axioms whose count exceeds it. */
  lemma CompileWithin(level: nat, axioms: seq<Axiom>)
    ensures Compile(level, axioms).Ok? ==> |Compile(level, axioms).value.rules| <= 100_000
    ensures Compile(level, axioms).Ok? ==> |Compile(level, axioms).value.rules| <= RuleCost(axioms)
    ensures Compile(level, axioms) == Err(OverBudget) ==> RuleCost(axioms) > 100_000
  {
    hide CompileAxioms;
    hide RuleCost;
    AxiomsWithin(level, INITIAL, axioms);
  }

  /** Any minimum whose witnesses and pairs fit the budget compiles. */
  lemma MinimumCompiles(name: string, p: Property, n: nat)
    requires n >= 1 && n * (n + 1) / 2 + 3 <= 100_000
    ensures Compile(3, [SubClass(Class(name), Min(p, n))]).Ok?
  {
    var axioms := [SubClass(Class(name), Min(p, n))];
    TriangleIs(n);
    MinimumCost(name, p, n);
    CompileWithin(3, axioms);
    AcceptedLanguage(3, axioms);
    hide Compile;
    hide RuleCost;
    assert LegalAxiom(3, axioms[0]);
  }

  lemma MinimumCost(name: string, p: Property, n: nat)
    requires n >= 1
    ensures RuleCost([SubClass(Class(name), Min(p, n))]) == 3 + Triangle(n)
  {
    hide Triangle;
    var ax := SubClass(Class(name), Min(p, n));
    assert [ax][1..] == [];
    assert Normalize(Class(name)) == Class(name) && Normalize(Min(p, n)) == Min(p, n);
    OneTimes(1 + Triangle(n));
    assert RuleCost([ax]) == AxiomCost(ax) + RuleCost([]);
  }
}
