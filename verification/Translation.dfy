/** The translation of axioms into Horn rules, as functions from compiler state to compiler state. */
module Translation {
  import opened Options
  import opened Expressions
  import opened Normalization
  import opened Rules
  import opened Axioms
  import opened Results

  const MAX_COMPILED_RULES: nat := 100_000

  /** What the compiler accumulates: rules, ground facts, the variable counter and two definition tables. */
  datatype State = State(
    rules: seq<Rule>,
    facts: set<Atom>,
    counter: nat,
    bodyDefs: set<Expr>,
    headDefs: set<Expr>)
  {
    function Next(): Term { Var(counter + 1) }
    function Bump(): State { this.(counter := counter + 1) }
  }

  const INITIAL := State([], {}, 0, {}, {})

  /** Nothing recorded in `a` is lost in `b`. */
  ghost predicate Grows(a: State, b: State) {
    && a.rules <= b.rules && a.facts <= b.facts && a.counter <= b.counter
    && a.bodyDefs <= b.bodyDefs && a.headDefs <= b.headDefs
  }

  ghost predicate SameTables(a: State, b: State) {
    a.bodyDefs == b.bodyDefs && a.headDefs == b.headDefs
  }

  function Require(level: nat, needed: nat): Result<()> {
    if level < needed then Err(LevelTooLow) else Ok(())
  }

  // ----- Emission -----

  function Emit(st: State, head: Option<Atom>, raw: seq<Atom>): (r: Result<State>)
    ensures r.Ok? ==> Grows(st, r.value) && r.value.counter == st.counter
    ensures r.Ok? ==> SameTables(st, r.value)
  {
    var body := Distinct(raw);
    if head.Some? && body == [] && GroundAtom(head.value) then
      Ok(st.(facts := st.facts + {head.value}))
    else if |st.rules| >= MAX_COMPILED_RULES then
      Err(OverBudget)
    else
      Ok(st.(rules := st.rules + [Canonical(head, body)]))
  }

  function EmitAll(st: State, clauses: seq<Rule>): (r: Result<State>)
    ensures r.Ok? ==> Grows(st, r.value) && r.value.counter == st.counter
    ensures r.Ok? ==> SameTables(st, r.value)
    decreases |clauses|
  {
    if clauses == [] then Ok(st) else
    var next :- Emit(st, clauses[0].head, clauses[0].body);
    EmitAll(next, clauses[1..])
  }

  /** One clause per alternative, all with the same head. */
  function Clauses(head: Option<Atom>, prefix: seq<Atom>, alternatives: seq<seq<Atom>>): (r: seq<Rule>)
    ensures |r| == |alternatives|
    ensures forall i | 0 <= i < |r| :: r[i] == Rule(head, prefix + alternatives[i])
  {
    if alternatives == [] then []
    else [Rule(head, prefix + alternatives[0])] + Clauses(head, prefix, alternatives[1..])
  }

  // ----- Antecedents -----

  datatype Bodies = Bodies(st: State, alternatives: seq<seq<Atom>>)

  function Prefixed(first: seq<Atom>, alternatives: seq<seq<Atom>>): (r: seq<seq<Atom>>)
    ensures |r| == |alternatives|
    ensures forall i | 0 <= i < |r| :: r[i] == first + alternatives[i]
  {
    if alternatives == [] then []
    else [first + alternatives[0]] + Prefixed(first, alternatives[1..])
  }

  /** Every alternative on the left joined with every alternative on the right. */
  function Cross(left: seq<seq<Atom>>, right: seq<seq<Atom>>): (r: seq<seq<Atom>>)
    ensures |r| == |left| * |right|
  {
    if left == [] then [] else
    assert |left| * |right| == |right| + (|left| - 1) * |right|;
    Prefixed(left[0], right) + Cross(left[1..], right)
  }

  function Product(parts: seq<seq<seq<Atom>>>): seq<seq<Atom>> {
    if parts == [] then [[]] else Cross(parts[0], Product(parts[1..]))
  }

  function Enumerated(items: seq<Node>, x: Term): (r: seq<seq<Atom>>)
    ensures |r| == |items|
    ensures forall i | 0 <= i < |r| :: r[i] == [TopAtom(x), EqAtom(x, Const(items[i]))]
  {
    if items == [] then []
    else [[TopAtom(x), EqAtom(x, Const(items[0]))]] + Enumerated(items[1..], x)
  }

  /** Antecedent translation leaves facts and head definitions alone. */
  ghost predicate BodyGrows(a: State, b: State) {
    Grows(a, b) && a.facts == b.facts && a.headDefs == b.headDefs
  }

  function Factored(e: Expr): bool { e.Junction? || e.Exists? }

  function Body(level: nat, st: State, e: Expr, x: Term, factor: bool): (r: Result<Bodies>)
    ensures r.Ok? ==> BodyGrows(st, r.value.st)
    decreases Weight(e), if factor then 2 else 0
  {
    if factor && Factored(e) then BodyReference(level, st, e, x) else
    match e
    case Class(c) => Ok(Bodies(st, [[ClassAtom(c, x)]]))
    case Top => var _ :- Require(level, 1); Ok(Bodies(st, [[TopAtom(x)]]))
    case Bottom => var _ :- Require(level, 2); Ok(Bodies(st, []))
    case Junction(And, args) =>
      if args == [] then Body(level, st, Top, x, true) else
      var parts :- BodyParts(level, st, args, x);
      Ok(Bodies(parts.st, Product(parts.parts)))
    case Junction(Or, args) =>
      var _ :- if args == [] then Require(level, 2) else Ok(());
      BodyUnion(level, st, args, x)
    case Value(p, a) => Ok(Bodies(st, [[RoleFor(p, x, Const(a))]]))
    case Exists(p, c) =>
      var y := st.Next();
      var inner :- Body(level, st.Bump(), c, y, true);
      Ok(Bodies(inner.st, Prefixed([RoleFor(p, x, y)], inner.alternatives)))
    case OneOf(items) => var _ :- Require(level, 1); Ok(Bodies(st, Enumerated(items, x)))
    case Min(p, n) =>
      var _ :- Require(level, 1);
      if n == 0 then Ok(Bodies(st, [[TopAtom(x)]]))
      else if n == 1 then Ok(Bodies(st.Bump(), [[RoleFor(p, x, st.Next())]]))
      else Err(NotHorn)
    case _ => Err(NotHorn)
  }

  /** Names an antecedent by a one-way definition, written once per expression. */
  function BodyReference(level: nat, st: State, e: Expr, x: Term): (r: Result<Bodies>)
    ensures r.Ok? ==> BodyGrows(st, r.value.st) && r.value.alternatives == [[BodyName(e, x)]]
    decreases Weight(e), 1
  {
    if e in st.bodyDefs then Ok(Bodies(st, [[BodyName(e, x)]])) else
    var entered := st.(bodyDefs := st.bodyDefs + {e});
    var y := entered.Next();
    var inner :- Body(level, entered.Bump(), e, y, false);
    var closed :- Define(inner, e, y);
    Ok(Bodies(closed, [[BodyName(e, x)]]))
  }

  /** The rules of a one-way definition: each alternative puts `y` into the auxiliary predicate. */
  function Define(inner: Bodies, e: Expr, y: Term): (r: Result<State>)
    requires y.Var?
    ensures r.Ok? ==> BodyGrows(inner.st, r.value)
  {
    var clauses := Clauses(Some(BodyName(e, y)), [], inner.alternatives);
    EmitAllKeepsFacts(inner.st, clauses);
    EmitAll(inner.st, clauses)
  }

  datatype Parts = Parts(st: State, parts: seq<seq<seq<Atom>>>)

  function BodyParts(level: nat, st: State, args: seq<Expr>, x: Term): (r: Result<Parts>)
    ensures r.Ok? ==> BodyGrows(st, r.value.st)
    decreases Weights(args) + 1, 0
  {
    if args == [] then Ok(Parts(st, [])) else
    var first :- if args[0].OneOf? then BodyReference(level, st, args[0], x) else Body(level, st, args[0], x, true);
    var rest :- BodyParts(level, first.st, args[1..], x);
    Ok(Parts(rest.st, [first.alternatives] + rest.parts))
  }

  function BodyUnion(level: nat, st: State, args: seq<Expr>, x: Term): (r: Result<Bodies>)
    ensures r.Ok? ==> BodyGrows(st, r.value.st)
    decreases Weights(args) + 1, 0
  {
    if args == [] then Ok(Bodies(st, [])) else
    var first :- Body(level, st, args[0], x, true);
    var rest :- BodyUnion(level, first.st, args[1..], x);
    Ok(Bodies(rest.st, first.alternatives + rest.alternatives))
  }

  /** A clause whose head has a variable is never stored as a fact. */
  lemma {:induction false} EmitAllKeepsFacts(st: State, clauses: seq<Rule>)
    requires forall c | c in clauses :: c.head.Some? ==> !GroundAtom(c.head.value)
    ensures EmitAll(st, clauses).Ok? ==> EmitAll(st, clauses).value.facts == st.facts
    decreases |clauses|
  {
    if clauses != [] {
      var next := Emit(st, clauses[0].head, clauses[0].body);
      if next.Ok? { EmitAllKeepsFacts(next.value, clauses[1..]); }
    }
  }

  // ----- Consequents -----

  function Witness(e: Expr, x: Term, index: nat): Term {
    Skolem(Symbol(e, index), x)
  }

  function Witnesses(e: Expr, x: Term, n: nat): (r: seq<Term>)
    ensures |r| == n
    ensures forall i | 0 <= i < n :: r[i] == Witness(e, x, i)
  {
    if n == 0 then [] else Witnesses(e, x, n - 1) + [Witness(e, x, n - 1)]
  }

  function Edges(p: Property, x: Term, witnesses: seq<Term>, body: seq<Atom>): (r: seq<Rule>)
    ensures |r| == |witnesses|
    ensures forall i | 0 <= i < |r| :: r[i] == Rule(Some(RoleFor(p, x, witnesses[i])), body)
  {
    if witnesses == [] then []
    else [Rule(Some(RoleFor(p, x, witnesses[0])), body)] + Edges(p, x, witnesses[1..], body)
  }

  function Different(pairs: seq<(Term, Term)>, body: seq<Atom>): (r: seq<Rule>)
    ensures |r| == |pairs|
    ensures forall i | 0 <= i < |r| :: r[i] == Rule(Some(NeqAtom(pairs[i].0, pairs[i].1)), body)
  {
    if pairs == [] then []
    else [Rule(Some(NeqAtom(pairs[0].0, pairs[0].1)), body)] + Different(pairs[1..], body)
  }

  function NegatedOperands(args: seq<Expr>): (r: seq<Expr>)
    ensures forall c :: c in r <==> Not(c) in args
    ensures Weights(r) <= Weights(args)
  {
    if args == [] then [] else
    assert args == [args[0]] + args[1..];
    if args[0].Not? then [args[0].operand] + NegatedOperands(args[1..]) else NegatedOperands(args[1..])
  }

  function Positives(args: seq<Expr>): (r: seq<Expr>)
    ensures forall c :: c in r <==> c in args && !c.Not?
    ensures forall c | c in r :: Weight(c) <= Weights(args)
  {
    if args == [] then [] else
    assert args == [args[0]] + args[1..];
    if args[0].Not? then Positives(args[1..]) else [args[0]] + Positives(args[1..])
  }

  function HeadTop(level: nat, st: State, x: Term, body: seq<Atom>): (r: Result<State>)
    ensures r.Ok? ==> Grows(st, r.value) && SameTables(st, r.value)
  {
    var _ :- Require(level, 1);
    Emit(st, Some(TopAtom(x)), body)
  }

  function HeadBottom(level: nat, st: State, body: seq<Atom>): (r: Result<State>)
    ensures r.Ok? ==> Grows(st, r.value) && SameTables(st, r.value)
  {
    var _ :- Require(level, 2);
    Emit(st, None, body)
  }

  function HeadMin(level: nat, st: State, p: Property, n: nat, x: Term, body: seq<Atom>): (r: Result<State>)
    ensures r.Ok? ==> Grows(st, r.value) && SameTables(st, r.value)
  {
    var _ :- Require(level, 1);
    if n == 0 then HeadTop(level, st, x, body) else
    var _ :- Require(level, 3);
    if n * (n + 1) / 2 + |st.rules| > MAX_COMPILED_RULES then Err(OverBudget) else
    var witnesses := Witnesses(Min(p, n), x, n);
    var linked :- EmitAll(st, Edges(p, x, witnesses, body));
    EmitAll(linked, Different(Combinations(witnesses), body))
  }

  function HeadMax(level: nat, st: State, p: Property, n: nat, x: Term, body: seq<Atom>): (r: Result<State>)
    ensures r.Ok? ==> Grows(st, r.value) && SameTables(st, r.value)
  {
    if n == 0 then
      var _ :- Require(level, 2);
      Emit(st.Bump(), None, body + [RoleFor(p, x, st.Next())])
    else if n == 1 then
      var _ :- Require(level, 1);
      var y, z := st.Next(), st.Bump().Next();
      Emit(st.Bump().Bump(), Some(EqAtom(y, z)), body + [RoleFor(p, x, y), RoleFor(p, x, z)])
    else Err(NotHorn)
  }

  /** Whether a witness must be described through an auxiliary predicate. */
  function Named(e: Expr, x: Term): bool { x.Skolem? && !e.Class? && !e.Top? }

  function Head(level: nat, st: State, e: Expr, x: Term, body: seq<Atom>): (r: Result<State>)
    ensures r.Ok? ==> Grows(st, r.value)
    decreases Weight(e), if x.Skolem? then 2 else 1, 0
  {
    hide Emit;
    hide EmitAll;
    hide HeadMin;
    hide HeadMax;
    hide Normalize;
    hide NegatedOperands;
    hide Positives;
    if Named(e, x) then
      var named :- Emit(st, Some(HeadName(e, x)), body);
      if e in named.headDefs then Ok(named) else
      var entered := named.(headDefs := named.headDefs + {e});
      var y := entered.Next();
      Head(level, entered.Bump(), e, y, [HeadName(e, y)])
    else
    match e
    case Class(c) => Emit(st, Some(ClassAtom(c, x)), body)
    case Top => HeadTop(level, st, x, body)
    case Bottom => HeadBottom(level, st, body)
    case Junction(And, args) =>
      if args == [] then HeadTop(level, st, x, body) else HeadEach(level, st, args, x, body)
    case Value(p, a) => Emit(st, Some(RoleFor(p, x, Const(a))), body)
    case Forall(p, c) =>
      var y := st.Next();
      Head(level, st.Bump(), c, y, body + [RoleFor(p, x, y)])
    case Exists(p, c) =>
      if c.Bottom? then HeadBottom(level, st, body) else
      var _ :- Require(level, 3);
      var w := Witness(e, x, 0);
      var linked :- Emit(st, Some(RoleFor(p, x, w)), body);
      Head(level, linked, c, w, body)
    case OneOf(items) =>
      if items == [] then HeadBottom(level, st, body) else
      var _ :- Require(level, 1);
      if |items| != 1 then Err(NotHorn) else Emit(st, Some(EqAtom(x, Const(items[0]))), body)
    case Not(c) =>
      var _ :- Require(level, 2);
      var negative :- Body(level, st, c, x, true);
      EmitAll(negative.st, Clauses(None, body, negative.alternatives))
    case Min(p, n) => HeadMin(level, st, p, n, x, body)
    case Max(p, n) => HeadMax(level, st, p, n, x, body)
    case Exact(p, n) =>
      var atLeast :- HeadMin(level, st, p, n, x, body);
      HeadMax(level, atLeast, p, n, x, body)
    case Junction(Or, args) =>
      if args == [] then HeadBottom(level, st, body)
      else if |args| == 1 then
        assert Weights(args) == Weight(args[0]) + Weights(args[1..]);
        Head(level, st, args[0], x, body)
      else
        var negatives, positives := NegatedOperands(args), Positives(args);
        if negatives == [] || |positives| > 1 then Err(NotHorn) else
        var _ :- Require(level, 2);
        var extra :- Body(level, st, Normalize(Junction(And, negatives)), x, true);
        HeadOver(level, extra.st, if positives == [] then Bottom else positives[0], x, body, extra.alternatives)
  }

  function HeadEach(level: nat, st: State, args: seq<Expr>, x: Term, body: seq<Atom>): (r: Result<State>)
    ensures r.Ok? ==> Grows(st, r.value)
    decreases Weights(args) + 1, 3, 0
  {
    if args == [] then Ok(st) else
    var first :- Head(level, st, args[0], x, body);
    HeadEach(level, first, args[1..], x, body)
  }

  /** The same consequent under each alternative antecedent. */
  function HeadOver(level: nat, st: State, e: Expr, x: Term, body: seq<Atom>,
      alternatives: seq<seq<Atom>>): (r: Result<State>)
    ensures r.Ok? ==> Grows(st, r.value)
    decreases Weight(e), 3, |alternatives|
  {
    if alternatives == [] then Ok(st) else
    var first :- Head(level, st, e, x, body + alternatives[0]);
    HeadOver(level, first, e, x, body, alternatives[1..])
  }

  // ----- Axioms -----

  function Inclusion(level: nat, st: State, left: Expr, right: Expr): (r: Result<State>)
    ensures r.Ok? ==> Grows(st, r.value)
  {
    var x := st.Next();
    var bodies :- Body(level, st.Bump(), left, x, true);
    if bodies.alternatives == [] then
      var trial :- Head(level, bodies.st, right, x, [TopAtom(x)]);
      Ok(bodies.st.(counter := trial.counter))  // only the variable counter survives the trial
    else
      HeadOver(level, bodies.st, right, x, [], bodies.alternatives)
  }

  function Disjoint(level: nat, st: State, left: Expr, right: Expr): (r: Result<State>)
    ensures r.Ok? ==> Grows(st, r.value)
  {
    var _ :- Require(level, 2);
    var x := st.Next();
    var first :- Body(level, st.Bump(), left, x, true);
    var second :- Body(level, first.st, right, x, true);
    EmitAll(second.st, Clauses(None, [], Cross(first.alternatives, second.alternatives)))
  }

  lemma DisjointTooLow(level: nat, st: State, left: Expr, right: Expr)
    requires level < 2
    ensures Disjoint(level, st, left, right) == Err(LevelTooLow)
  {
    hide Body;
    hide EmitAll;
    hide Clauses;
    hide Cross;
    hide Grows;
    hide BodyGrows;
    hide SameTables;
  }

  lemma DisjointLeftFails(level: nat, st: State, left: Expr, right: Expr)
    requires level >= 2 && Body(level, st.Bump(), left, st.Next(), true).Err?
    ensures Disjoint(level, st, left, right) == Err(Body(level, st.Bump(), left, st.Next(), true).reason)
  {
    hide Body;
    hide EmitAll;
    hide Clauses;
    hide Cross;
    hide Grows;
    hide BodyGrows;
    hide SameTables;
  }

  lemma DisjointContinues(level: nat, st: State, left: Expr, right: Expr, first: Bodies)
    requires level >= 2 && Body(level, st.Bump(), left, st.Next(), true) == Ok(first)
    ensures var second := Body(level, first.st, right, st.Next(), true);
      Disjoint(level, st, left, right) ==
        match second
        case Err(e) => Err(e)
        case Ok(s) => EmitAll(s.st, Clauses(None, [], Cross(first.alternatives, s.alternatives)))
  {
    hide Body;
    hide EmitAll;
    hide Clauses;
    hide Cross;
    hide Grows;
    hide BodyGrows;
    hide SameTables;
  }

  /** The steps of `Disjoint`, for proofs that treat each step as a black box. */
  lemma DisjointUnfolds(level: nat, st: State, left: Expr, right: Expr)
    ensures level < 2 ==> Disjoint(level, st, left, right) == Err(LevelTooLow)
    ensures level >= 2 ==>
      var first := Body(level, st.Bump(), left, st.Next(), true);
      if first.Err? then Disjoint(level, st, left, right) == Err(first.reason) else
      var second := Body(level, first.value.st, right, st.Next(), true);
      if second.Err? then Disjoint(level, st, left, right) == Err(second.reason) else
      Disjoint(level, st, left, right)
        == EmitAll(second.value.st, Clauses(None, [], Cross(first.value.alternatives, second.value.alternatives)))
  {
    hide *;
    if level < 2 {
      DisjointTooLow(level, st, left, right);
    } else {
      var first := Body(level, st.Bump(), left, st.Next(), true);
      if first.Err? {
        DisjointLeftFails(level, st, left, right);
      } else {
        DisjointContinues(level, st, left, right, first.value);
      }
    }
  }

  function DisjointPairs(level: nat, st: State, pairs: seq<(Expr, Expr)>): (r: Result<State>)
    ensures r.Ok? ==> Grows(st, r.value)
    decreases |pairs|
  {
    if pairs == [] then Ok(st) else
    var first :- Disjoint(level, st, Normalize(pairs[0].0), Normalize(pairs[0].1));
    DisjointPairs(level, first, pairs[1..])
  }

  function Constants(nodes: seq<Node>): (r: seq<Term>)
    ensures |r| == |nodes|
    ensures forall i | 0 <= i < |r| :: r[i] == Const(nodes[i])
  {
    if nodes == [] then [] else [Const(nodes[0])] + Constants(nodes[1..])
  }

  function Fact(st: State, a: Atom): (r: Result<State>)
    ensures r.Ok? ==> Grows(st, r.value) && SameTables(st, r.value)
  {
    Emit(st, Some(a), [])
  }

  function Implication(st: State, p: Property, q: Property, x: Term, y: Term): (r: Result<State>)
    ensures r.Ok? ==> Grows(st, r.value) && SameTables(st, r.value)
  {
    Emit(st, Some(RoleFor(q, x, y)), [RoleFor(p, x, y)])
  }

  function CompileClassAxiom(level: nat, st: State, ax: Axiom): (r: Result<State>)
    requires ax.AboutClasses()
    ensures r.Ok? ==> Grows(st, r.value)
  {
    match ax
    case SubClass(c, d) => Inclusion(level, st, Normalize(c), Normalize(d))
    case EquivalentClasses(c, d) =>
      var forward :- Inclusion(level, st, Normalize(c), Normalize(d));
      Inclusion(level, forward, Normalize(d), Normalize(c))
    case DisjointClasses(c, d) => Disjoint(level, st, Normalize(c), Normalize(d))
    case AllDisjoint(members) =>
      var _ :- Require(level, 2);
      DisjointPairs(level, st, Combinations(members))
  }

  function CompileRoleAxiom(level: nat, st: State, ax: Axiom): (r: Result<State>)
    requires ax.AboutRoles()
    ensures r.Ok? ==> Grows(st, r.value)
  {
    var x, y := st.Next(), st.Bump().Next();
    var two := st.Bump().Bump();
    match ax
    case SubProperty(p, q) => Implication(two, p, q, x, y)
    case EquivalentProperties(p, q) =>
      var forward :- Implication(two, p, q, x, y);
      Implication(forward, q, p, x, y)
    case InverseProperties(p, q) =>
      var forward :- Implication(two, p, q.Flip(), x, y);
      Implication(forward, q.Flip(), p, x, y)
    case Domain(p, c) => Head(level, two, Normalize(c), x, [RoleFor(p, x, y)])
    case Range(p, c) => Head(level, two, Normalize(c), y, [RoleFor(p, x, y)])
  }

  function CompileCharacteristic(level: nat, st: State, ax: Axiom): (r: Result<State>)
    requires ax.Characteristic()
    ensures r.Ok? ==> Grows(st, r.value)
  {
    var x, y, z := st.Next(), st.Bump().Next(), st.Bump().Bump().Next();
    var three := st.Bump().Bump().Bump();
    match ax
    case Transitive(p) => Emit(three, Some(RoleFor(p, x, z)), [RoleFor(p, x, y), RoleFor(p, y, z)])
    case Symmetric(p) => Emit(three, Some(RoleFor(p, y, x)), [RoleFor(p, x, y)])
    case Functional(p) =>
      var _ :- Require(level, 1);
      Emit(three, Some(EqAtom(y, z)), [RoleFor(p, x, y), RoleFor(p, x, z)])
    case InverseFunctional(p) =>
      var _ :- Require(level, 1);
      Emit(three, Some(EqAtom(y, z)), [RoleFor(p, y, x), RoleFor(p, z, x)])
  }

  function CompileAssertion(level: nat, st: State, ax: Axiom): (r: Result<State>)
    requires ax.Assertion()
    ensures r.Ok? ==> Grows(st, r.value)
  {
    match ax
    case ClassAssertion(a, c) => Head(level, st, Normalize(c), Const(a), [])
    case PropertyAssertion(name, a, b) => Fact(st, RoleAtom(name, Const(a), Const(b)))
    case SameAs(a, b) => var _ :- Require(level, 1); Fact(st, EqAtom(Const(a), Const(b)))
    case DifferentFrom(a, b) => var _ :- Require(level, 2); Fact(st, NeqAtom(Const(a), Const(b)))
    case AllDifferent(nodes) =>
      var _ :- Require(level, 2);
      EmitAll(st, Different(Combinations(Constants(nodes)), []))
    case NamedIndividual(a) => Fact(st, TopAtom(Const(a)))
  }

  function CompileAxiom(level: nat, st: State, ax: Axiom): (r: Result<State>)
    ensures r.Ok? ==> Grows(st, r.value)
  {
    if ax.AboutClasses() then CompileClassAxiom(level, st, ax)
    else if ax.AboutRoles() then CompileRoleAxiom(level, st, ax)
    else if ax.Characteristic() then CompileCharacteristic(level, st, ax)
    else CompileAssertion(level, st, ax)
  }

  function CompileAxioms(level: nat, st: State, axioms: seq<Axiom>): (r: Result<State>)
    ensures r.Ok? ==> Grows(st, r.value)
    decreases |axioms|
  {
    if axioms == [] then Ok(st) else
    var first :- CompileAxiom(level, st, axioms[0]);
    CompileAxioms(level, first, axioms[1..])
  }

  datatype Program = Program(rules: seq<Rule>, facts: set<Atom>)

  /** The compiled program: repeated rules are dropped at the end. */
  function Compile(level: nat, axioms: seq<Axiom>): Result<Program> {
    var final :- CompileAxioms(level, INITIAL, axioms);
    Ok(Program(Distinct(final.rules), final.facts))
  }
}
