/** What compiled rules look like, and which constructs each profile level can produce. */
module Profiles {
  import opened Options
  import opened Expressions
  import opened Semantics
  import opened Normalization
  import opened Axioms
  import opened Rules
  import opened Structures
  import opened Translation
  import opened Scoping
  import opened Soundness

  /** A Skolem function applied to a variable or a constant, or no Skolem function at all. */
  predicate Shallow(t: Term) { t.Skolem? ==> !t.arg.Skolem? }

  predicate ShallowAtom(a: Atom) { Shallow(a.t) && (a.RoleAtom? || a.EqAtom? || a.NeqAtom? ==> Shallow(a.s)) }

  /** Equality from L1, inequality from L2, Skolem terms from L3. */
  predicate Allowed(level: nat, a: Atom) {
    && (a.EqAtom? ==> level >= 1)
    && (a.NeqAtom? ==> level >= 2)
    && (!Plain(a) ==> level >= 3)
  }

  predicate BodyShape(level: nat, body: seq<Atom>) {
    forall a | a in body :: Plain(a) && Allowed(level, a) && !a.NeqAtom?
  }

  /** Head variables occur in the body; witnesses are not nested; constraints need L2. */
  predicate HeadShape(level: nat, head: Option<Atom>, body: seq<Atom>) {
    if head.None? then level >= 2
    else
      && ShallowAtom(head.value) && Allowed(level, head.value)
      && forall i | i in AtomVars(head.value) :: Occurs(i, body)
  }

  predicate Occurs(i: nat, body: seq<Atom>) { exists a | a in body :: i in AtomVars(a) }

  predicate RuleShape(level: nat, r: Rule) { BodyShape(level, r.body) && HeadShape(level, r.head, r.body) }

  /** A stored rule also repeats no atom in its body. */
  predicate StoredShape(level: nat, r: Rule) { RuleShape(level, r) && NoRepeats(r.body) }

  predicate FactShape(level: nat, f: Atom) { GroundAtom(f) && ShallowAtom(f) && Allowed(level, f) }

  predicate Shaped(level: nat, st: State) {
    && (forall r | r in st.rules :: StoredShape(level, r))
    && (forall f | f in st.facts :: FactShape(level, f))
  }

  // ----- Renaming keeps the shape -----

  lemma {:induction false} TermVarsRename(f: nat -> nat, t: Term, i: nat)
    requires i in TermVars(t)
    ensures f(i) in TermVars(RenameTerm(f, t))
  {
    if t.Skolem? { TermVarsRename(f, t.arg, i); }
  }

  lemma {:induction false} TermVarsOnly(f: nat -> nat, t: Term, j: nat) returns (i: nat)
    requires j in TermVars(RenameTerm(f, t))
    ensures i in TermVars(t) && j == f(i)
  {
    match t
    case Var(k) => i := k;
    case Skolem(_, arg) => i := TermVarsOnly(f, arg, j);
  }

  lemma AtomVarsRename(f: nat -> nat, a: Atom, i: nat)
    requires i in AtomVars(a)
    ensures f(i) in AtomVars(RenameAtom(f, a))
  {
    if i in TermVars(a.t) { TermVarsRename(f, a.t, i); } else { TermVarsRename(f, a.s, i); }
  }

  lemma AtomVarsOnly(f: nat -> nat, a: Atom, j: nat) returns (i: nat)
    requires j in AtomVars(RenameAtom(f, a))
    ensures i in AtomVars(a) && j == f(i)
  {
    if j in TermVars(RenameTerm(f, a.t)) { i := TermVarsOnly(f, a.t, j); } else { i := TermVarsOnly(f, a.s, j); }
  }

  /** Renaming variables changes neither the predicate nor the depth of an atom's terms. */
  lemma RenameKeepsKind(level: nat, f: nat -> nat, a: Atom)
    ensures var b := RenameAtom(f, a);
      Plain(b) == Plain(a) && Allowed(level, b) == Allowed(level, a) && ShallowAtom(b) == ShallowAtom(a) &&
        b.NeqAtom? == a.NeqAtom?
  {
    TermKind(f, a.t);
    if a.RoleAtom? || a.EqAtom? || a.NeqAtom? { TermKind(f, a.s); }
  }

  lemma TermKind(f: nat -> nat, t: Term)
    ensures RenameTerm(f, t).Skolem? == t.Skolem? && Shallow(RenameTerm(f, t)) == Shallow(t)
  {
  }

  lemma RenameKeepsShape(level: nat, f: nat -> nat, head: Option<Atom>, body: seq<Atom>)
    requires BodyShape(level, body) && HeadShape(level, head, body)
    ensures BodyShape(level, RenameBody(f, body)) && HeadShape(level, RenameHead(f, head), RenameBody(f, body))
  {
    hide RenameBody;
    hide RenameAtom;
    hide AtomVars;
    hide Plain;
    hide Allowed;
    hide ShallowAtom;
    var r := RenameBody(f, body);
    forall a | a in r ensures Plain(a) && Allowed(level, a) && !a.NeqAtom? {
      var k :| 0 <= k < |r| && r[k] == a;
      RenameBodyAt(f, body, k);
      RenameKeepsKind(level, f, body[k]);
    }
    if head.Some? {
      RenameKeepsKind(level, f, head.value);
      forall j | j in AtomVars(RenameAtom(f, head.value)) ensures Occurs(j, r) {
        var i := AtomVarsOnly(f, head.value, j);
        var a :| a in body && i in AtomVars(a);
        var k :| 0 <= k < |body| && body[k] == a;
        RenameBodyAt(f, body, k);
        AtomVarsRename(f, a, i);
        assert r[k] in r;
      }
    }
  }

  lemma ShapeIs(level: nat, r: Rule)
    requires BodyShape(level, r.body) && HeadShape(level, r.head, r.body) && NoRepeats(r.body)
    ensures StoredShape(level, r)
  {
  }

  /** Different variables of the rule get different numbers. */
  ghost predicate Separates(f: nat -> nat, names: seq<nat>) {
    forall i, j | i in names && j in names && f(i) == f(j) :: i == j
  }

  lemma {:induction false} TermApart(f: nat -> nat, names: seq<nat>, s: Term, t: Term)
    requires Separates(f, names) && RenameTerm(f, s) == RenameTerm(f, t)
    requires forall i | i in TermVars(s) || i in TermVars(t) :: i in names
    ensures s == t
  {
    if s.Skolem? {
      TermApart(f, names, s.arg, t.arg);
    } else if s.Var? {
      assert s.id in TermVars(s) && t.id in TermVars(t);
    }
  }

  lemma AtomApart(f: nat -> nat, names: seq<nat>, a: Atom, b: Atom)
    requires Separates(f, names) && RenameAtom(f, a) == RenameAtom(f, b)
    requires forall i | i in AtomVars(a) || i in AtomVars(b) :: i in names
    ensures a == b
  {
    hide Separates;
    TermApart(f, names, a.t, b.t);
    if a.RoleAtom? || a.EqAtom? || a.NeqAtom? { TermApart(f, names, a.s, b.s); }
  }

  lemma BodyNamed(head: Option<Atom>, body: seq<Atom>, a: Atom, i: nat)
    requires a in body && i in AtomVars(a)
    ensures i in RuleNames(head, body)
  {
    BodyVarsMember(body, i);
    DistinctSpec(HeadVars(head) + BodyVars(body));
  }

  /** Canonical names keep different atoms different. */
  lemma CanonicalApart(head: Option<Atom>, body: seq<Atom>)
    requires NoRepeats(body)
    ensures NoRepeats(Canonical(head, body).body)
  {
    hide AtomVars;
    hide RenameAtom;
    hide RenameBody;
    hide RuleNames;
    var names := RuleNames(head, body);
    var f := Numbering(names);
    assert Separates(f, names);
    hide Separates;
    var r := RenameBody(f, body);
    forall i, j | 0 <= i < j < |r| ensures r[i] != r[j] {
      RenameBodyAt(f, body, i);
      RenameBodyAt(f, body, j);
      forall v | v in AtomVars(body[i]) || v in AtomVars(body[j]) ensures v in names {
        BodyNamed(head, body, if v in AtomVars(body[i]) then body[i] else body[j], v);
      }
      if r[i] == r[j] { AtomApart(f, names, body[i], body[j]); }
    }
  }

  lemma EmitShaped(level: nat, st: State, head: Option<Atom>, raw: seq<Atom>)
    requires Emit(st, head, raw).Ok? && Shaped(level, st)
    requires BodyShape(level, raw) && HeadShape(level, head, raw)
    ensures Shaped(level, Emit(st, head, raw).value)
  {
    hide StoredShape;
    hide FactShape;
    var body := Distinct(raw);
    DistinctSpec(raw);
    DistinctShape(level, head, raw);
    RenameKeepsShape(level, Numbering(RuleNames(head, body)), head, body);
    CanonicalApart(head, body);
    ShapeIs(level, Canonical(head, body));
    if head.Some? && body == [] && GroundAtom(head.value) {
      FactIsShaped(level, head.value, raw);
    }
  }

  lemma FactIsShaped(level: nat, a: Atom, raw: seq<Atom>)
    requires GroundAtom(a) && HeadShape(level, Some(a), raw)
    ensures FactShape(level, a)
  {
  }

  lemma DistinctShape(level: nat, head: Option<Atom>, raw: seq<Atom>)
    requires BodyShape(level, raw) && HeadShape(level, head, raw)
    ensures BodyShape(level, Distinct(raw)) && HeadShape(level, head, Distinct(raw))
  {
    DistinctSpec(raw);
    if head.Some? {
      forall i | i in AtomVars(head.value) ensures Occurs(i, Distinct(raw)) {
        var a :| a in raw && i in AtomVars(a);
        assert a in Distinct(raw);
      }
    }
  }

  lemma {:induction false} EmitAllShaped(level: nat, st: State, clauses: seq<Rule>)
    requires EmitAll(st, clauses).Ok? && Shaped(level, st)
    requires forall c | c in clauses :: RuleShape(level, c)
    ensures Shaped(level, EmitAll(st, clauses).value)
    decreases |clauses|
  {
    hide Emit;
    hide Shaped;
    if clauses != [] {
      assert RuleShape(level, clauses[0]);
      EmitShaped(level, st, clauses[0].head, clauses[0].body);
      EmitAllShaped(level, Emit(st, clauses[0].head, clauses[0].body).value, clauses[1..]);
    }
  }

  // ----- Antecedents -----

  predicate AllShape(level: nat, alternatives: seq<seq<Atom>>) { forall b | b in alternatives :: BodyShape(level, b) }

  lemma OneShape(level: nat, a: Atom)
    requires Plain(a) && Allowed(level, a) && !a.NeqAtom?
    ensures AllShape(level, [[a]])
  {
  }

  lemma {:induction false} BodyShaped(level: nat, st: State, e: Expr, x: Term, factor: bool)
    requires Body(level, st, e, x, factor).Ok? && Shaped(level, st)
    requires !x.Skolem? && TermBelow(x, st.counter)
    ensures Shaped(level, Body(level, st, e, x, factor).value.st)
    ensures AllShape(level, Body(level, st, e, x, factor).value.alternatives)
    decreases Weight(e), if factor then 2 else 0
  {
    hide Emit;
    hide Shaped;
    hide BodyReference;
    hide BodyParts;
    hide BodyUnion;
    var r := Body(level, st, e, x, factor).value;
    if factor && Factored(e) {
      ReferenceShaped(level, st, e, x);
    } else {
      match e
      case Class(c) => OneShape(level, ClassAtom(c, x));
      case Top => OneShape(level, TopAtom(x));
      case Bottom =>
      case Junction(And, args) =>
        if args == [] { BodyShaped(level, st, Top, x, true); } else { PartsShaped(level, st, args, x); }
      case Junction(Or, args) => UnionShaped(level, st, args, x);
      case Value(p, a) => OneShape(level, RoleFor(p, x, Const(a)));
      case Exists(p, c) => ExistsShaped(level, st, p, c, x);
      case OneOf(items) => EnumeratedShape(level, items, x);
      case Min(p, n) => if n == 0 { OneShape(level, TopAtom(x)); } else { OneShape(level, RoleFor(p, x, st.Next())); }
      case _ => assert false;
    }
    BumpShaped(level, st);
  }

  lemma BumpShaped(level: nat, st: State)
    ensures Shaped(level, st) <==> Shaped(level, st.Bump())
  {
  }

  lemma EnumeratedShape(level: nat, items: seq<Node>, x: Term)
    requires level >= 1 && !x.Skolem?
    ensures AllShape(level, Enumerated(items, x))
  {
    forall b | b in Enumerated(items, x) ensures BodyShape(level, b) {
      var i :| 0 <= i < |items| && Enumerated(items, x)[i] == b;
    }
  }

  lemma {:induction false} ExistsShaped(level: nat, st: State, p: Property, c: Expr, x: Term)
    requires Body(level, st, Exists(p, c), x, false).Ok? && Shaped(level, st)
    requires !x.Skolem? && TermBelow(x, st.counter)
    ensures Shaped(level, Body(level, st, Exists(p, c), x, false).value.st)
    ensures AllShape(level, Body(level, st, Exists(p, c), x, false).value.alternatives)
    decreases Weight(c), 3
  {
    hide Shaped;
    var y := st.Next();
    BumpShaped(level, st);
    BodyShaped(level, st.Bump(), c, y, true);
    var inner := Body(level, st.Bump(), c, y, true).value;
    var r := Body(level, st, Exists(p, c), x, false).value;
    forall b | b in r.alternatives ensures BodyShape(level, b) {
      var i :| 0 <= i < |inner.alternatives| && r.alternatives[i] == b;
      assert b == [RoleFor(p, x, y)] + inner.alternatives[i];
      assert inner.alternatives[i] in inner.alternatives;
    }
  }

  lemma {:induction false} ReferenceShaped(level: nat, st: State, e: Expr, x: Term)
    requires BodyReference(level, st, e, x).Ok? && Shaped(level, st)
    requires !x.Skolem?
    ensures Shaped(level, BodyReference(level, st, e, x).value.st)
    decreases Weight(e), 1
  {
    hide Emit;
    hide Shaped;
    hide Body;
    hide RuleShape;
    hide Grows;
    if e !in st.bodyDefs {
      var entered := st.(bodyDefs := st.bodyDefs + {e});
      var y := entered.Next();
      var inner := Body(level, entered.Bump(), e, y, false).value;
      EnteredShaped(level, st, entered.Bump());
      BodyShaped(level, entered.Bump(), e, y, false);
      BodyScoped(level, entered.Bump(), e, y, false);
      var clauses := Clauses(Some(BodyName(e, y)), [], inner.alternatives);
      forall c | c in clauses ensures RuleShape(level, c) {
        var i :| 0 <= i < |clauses| && clauses[i] == c;
        assert c.body == inner.alternatives[i] && inner.alternatives[i] in inner.alternatives;
        DefinitionShape(level, e, y, c.body, inner.st.counter);
      }
      EmitAllShaped(level, inner.st, clauses);
    }
  }

  lemma DefinitionShape(level: nat, e: Expr, y: Term, body: seq<Atom>, n: nat)
    requires y.Var? && Scoped(body, y, n) && BodyShape(level, body)
    ensures RuleShape(level, Rule(Some(BodyName(e, y)), body))
  {
    assert Occurs(y.id, body);
  }

  lemma EnteredShaped(level: nat, a: State, b: State)
    requires a.rules == b.rules && a.facts == b.facts && Shaped(level, a)
    ensures Shaped(level, b)
  {
  }

  lemma {:induction false} PartsShaped(level: nat, st: State, args: seq<Expr>, x: Term)
    requires BodyParts(level, st, args, x).Ok? && Shaped(level, st)
    requires !x.Skolem? && TermBelow(x, st.counter)
    ensures Shaped(level, BodyParts(level, st, args, x).value.st)
    ensures AllShape(level, Product(BodyParts(level, st, args, x).value.parts))
    decreases Weights(args) + 1, 0
  {
    hide Shaped;
    hide Body;
    hide BodyReference;
    if args != [] {
      var first := (if args[0].OneOf? then BodyReference(level, st, args[0], x) else
        Body(level, st, args[0], x, true)).value;
      var rest := BodyParts(level, first.st, args[1..], x).value;
      var r := BodyParts(level, st, args, x).value;
      if args[0].OneOf? {
        ReferenceShaped(level, st, args[0], x);
        OneShape(level, BodyName(args[0], x));
      } else {
        BodyShaped(level, st, args[0], x, true);
      }
      PartsShaped(level, first.st, args[1..], x);
      assert r.parts[1..] == rest.parts;
      forall b | b in Product(r.parts) ensures BodyShape(level, b) {
        CrossShape(level, first.alternatives, Product(rest.parts), b);
      }
    }
  }

  lemma {:induction false} UnionShaped(level: nat, st: State, args: seq<Expr>, x: Term)
    requires BodyUnion(level, st, args, x).Ok? && Shaped(level, st)
    requires !x.Skolem? && TermBelow(x, st.counter)
    ensures Shaped(level, BodyUnion(level, st, args, x).value.st)
    ensures AllShape(level, BodyUnion(level, st, args, x).value.alternatives)
    decreases Weights(args) + 1, 0
  {
    hide Shaped;
    hide Body;
    if args != [] {
      BodyShaped(level, st, args[0], x, true);
      UnionShaped(level, Body(level, st, args[0], x, true).value.st, args[1..], x);
    }
  }

  // ----- Consequents -----

  /** `x` can stand in a rule head over this body. */
  predicate Usable(level: nat, x: Term, body: seq<Atom>, st: State) {
    && Shallow(x) && (x.Skolem? ==> level >= 3) && TermBelow(x, st.counter)
    && forall i | i in TermVars(x) :: Occurs(i, body)
  }

  lemma {:induction false} HeadShaped(level: nat, st: State, e: Expr, x: Term, body: seq<Atom>)
    requires Head(level, st, e, x, body).Ok? && Shaped(level, st)
    requires BodyShape(level, body) && Usable(level, x, body, st)
    ensures Shaped(level, Head(level, st, e, x, body).value)
    decreases Weight(e), if x.Skolem? then 2 else 1, 0
  {
    hide Emit;
    hide Shaped;
    hide Body;
    hide HeadMin;
    hide HeadMax;
    hide HeadEach;
    hide HeadOver;
    hide Normalize;
    if Named(e, x) {
      EmitShaped(level, st, Some(HeadName(e, x)), body);
      NamedShaped(level, st, e, x, body);
    } else {
      match e
      case Class(c) => EmitShaped(level, st, Some(ClassAtom(c, x)), body);
      case Top => EmitShaped(level, st, Some(TopAtom(x)), body);
      case Bottom => EmitShaped(level, st, None, body);
      case Junction(And, args) =>
        if args == [] {
          EmitShaped(level, st, Some(TopAtom(x)), body);
        } else {
          HeadEachShaped(level, st, args, x, body);
        }
      case Junction(Or, args) => HeadOrShaped(level, st, args, x, body);
      case Value(p, a) => EmitShaped(level, st, Some(RoleFor(p, x, Const(a))), body);
      case Forall(p, c) => HeadForallShaped(level, st, p, c, x, body);
      case Exists(p, c) => HeadExistsShaped(level, st, p, c, x, body);
      case OneOf(items) =>
        EmitShaped(level, st, if items == [] then None else Some(EqAtom(x, Const(items[0]))), body);
      case Not(c) => HeadNotShaped(level, st, c, x, body);
      case Min(p, n) => HeadMinShaped(level, st, p, n, x, body);
      case Max(p, n) => HeadMaxShaped(level, st, p, n, x, body);
      case Exact(p, n) =>
        HeadMinShaped(level, st, p, n, x, body);
        HeadMaxShaped(level, HeadMin(level, st, p, n, x, body).value, p, n, x, body);
    }
  }

  lemma {:induction false} NamedShaped(level: nat, st: State, e: Expr, x: Term, body: seq<Atom>)
    requires Named(e, x) && Head(level, st, e, x, body).Ok?
    requires Shaped(level, Emit(st, Some(HeadName(e, x)), body).value)
    ensures Shaped(level, Head(level, st, e, x, body).value)
    decreases Weight(e), 1, 2
  {
    hide Emit;
    hide Shaped;
    var named := Emit(st, Some(HeadName(e, x)), body).value;
    if e !in named.headDefs {
      var entered := named.(headDefs := named.headDefs + {e});
      var y := entered.Next();
      EnteredShaped(level, named, entered.Bump());
      assert [HeadName(e, y)][0] == HeadName(e, y) && named.counter + 1 in AtomVars(HeadName(e, y));
      assert Occurs(named.counter + 1, [HeadName(e, y)]);
      HeadShaped(level, entered.Bump(), e, y, [HeadName(e, y)]);
    }
  }

  lemma OccursMore(i: nat, a: seq<Atom>, b: seq<Atom>)
    ensures Occurs(i, a) || Occurs(i, b) ==> Occurs(i, a + b)
  {
    if Occurs(i, a) {
      var x :| x in a && i in AtomVars(x);
      assert x in a + b;
    } else if Occurs(i, b) {
      var x :| x in b && i in AtomVars(x);
      assert x in a + b;
    }
  }

  /** A fresh successor of `x` is usable once its edge joins the body. */
  lemma SuccessorUsable(level: nat, st: State, p: Property, x: Term, body: seq<Atom>)
    requires BodyShape(level, body) && !x.Skolem?
    ensures BodyShape(level, body + [RoleFor(p, x, st.Next())])
    ensures Usable(level, st.Next(), body + [RoleFor(p, x, st.Next())], st.Bump())
  {
    hide Occurs;
    EdgeOccurs(p, x, st.counter + 1);
    OccursMore(st.counter + 1, body, [RoleFor(p, x, st.Next())]);
  }

  lemma EdgeOccurs(p: Property, x: Term, i: nat)
    ensures Occurs(i, [RoleFor(p, x, Var(i))])
  {
    assert [RoleFor(p, x, Var(i))][0] == RoleFor(p, x, Var(i)) && i in AtomVars(RoleFor(p, x, Var(i)));
  }

  lemma {:induction false} HeadForallShaped(level: nat, st: State, p: Property, c: Expr, x: Term, body: seq<Atom>)
    requires Head(level, st.Bump(), c, st.Next(), body + [RoleFor(p, x, st.Next())]).Ok? && Shaped(level, st)
    requires BodyShape(level, body) && Usable(level, x, body, st) && !x.Skolem?
    ensures Shaped(level, Head(level, st.Bump(), c, st.Next(), body + [RoleFor(p, x, st.Next())]).value)
    decreases Weight(c), 3, 0
  {
    hide Shaped;
    hide Usable;
    hide BodyShape;
    hide Head;
    BumpShaped(level, st);
    SuccessorUsable(level, st, p, x, body);
    HeadShaped(level, st.Bump(), c, st.Next(), body + [RoleFor(p, x, st.Next())]);
  }

  lemma {:induction false} HeadExistsShaped(level: nat, st: State, p: Property, c: Expr, x: Term, body: seq<Atom>)
    requires !x.Skolem? && Head(level, st, Exists(p, c), x, body).Ok? && Shaped(level, st)
    requires BodyShape(level, body) && Usable(level, x, body, st)
    ensures Shaped(level, Head(level, st, Exists(p, c), x, body).value)
    decreases Weight(c), 3, 0
  {
    hide Emit;
    hide Shaped;
    if c.Bottom? {
      EmitShaped(level, st, None, body);
    } else {
      var w := Witness(Exists(p, c), x, 0);
      assert TermVars(w) == TermVars(x);
      EmitShaped(level, st, Some(RoleFor(p, x, w)), body);
      HeadShaped(level, Emit(st, Some(RoleFor(p, x, w)), body).value, c, w, body);
    }
  }

  lemma HeadNotShaped(level: nat, st: State, c: Expr, x: Term, body: seq<Atom>)
    requires !x.Skolem? && Head(level, st, Not(c), x, body).Ok? && Shaped(level, st)
    requires BodyShape(level, body) && Usable(level, x, body, st)
    ensures Shaped(level, Head(level, st, Not(c), x, body).value)
  {
    hide Emit;
    hide Shaped;
    hide Body;
    var negative := Body(level, st, c, x, true).value;
    BodyShaped(level, st, c, x, true);
    var clauses := Clauses(None, body, negative.alternatives);
    forall r | r in clauses ensures RuleShape(level, r) {
      var i :| 0 <= i < |clauses| && clauses[i] == r;
      assert negative.alternatives[i] in negative.alternatives;
    }
    EmitAllShaped(level, negative.st, clauses);
  }

  lemma {:induction false} HeadOrShaped(level: nat, st: State, args: seq<Expr>, x: Term, body: seq<Atom>)
    requires !x.Skolem? && Head(level, st, Junction(Or, args), x, body).Ok? && Shaped(level, st)
    requires BodyShape(level, body) && Usable(level, x, body, st)
    ensures Shaped(level, Head(level, st, Junction(Or, args), x, body).value)
    decreases Weights(args) + 1, 4, 0
  {
    hide Emit;
    hide Shaped;
    hide Body;
    hide HeadOver;
    hide Normalize;
    hide NegatedOperands;
    hide Positives;
    if args == [] {
      EmitShaped(level, st, None, body);
    } else if |args| == 1 {
      HeadShaped(level, st, args[0], x, body);
    } else {
      var positives := Positives(args);
      var conj := Normalize(Junction(And, NegatedOperands(args)));
      var extra := Body(level, st, conj, x, true).value;
      BodyShaped(level, st, conj, x, true);
      HeadOverShaped(level, extra.st, if positives == [] then Bottom else positives[0], x, body, extra.alternatives);
    }
  }

  lemma {:induction false} HeadOverShaped(level: nat, st: State, e: Expr, x: Term, body: seq<Atom>,
      alternatives: seq<seq<Atom>>)
    requires HeadOver(level, st, e, x, body, alternatives).Ok? && Shaped(level, st)
    requires BodyShape(level, body) && AllShape(level, alternatives)
    requires forall alt | alt in alternatives :: Usable(level, x, body + alt, st)
    ensures Shaped(level, HeadOver(level, st, e, x, body, alternatives).value)
    decreases Weight(e), 3, |alternatives|
  {
    hide Shaped;
    hide Head;
    if alternatives != [] {
      assert alternatives[0] in alternatives;
      HeadShaped(level, st, e, x, body + alternatives[0]);
      HeadOverShaped(level, Head(level, st, e, x, body + alternatives[0]).value, e, x, body, alternatives[1..]);
    }
  }

  lemma {:induction false} HeadEachShaped(level: nat, st: State, args: seq<Expr>, x: Term, body: seq<Atom>)
    requires HeadEach(level, st, args, x, body).Ok? && Shaped(level, st)
    requires BodyShape(level, body) && Usable(level, x, body, st)
    ensures Shaped(level, HeadEach(level, st, args, x, body).value)
    decreases Weights(args) + 1, 3, 0
  {
    hide Shaped;
    hide Head;
    if args != [] {
      HeadShaped(level, st, args[0], x, body);
      HeadEachShaped(level, Head(level, st, args[0], x, body).value, args[1..], x, body);
    }
  }

  lemma DifferentShape(level: nat, terms: seq<Term>, body: seq<Atom>, r: Rule)
    requires level >= 2 && BodyShape(level, body)
    requires forall t | t in terms :: Shallow(t) && (t.Skolem? ==> level >= 3) && forall i | i in TermVars(t) ::
      Occurs(i, body)
    requires r in Different(Combinations(terms), body)
    ensures RuleShape(level, r)
  {
    hide Combinations;
    hide Occurs;
    var apart := Different(Combinations(terms), body);
    var k :| 0 <= k < |apart| && apart[k] == r;
    var i, j := CombinationsOnly(terms, Combinations(terms)[k]);
    assert terms[i] in terms && terms[j] in terms;
  }

  lemma HeadMinShaped(level: nat, st: State, p: Property, n: nat, x: Term, body: seq<Atom>)
    requires HeadMin(level, st, p, n, x, body).Ok? && Shaped(level, st)
    requires BodyShape(level, body) && Usable(level, x, body, st) && !x.Skolem?
    ensures Shaped(level, HeadMin(level, st, p, n, x, body).value)
  {
    hide Emit;
    hide EmitAll;
    hide Shaped;
    hide Combinations;
    hide Occurs;
    if n == 0 {
      EmitShaped(level, st, Some(TopAtom(x)), body);
    } else {
      var witnesses := Witnesses(Min(p, n), x, n);
      var edges := Edges(p, x, witnesses, body);
      var apart := Different(Combinations(witnesses), body);
      forall r | r in edges ensures RuleShape(level, r) {
        var i :| 0 <= i < |edges| && edges[i] == r;
        assert TermVars(witnesses[i]) == TermVars(x);
      }
      EmitAllShaped(level, st, edges);
      forall r | r in apart ensures RuleShape(level, r) { DifferentShape(level, witnesses, body, r); }
      EmitAllShaped(level, EmitAll(st, edges).value, apart);
    }
  }

  /** Two successors may be made equal once both edges join the body. */
  lemma MergedShape(level: nat, p: Property, x: Term, i: nat, j: nat, body: seq<Atom>)
    requires BodyShape(level, body) && !x.Skolem? && level >= 1
    ensures BodyShape(level, body + [RoleFor(p, x, Var(i)), RoleFor(p, x, Var(j))])
    ensures HeadShape(level, Some(EqAtom(Var(i), Var(j))), body + [RoleFor(p, x, Var(i)), RoleFor(p, x, Var(j))])
  {
    hide Occurs;
    var edges := [RoleFor(p, x, Var(i)), RoleFor(p, x, Var(j))];
    TwoEdgesOccur(edges[0], edges[1], i);
    TwoEdgesOccur(edges[0], edges[1], j);
    OccursMore(i, body, edges);
    OccursMore(j, body, edges);
  }

  lemma HeadMaxShaped(level: nat, st: State, p: Property, n: nat, x: Term, body: seq<Atom>)
    requires HeadMax(level, st, p, n, x, body).Ok? && Shaped(level, st)
    requires BodyShape(level, body) && Usable(level, x, body, st) && !x.Skolem?
    ensures Shaped(level, HeadMax(level, st, p, n, x, body).value)
  {
    hide Emit;
    hide Shaped;
    hide Occurs;
    hide Grows;
    var y, z := st.Next(), st.Bump().Next();
    BumpShaped(level, st);
    BumpShaped(level, st.Bump());
    if n == 0 {
      EmitShaped(level, st.Bump(), None, body + [RoleFor(p, x, y)]);
    } else {
      MergedShape(level, p, x, st.counter + 1, st.counter + 2, body);
      hide BodyShape;
      hide HeadShape;
      EmitShaped(level, st.Bump().Bump(), Some(EqAtom(y, z)), body + [RoleFor(p, x, y), RoleFor(p, x, z)]);
    }
  }

  // ----- Axioms -----

  lemma InclusionShaped(level: nat, st: State, left: Expr, right: Expr)
    requires Inclusion(level, st, left, right).Ok? && Shaped(level, st)
    ensures Shaped(level, Inclusion(level, st, left, right).value)
  {
    hide Shaped;
    hide Body;
    hide Head;
    hide HeadOver;
    var x := st.Next();
    var bodies := Body(level, st.Bump(), left, x, true).value;
    BumpShaped(level, st);
    BodyShaped(level, st.Bump(), left, x, true);
    BodyScoped(level, st.Bump(), left, x, true);
    if bodies.alternatives == [] {
      EnteredShaped(level, bodies.st, Inclusion(level, st, left, right).value);
    } else {
      forall alt | alt in bodies.alternatives ensures Usable(level, x, [] + alt, bodies.st) {
        assert [] + alt == alt && Scoped(alt, x, bodies.st.counter);
        assert Occurs(st.counter + 1, alt);
      }
      HeadOverShaped(level, bodies.st, right, x, [], bodies.alternatives);
    }
  }

  lemma DisjointShaped(level: nat, st: State, left: Expr, right: Expr)
    requires Disjoint(level, st, left, right).Ok? && Shaped(level, st)
    ensures Shaped(level, Disjoint(level, st, left, right).value)
  {
    hide Shaped;
    hide Body;
    hide Emit;
    hide EmitAll;
    hide Cross;
    hide AllShape;
    var x := st.Next();
    var first := Body(level, st.Bump(), left, x, true).value;
    var second := Body(level, first.st, right, x, true).value;
    BumpShaped(level, st);
    BodyShaped(level, st.Bump(), left, x, true);
    BodyShaped(level, first.st, right, x, true);
    var cross := Cross(first.alternatives, second.alternatives);
    var clauses := Clauses(None, [], cross);
    forall r | r in clauses ensures RuleShape(level, r) {
      var i :| 0 <= i < |clauses| && clauses[i] == r;
      assert r.body == cross[i];
      CrossShape(level, first.alternatives, second.alternatives, r.body);
    }
    EmitAllShaped(level, second.st, clauses);
  }

  lemma CrossShape(level: nat, left: seq<seq<Atom>>, right: seq<seq<Atom>>, b: seq<Atom>)
    requires AllShape(level, left) && AllShape(level, right) && b in Cross(left, right)
    ensures BodyShape(level, b)
  {
    var l, r := CrossMember(left, right, b);
  }

  lemma {:induction false} DisjointPairsShaped(level: nat, st: State, pairs: seq<(Expr, Expr)>)
    requires DisjointPairs(level, st, pairs).Ok? && Shaped(level, st)
    ensures Shaped(level, DisjointPairs(level, st, pairs).value)
    decreases |pairs|
  {
    hide Shaped;
    hide Disjoint;
    if pairs != [] {
      var c, d := Normalize(pairs[0].0), Normalize(pairs[0].1);
      DisjointShaped(level, st, c, d);
      DisjointPairsShaped(level, Disjoint(level, st, c, d).value, pairs[1..]);
    }
  }

  lemma ClassAxiomShaped(level: nat, st: State, ax: Axiom)
    requires ax.AboutClasses() && CompileClassAxiom(level, st, ax).Ok? && Shaped(level, st)
    ensures Shaped(level, CompileClassAxiom(level, st, ax).value)
  {
    hide Shaped;
    hide Inclusion;
    hide Disjoint;
    match ax
    case SubClass(c, d) => InclusionShaped(level, st, Normalize(c), Normalize(d));
    case EquivalentClasses(c, d) =>
      InclusionShaped(level, st, Normalize(c), Normalize(d));
      InclusionShaped(level, Inclusion(level, st, Normalize(c), Normalize(d)).value, Normalize(d), Normalize(c));
    case DisjointClasses(c, d) => DisjointShaped(level, st, Normalize(c), Normalize(d));
    case AllDisjoint(members) => DisjointPairsShaped(level, st, Combinations(members));
  }

  /** One property atom over two variables is a usable rule body. */
  lemma EdgeUsable(level: nat, p: Property, i: nat, j: nat, st: State)
    requires i <= st.counter && j <= st.counter
    ensures BodyShape(level, [RoleFor(p, Var(i), Var(j))])
    ensures Usable(level, Var(i), [RoleFor(p, Var(i), Var(j))], st)
    ensures Usable(level, Var(j), [RoleFor(p, Var(i), Var(j))], st)
  {
    var edge := RoleFor(p, Var(i), Var(j));
    assert [edge][0] == edge && i in AtomVars(edge) && j in AtomVars(edge);
    assert Occurs(i, [edge]) && Occurs(j, [edge]);
  }

  lemma ImplicationShaped(level: nat, st: State, p: Property, q: Property, i: nat, j: nat)
    requires i <= st.counter && j <= st.counter
    requires Implication(st, p, q, Var(i), Var(j)).Ok? && Shaped(level, st)
    ensures Shaped(level, Implication(st, p, q, Var(i), Var(j)).value)
  {
    hide Shaped;
    hide Emit;
    EdgeUsable(level, p, i, j, st);
    EmitShaped(level, st, Some(RoleFor(q, Var(i), Var(j))), [RoleFor(p, Var(i), Var(j))]);
  }

  lemma RoleAxiomShaped(level: nat, st: State, ax: Axiom)
    requires ax.AboutRoles() && CompileRoleAxiom(level, st, ax).Ok? && Shaped(level, st)
    ensures Shaped(level, CompileRoleAxiom(level, st, ax).value)
  {
    hide Shaped;
    hide Implication;
    hide Head;
    var n := st.counter;
    var x, y := Var(n + 1), Var(n + 2);
    var two := st.Bump().Bump();
    BumpShaped(level, st);
    BumpShaped(level, st.Bump());
    EdgeUsable(level, ax.p, n + 1, n + 2, two);
    match ax
    case SubProperty(p, q) => ImplicationShaped(level, two, p, q, n + 1, n + 2);
    case EquivalentProperties(p, q) =>
      ImplicationShaped(level, two, p, q, n + 1, n + 2);
      ImplicationShaped(level, Implication(two, p, q, x, y).value, q, p, n + 1, n + 2);
    case InverseProperties(p, q) =>
      ImplicationShaped(level, two, p, q.Flip(), n + 1, n + 2);
      ImplicationShaped(level, Implication(two, p, q.Flip(), x, y).value, q.Flip(), p, n + 1, n + 2);
    case Domain(p, c) => HeadShaped(level, two, Normalize(c), x, [RoleFor(p, x, y)]);
    case Range(p, c) => HeadShaped(level, two, Normalize(c), y, [RoleFor(p, x, y)]);
  }

  lemma TwoEdgesOccur(a: Atom, b: Atom, i: nat)
    requires i in AtomVars(a) || i in AtomVars(b)
    ensures Occurs(i, [a, b])
  {
    assert [a, b][0] == a && [a, b][1] == b;
  }

  /** A rule over two property atoms whose head uses only their variables. */
  lemma OverTwoEdges(level: nat, st: State, head: Atom, p: Property, s: Term, t: Term, s2: Term, t2: Term)
    requires s.Var? && t.Var? && s2.Var? && t2.Var?
    requires Emit(st, Some(head), [RoleFor(p, s, t), RoleFor(p, s2, t2)]).Ok? && Shaped(level, st)
    requires Plain(head) && Allowed(level, head)
    requires forall i | i in AtomVars(head) :: i in AtomVars(RoleFor(p, s, t)) || i in AtomVars(RoleFor(p, s2, t2))
    ensures Shaped(level, Emit(st, Some(head), [RoleFor(p, s, t), RoleFor(p, s2, t2)]).value)
  {
    hide Shaped;
    hide Emit;
    hide AtomVars;
    hide Occurs;
    var raw := [RoleFor(p, s, t), RoleFor(p, s2, t2)];
    forall i | i in AtomVars(head) ensures Occurs(i, raw) { TwoEdgesOccur(RoleFor(p, s, t), RoleFor(p, s2, t2), i); }
    EmitShaped(level, st, Some(head), raw);
  }

  lemma CharacteristicShaped(level: nat, st: State, ax: Axiom)
    requires ax.Characteristic() && CompileCharacteristic(level, st, ax).Ok? && Shaped(level, st)
    ensures Shaped(level, CompileCharacteristic(level, st, ax).value)
  {
    hide Shaped;
    hide Emit;
    hide HeadShape;
    hide BodyShape;
    var n, p := st.counter, ax.p;
    var x, y, z := Var(n + 1), Var(n + 2), Var(n + 3);
    var three := st.Bump().Bump().Bump();
    BumpShaped(level, st);
    BumpShaped(level, st.Bump());
    BumpShaped(level, st.Bump().Bump());
    match ax
    case Transitive(_) => OverTwoEdges(level, three, RoleFor(p, x, z), p, x, y, y, z);
    case Symmetric(_) =>
      assert RoleFor(p, y, x) == RoleFor(p.Flip(), x, y);
      ImplicationShaped(level, three, p, p.Flip(), n + 1, n + 2);
    case Functional(_) => OverTwoEdges(level, three, EqAtom(y, z), p, x, y, x, z);
    case InverseFunctional(_) => OverTwoEdges(level, three, EqAtom(y, z), p, y, x, z, x);
  }

  lemma AssertionShaped(level: nat, st: State, ax: Axiom)
    requires ax.Assertion() && CompileAssertion(level, st, ax).Ok? && Shaped(level, st)
    ensures Shaped(level, CompileAssertion(level, st, ax).value)
  {
    hide Shaped;
    hide Emit;
    hide EmitAll;
    hide Head;
    hide Combinations;
    match ax
    case ClassAssertion(a, c) => HeadShaped(level, st, Normalize(c), Const(a), []);
    case PropertyAssertion(name, a, b) => EmitShaped(level, st, Some(RoleAtom(name, Const(a), Const(b))), []);
    case SameAs(a, b) => EmitShaped(level, st, Some(EqAtom(Const(a), Const(b))), []);
    case DifferentFrom(a, b) => EmitShaped(level, st, Some(NeqAtom(Const(a), Const(b))), []);
    case AllDifferent(nodes) =>
      var terms := Constants(nodes);
      var apart := Different(Combinations(terms), []);
      forall r | r in apart ensures RuleShape(level, r) { DifferentShape(level, terms, [], r); }
      EmitAllShaped(level, st, apart);
    case NamedIndividual(a) => EmitShaped(level, st, Some(TopAtom(Const(a))), []);
  }

  lemma {:induction false} CompileAxiomsShaped(level: nat, st: State, axioms: seq<Axiom>)
    requires CompileAxioms(level, st, axioms).Ok? && Shaped(level, st)
    ensures Shaped(level, CompileAxioms(level, st, axioms).value)
    decreases |axioms|
  {
    hide Shaped;
    hide CompileClassAxiom;
    hide CompileRoleAxiom;
    hide CompileCharacteristic;
    hide CompileAssertion;
    if axioms != [] {
      var ax := axioms[0];
      if ax.AboutClasses() {
        ClassAxiomShaped(level, st, ax);
      } else if ax.AboutRoles() {
        RoleAxiomShaped(level, st, ax);
      } else if ax.Characteristic() {
        CharacteristicShaped(level, st, ax);
      } else {
        AssertionShaped(level, st, ax);
      }
      CompileAxiomsShaped(level, CompileAxiom(level, st, ax).value, axioms[1..]);
    }
  }

  /** Every compiled rule is range-restricted, matches no Skolem term, nests none, and stays within its profile. */
  lemma CompiledShape(level: nat, axioms: seq<Axiom>)
    requires Compile(level, axioms).Ok?
    ensures forall r | r in Compile(level, axioms).value.rules :: StoredShape(level, r)
    ensures forall f | f in Compile(level, axioms).value.facts :: FactShape(level, f)
  {
    hide StoredShape;
    hide FactShape;
    hide CompileAxioms;
    CompileAxiomsShaped(level, INITIAL, axioms);
    DistinctSpec(CompileAxioms(level, INITIAL, axioms).value.rules);
  }

  // ----- Below L2 nothing can be contradicted -----

  /** One individual that belongs to every class and is related to itself by every property. */
  ghost function Degenerate(): Interp<()> {
    Interp((c: string, d: ()) => true, (r: string, a: (), b: ()) => true, (n: Node) => ())
  }

  ghost function DegenerateStructure(): Structure<()> {
    Structure(Degenerate(), (k: Symbol, d: ()) => (), (e: Expr, d: ()) => true, (e: Expr, d: ()) => true)
  }

  lemma DegenerateTrue(v: nat -> (), a: Atom)
    requires !a.NeqAtom?
    ensures AtomTrue(DegenerateStructure(), v, a)
  {
    if a.EqAtom? {
      var l, r := Eval(DegenerateStructure(), v, a.s), Eval(DegenerateStructure(), v, a.t);
      assert l == () && r == ();
    }
  }

  /** Any ontology accepted at L0 or L1 is consistent, and has a one-element model. */
  lemma ConsistentBelowConstraints(level: nat, axioms: seq<Axiom>)
    requires level <= 1 && Compile(level, axioms).Ok?
    ensures AxiomsTrue(Degenerate(), axioms)
  {
    hide Compile;
    hide AxiomsTrue;
    var S := DegenerateStructure();
    var program := Compile(level, axioms).value;
    CompiledShape(level, axioms);
    forall r | r in program.rules ensures RuleTrue(S, r) {
      assert StoredShape(level, r);
      forall v: nat -> () ensures AtomTrue(S, v, r.head.value) { DegenerateTrue(v, r.head.value); }
    }
    forall f | f in program.facts ensures FactTrue(S, f) {
      assert FactShape(level, f);
      forall v: nat -> () ensures AtomTrue(S, v, f) { DegenerateTrue(v, f); }
    }
    CompileSound(level, axioms, S);
  }
}
