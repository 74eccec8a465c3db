/** First-order reading of rules: equality is identity, inequality is distinctness, TOP is the whole domain. */
module Structures {
  import opened Options
  import opened Expressions
  import opened Semantics
  import opened Rules

  /** An interpretation together with Skolem functions and the auxiliary predicates. */
  datatype Structure<!D> = Structure(
    base: Interp<D>,
    skolem: (Symbol, D) -> D,
    bodyNames: (Expr, D) -> bool,
    headNames: (Expr, D) -> bool)

  ghost function Eval<D>(S: Structure<D>, v: nat -> D, t: Term): D {
    match t
    case Var(i) => v(i)
    case Const(n) => S.base.individuals(n)
    case Skolem(k, arg) => S.skolem(k, Eval(S, v, arg))
  }

  ghost predicate AtomTrue<D>(S: Structure<D>, v: nat -> D, a: Atom) {
    match a
    case ClassAtom(c, t) => S.base.classes(c, Eval(S, v, t))
    case RoleAtom(r, s, t) => S.base.roles(r, Eval(S, v, s), Eval(S, v, t))
    case TopAtom(_) => true
    case EqAtom(s, t) => Eval(S, v, s) == Eval(S, v, t)
    case NeqAtom(s, t) => Eval(S, v, s) != Eval(S, v, t)
    case BodyName(e, t) => S.bodyNames(e, Eval(S, v, t))
    case HeadName(e, t) => S.headNames(e, Eval(S, v, t))
  }

  lemma RoleForTrue<D>(S: Structure<D>, v: nat -> D, p: Property, s: Term, t: Term)
    ensures AtomTrue(S, v, RoleFor(p, s, t)) == Related(S.base, p, Eval(S, v, s), Eval(S, v, t))
  {
  }

  ghost predicate BodyTrue<D>(S: Structure<D>, v: nat -> D, body: seq<Atom>) {
    forall a | a in body :: AtomTrue(S, v, a)
  }

  lemma BodySplit<D>(S: Structure<D>, v: nat -> D, a: seq<Atom>, b: seq<Atom>)
    ensures BodyTrue(S, v, a + b) <==> BodyTrue(S, v, a) && BodyTrue(S, v, b)
  {
    assert forall x :: x in a + b <==> x in a || x in b;
  }

  lemma BodyOne<D>(S: Structure<D>, v: nat -> D, a: Atom)
    ensures BodyTrue(S, v, [a]) <==> AtomTrue(S, v, a)
  {
    assert forall x :: x in [a] <==> x == a;
  }

  ghost predicate HeadTrue<D>(S: Structure<D>, v: nat -> D, head: Option<Atom>) {
    head.Some? && AtomTrue(S, v, head.value)
  }

  /** The rule `head :- body`, read for every assignment of its variables. */
  ghost predicate Implied<D(!new)>(S: Structure<D>, head: Option<Atom>, body: seq<Atom>) {
    forall v: nat -> D :: BodyTrue(S, v, body) ==> HeadTrue(S, v, head)
  }

  ghost predicate RuleTrue<D(!new)>(S: Structure<D>, r: Rule) {
    Implied(S, r.head, r.body)
  }

  ghost predicate FactTrue<D(!new)>(S: Structure<D>, f: Atom) {
    forall v: nat -> D :: AtomTrue(S, v, f)
  }

  // ----- Assignments -----

  ghost function Assign<D>(v: nat -> D, k: nat, d: D): nat -> D {
    (i: nat) => if i == k then d else v(i)
  }

  ghost function Constantly<D>(d: D): nat -> D {
    (i: nat) => d
  }

  ghost function Along<D>(v: nat -> D, f: nat -> nat): nat -> D {
    (i: nat) => v(f(i))
  }

  ghost predicate AgreeOn<D>(v: nat -> D, w: nat -> D, vars: seq<nat>) {
    forall i | i in vars :: v(i) == w(i)
  }

  lemma {:induction false} EvalAgree<D>(S: Structure<D>, v: nat -> D, w: nat -> D, t: Term)
    requires AgreeOn(v, w, TermVars(t))
    ensures Eval(S, v, t) == Eval(S, w, t)
  {
    if t.Skolem? { EvalAgree(S, v, w, t.arg); }
  }

  lemma AtomAgree<D>(S: Structure<D>, v: nat -> D, w: nat -> D, a: Atom)
    requires AgreeOn(v, w, AtomVars(a))
    ensures AtomTrue(S, v, a) == AtomTrue(S, w, a)
  {
    EvalAgree(S, v, w, a.t);
    if a.RoleAtom? || a.EqAtom? || a.NeqAtom? { EvalAgree(S, v, w, a.s); }
  }

  lemma BodyAgree<D>(S: Structure<D>, v: nat -> D, w: nat -> D, body: seq<Atom>)
    requires AgreeOn(v, w, BodyVars(body))
    ensures BodyTrue(S, v, body) == BodyTrue(S, w, body)
  {
    forall a | a in body
      ensures AtomTrue(S, v, a) == AtomTrue(S, w, a)
    {
      forall i | i in AtomVars(a) ensures v(i) == w(i) { BodyVarsMember(body, i); }
      AtomAgree(S, v, w, a);
    }
  }

  // ----- Renaming variables does not change what a rule says -----

  lemma {:induction false} EvalRename<D>(S: Structure<D>, v: nat -> D, f: nat -> nat, t: Term)
    ensures Eval(S, v, RenameTerm(f, t)) == Eval(S, Along(v, f), t)
  {
    if t.Skolem? { EvalRename(S, v, f, t.arg); }
  }

  lemma AtomRename<D>(S: Structure<D>, v: nat -> D, f: nat -> nat, a: Atom)
    ensures AtomTrue(S, v, RenameAtom(f, a)) == AtomTrue(S, Along(v, f), a)
  {
    EvalRename(S, v, f, a.t);
    if a.RoleAtom? || a.EqAtom? || a.NeqAtom? { EvalRename(S, v, f, a.s); }
  }

  lemma BodyRename<D>(S: Structure<D>, v: nat -> D, f: nat -> nat, body: seq<Atom>)
    ensures BodyTrue(S, v, RenameBody(f, body)) == BodyTrue(S, Along(v, f), body)
  {
    var w := Along(v, f);
    var r := RenameBody(f, body);
    forall k | 0 <= k < |body| ensures AtomTrue(S, v, r[k]) == AtomTrue(S, w, body[k]) {
      AtomRename(S, v, f, body[k]);
      RenameBodyAt(f, body, k);
    }
    assert BodyTrue(S, v, r) <==> forall k | 0 <= k < |r| :: AtomTrue(S, v, r[k]);
    assert BodyTrue(S, w, body) <==> forall k | 0 <= k < |body| :: AtomTrue(S, w, body[k]);
  }

  /** The assignment of the raw variables that matches `v` on the canonical ones. */
  ghost function Unnumbered<D>(v: nat -> D, names: seq<nat>): nat -> D {
    (n: nat) => if 1 <= n <= |names| then v(names[n - 1]) else v(0)
  }

  lemma RenamedRuleAt<D>(S: Structure<D>, v: nat -> D, f: nat -> nat, head: Option<Atom>, body: seq<Atom>)
    ensures BodyTrue(S, v, RenameBody(f, body)) == BodyTrue(S, Along(v, f), body)
    ensures HeadTrue(S, v, RenameHead(f, head)) == HeadTrue(S, Along(v, f), head)
  {
    BodyRename(S, v, f, body);
    if head.Some? { AtomRename(S, v, f, head.value); }
  }

  lemma RuleAgree<D>(S: Structure<D>, v: nat -> D, w: nat -> D, head: Option<Atom>, body: seq<Atom>)
    requires AgreeOn(v, w, RuleNames(head, body))
    ensures BodyTrue(S, v, body) == BodyTrue(S, w, body)
    ensures HeadTrue(S, v, head) == HeadTrue(S, w, head)
  {
    DistinctSpec(HeadVars(head) + BodyVars(body));
    BodyAgree(S, v, w, body);
    if head.Some? { AtomAgree(S, v, w, head.value); }
  }

  lemma CanonicalHolds<D(!new)>(S: Structure<D>, head: Option<Atom>, body: seq<Atom>)
    requires Implied(S, head, body)
    ensures RuleTrue(S, Canonical(head, body))
  {
    var f := Numbering(RuleNames(head, body));
    forall v: nat -> D ensures BodyTrue(S, v, RenameBody(f, body)) ==> HeadTrue(S, v, RenameHead(f, head)) {
      RenamedRuleAt(S, v, f, head, body);
    }
  }

  lemma CanonicalMeans<D(!new)>(S: Structure<D>, head: Option<Atom>, body: seq<Atom>, v: nat -> D)
    requires RuleTrue(S, Canonical(head, body))
    requires BodyTrue(S, v, body)
    ensures HeadTrue(S, v, head)
  {
    var names := RuleNames(head, body);
    var f := Numbering(names);
    var w := Unnumbered(v, names);
    RuleAgree(S, Along(w, f), v, head, body);
    RenamedRuleAt(S, w, f, head, body);
  }

  /** Canonical variable names leave the meaning of a rule alone, in both directions. */
  lemma CanonicalSameMeaning<D(!new)>(S: Structure<D>, head: Option<Atom>, body: seq<Atom>)
    ensures RuleTrue(S, Canonical(head, body)) <==> Implied(S, head, body)
  {
    if Implied(S, head, body) { CanonicalHolds(S, head, body); }
    if RuleTrue(S, Canonical(head, body)) {
      forall v: nat -> D | BodyTrue(S, v, body) ensures HeadTrue(S, v, head) {
        CanonicalMeans(S, head, body, v);
      }
    }
  }
}
