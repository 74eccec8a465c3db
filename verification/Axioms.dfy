/** The axioms that compile, with their meaning (OWL 2 Direct Semantics, sections 2.3.1 to 2.3.6). */
module Axioms {
  import opened Expressions
  import opened Semantics

  datatype Axiom =
    | SubClass(sub: Expr, sup: Expr)
    | EquivalentClasses(left: Expr, right: Expr)
    | DisjointClasses(left: Expr, right: Expr)
    | AllDisjoint(members: seq<Expr>)
    | ClassAssertion(subject: Node, class_: Expr)
    | SubProperty(p: Property, q: Property)
    | EquivalentProperties(p: Property, q: Property)
    | InverseProperties(p: Property, q: Property)
    | Domain(p: Property, class_: Expr)
    | Range(p: Property, class_: Expr)
    | Transitive(p: Property)
    | Symmetric(p: Property)
    | Functional(p: Property)
    | InverseFunctional(p: Property)
    | PropertyAssertion(name: string, subject: Node, object_: Node)
    | SameAs(subject: Node, object_: Node)
    | DifferentFrom(subject: Node, object_: Node)
    | AllDifferent(individuals: seq<Node>)
    | NamedIndividual(subject: Node)
  {
    predicate AboutClasses() { SubClass? || EquivalentClasses? || DisjointClasses? || AllDisjoint? }
    predicate AboutRoles() { SubProperty? || EquivalentProperties? || InverseProperties? || Domain? || Range? }
    predicate Characteristic() { Transitive? || Symmetric? || Functional? || InverseFunctional? }
    predicate Assertion() { !AboutClasses() && !AboutRoles() && !Characteristic() }
  }

  ghost predicate Included<D(!new)>(I: Interp<D>, c: Expr, d: Expr) {
    forall a: D :: Sat(I, c, a) ==> Sat(I, d, a)
  }

  ghost predicate Apart<D(!new)>(I: Interp<D>, c: Expr, d: Expr) {
    forall a: D :: !(Sat(I, c, a) && Sat(I, d, a))
  }

  ghost predicate SubRole<D(!new)>(I: Interp<D>, p: Property, q: Property) {
    forall a: D, b: D :: Related(I, p, a, b) ==> Related(I, q, a, b)
  }

  ghost predicate HasDomain<D(!new)>(I: Interp<D>, p: Property, c: Expr) {
    forall a: D, b: D :: Related(I, p, a, b) ==> Sat(I, c, a)
  }

  ghost predicate IsTransitive<D(!new)>(I: Interp<D>, p: Property) {
    forall a: D, b: D, c: D :: Related(I, p, a, b) && Related(I, p, b, c) ==> Related(I, p, a, c)
  }

  ghost predicate IsFunctional<D(!new)>(I: Interp<D>, p: Property) {
    forall a: D, b: D, c: D :: Related(I, p, a, b) && Related(I, p, a, c) ==> b == c
  }

  ghost predicate AxiomTrue<D(!new)>(I: Interp<D>, ax: Axiom) {
    match ax
    case SubClass(c, d) => Included(I, c, d)
    case EquivalentClasses(c, d) => Included(I, c, d) && Included(I, d, c)
    case DisjointClasses(c, d) => Apart(I, c, d)
    case AllDisjoint(cs) => forall i, j | 0 <= i < j < |cs| :: Apart(I, cs[i], cs[j])
    case ClassAssertion(n, c) => Sat(I, c, I.individuals(n))
    case SubProperty(p, q) => SubRole(I, p, q)
    case EquivalentProperties(p, q) => SubRole(I, p, q) && SubRole(I, q, p)
    case InverseProperties(p, q) => SubRole(I, p, q.Flip()) && SubRole(I, q.Flip(), p)
    case Domain(p, c) => HasDomain(I, p, c)
    case Range(p, c) => HasDomain(I, p.Flip(), c)
    case Transitive(p) => IsTransitive(I, p)
    case Symmetric(p) => SubRole(I, p, p.Flip())
    case Functional(p) => IsFunctional(I, p)
    case InverseFunctional(p) => IsFunctional(I, p.Flip())
    case PropertyAssertion(name, m, n) => I.roles(name, I.individuals(m), I.individuals(n))
    case SameAs(m, n) => I.individuals(m) == I.individuals(n)
    case DifferentFrom(m, n) => I.individuals(m) != I.individuals(n)
    case AllDifferent(ns) => forall i, j | 0 <= i < j < |ns| :: I.individuals(ns[i]) != I.individuals(ns[j])
    case NamedIndividual(_) => true
  }

  ghost predicate AxiomsTrue<D(!new)>(I: Interp<D>, axioms: seq<Axiom>) {
    forall ax | ax in axioms :: AxiomTrue(I, ax)
  }

  function Pairs<T>(a: T, others: seq<T>): (r: seq<(T, T)>)
    ensures |r| == |others|
    ensures forall i | 0 <= i < |r| :: r[i] == (a, others[i])
  {
    if others == [] then [] else [(a, others[0])] + Pairs(a, others[1..])
  }

  /** All two-element combinations, in lexicographic order of positions. */
  function Combinations<T>(s: seq<T>): seq<(T, T)> {
    if s == [] then [] else Pairs(s[0], s[1..]) + Combinations(s[1..])
  }

  lemma {:induction false} CombinationsAre<T>(s: seq<T>, i: nat, j: nat)
    requires i < j < |s|
    ensures (s[i], s[j]) in Combinations(s)
  {
    if i == 0 {
      assert Pairs(s[0], s[1..])[j - 1] == (s[0], s[j]);
    } else {
      CombinationsAre(s[1..], i - 1, j - 1);
    }
  }

  lemma {:induction false} CombinationsOnly<T>(s: seq<T>, p: (T, T)) returns (i: nat, j: nat)
    requires p in Combinations(s)
    ensures i < j < |s| && p == (s[i], s[j])
  {
    if p in Pairs(s[0], s[1..]) {
      var k :| 0 <= k < |s| - 1 && Pairs(s[0], s[1..])[k] == p;
      i, j := 0, k + 1;
    } else {
      i, j := CombinationsOnly(s[1..], p);
      i, j := i + 1, j + 1;
    }
  }
}
