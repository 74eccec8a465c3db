/** What the triples of a graph say as axioms, read one after another and compiled on the way. */
module GraphAxioms {
  import opened Options
  import opened Expressions
  import opened Semantics
  import opened Normalization
  import opened Axioms
  import opened Parsing
  import opened Results

  const TYPE := Other("http://www.w3.org/1999/02/22-rdf-syntax-ns#type")
  const SUB_CLASS_OF := Other("http://www.w3.org/2000/01/rdf-schema#subClassOf")
  const SUB_PROPERTY_OF := Other("http://www.w3.org/2000/01/rdf-schema#subPropertyOf")
  const DOMAIN := Other("http://www.w3.org/2000/01/rdf-schema#domain")
  const RANGE := Other("http://www.w3.org/2000/01/rdf-schema#range")
  const EQUIVALENT_CLASS := Other("http://www.w3.org/2002/07/owl#equivalentClass")
  const DISJOINT_WITH := Other("http://www.w3.org/2002/07/owl#disjointWith")
  const EQUIVALENT_PROPERTY := Other("http://www.w3.org/2002/07/owl#equivalentProperty")
  const SAME_AS := Other("http://www.w3.org/2002/07/owl#sameAs")
  const DIFFERENT_FROM := Other("http://www.w3.org/2002/07/owl#differentFrom")
  const MEMBERS := Other("http://www.w3.org/2002/07/owl#members")
  const DISTINCT_MEMBERS := Other("http://www.w3.org/2002/07/owl#distinctMembers")

  const NAMED_INDIVIDUAL := Iri("http://www.w3.org/2002/07/owl#NamedIndividual")
  const ALL_DIFFERENT := Iri("http://www.w3.org/2002/07/owl#AllDifferent")
  const ALL_DISJOINT := Iri("http://www.w3.org/2002/07/owl#AllDisjointClasses")
  const TRANSITIVE := Iri("http://www.w3.org/2002/07/owl#TransitiveProperty")
  const SYMMETRIC := Iri("http://www.w3.org/2002/07/owl#SymmetricProperty")
  const FUNCTIONAL := Iri("http://www.w3.org/2002/07/owl#FunctionalProperty")
  const INVERSE_FUNCTIONAL := Iri("http://www.w3.org/2002/07/owl#InverseFunctionalProperty")
  const CHARACTERISTICS := {TRANSITIVE, SYMMETRIC, FUNCTIONAL, INVERSE_FUNCTIONAL}

  /** What the compiler goes through: nodes to validate, named classes with a constructor, and triples. */
  datatype Statement = Checked(node: Node) | Definition(node: Node) | Stated(triple: Triple)

  // ----- What a statement says -----

  function CharacteristicOf(kind: Node, p: Property): Axiom {
    if kind == TRANSITIVE then Transitive(p) else if kind == SYMMETRIC then Symmetric(p)
    else if kind == FUNCTIONAL then Functional(p) else InverseFunctional(p)
  }

  ghost predicate MeetAll(g: Graph, nodes: seq<Node>, es: seq<Expr>) {
    |es| == |nodes| && forall i | 0 <= i < |nodes| :: Meets(g, nodes[i], false, es[i])
  }

  /** Exactly one list of members, under either of its two names. */
  predicate MemberList(g: Graph, s: Node, head: Node) {
    |Objects(g, s, DISTINCT_MEMBERS)| + |Objects(g, s, MEMBERS)| == 1 && head in Objects(g, s, DISTINCT_MEMBERS) +
      Objects(g, s, MEMBERS)
  }

  ghost predicate TypeSays(g: Graph, s: Node, kind: Node, ax: Axiom) {
    if kind == NAMED_INDIVIDUAL then ax == NamedIndividual(s)
    else if kind == ALL_DIFFERENT then ax.AllDifferent? && exists head ::
      MemberList(g, s, head) && IsList(g, head, ax.individuals)
    else if kind == ALL_DISJOINT then ax.AllDisjoint? && exists head, ns ::
      Sole(g, s, MEMBERS, head) && IsList(g, head, ns) && Disjoints(g, ns, ax.members)
    else if kind in CHARACTERISTICS then exists p :: IsProperty(g, s, p) && ax == CharacteristicOf(kind, p)
    else ax.ClassAssertion? && ax.subject == s && Meets(g, kind, false, ax.class_)
  }

  /** A member is read only when it has another to be disjoint from. */
  ghost predicate Disjoints(g: Graph, ns: seq<Node>, es: seq<Expr>) {
    if |ns| < 2 then es == [] else MeetAll(g, ns, es)
  }

  ghost predicate ClassesSay(g: Graph, t: Triple, ax: Axiom) {
    exists c, d :: Meets(g, t.subject, false, c) && Meets(g, t.object_, false, d) &&
      ax == if t.predicate_ == SUB_CLASS_OF then SubClass(c, d) else if t.predicate_ == EQUIVALENT_CLASS then
        EquivalentClasses(c, d) else DisjointClasses(c, d)
  }

  ghost predicate PropertiesSay(g: Graph, t: Triple, ax: Axiom) {
    exists p, q :: IsProperty(g, t.subject, p) && IsProperty(g, t.object_, q) &&
      ax == if t.predicate_ == SUB_PROPERTY_OF then SubProperty(p, q) else if t.predicate_ == EQUIVALENT_PROPERTY then
        EquivalentProperties(p, q) else InverseProperties(p, q)
  }

  ghost predicate EndSays(g: Graph, t: Triple, ax: Axiom) {
    exists p, c :: IsProperty(g, t.subject, p) && Meets(g, t.object_, false, c) && ax == if t.predicate_ == DOMAIN then
      Domain(p, c) else Range(p, c)
  }

  predicate Structural(p: Predicate) { p in CONSTRUCTORS + {OnProperty, First, Rest, MEMBERS, DISTINCT_MEMBERS} }

  ghost predicate TripleSays(g: Graph, t: Triple, axioms: seq<Axiom>) {
    if Structural(t.predicate_) then axioms == []
    else if t.predicate_ == InverseOf && t.subject.Blank? then axioms == [] && exists p :: IsProperty(g, t.subject, p)
    else |axioms| == 1 && LogicalSays(g, t, axioms[0])
  }

  ghost predicate LogicalSays(g: Graph, t: Triple, ax: Axiom) {
    if t.predicate_ == TYPE then TypeSays(g, t.subject, t.object_, ax)
    else if t.predicate_ in {SUB_CLASS_OF, EQUIVALENT_CLASS, DISJOINT_WITH} then ClassesSay(g, t, ax)
    else if t.predicate_ in {SUB_PROPERTY_OF, EQUIVALENT_PROPERTY, InverseOf} then PropertiesSay(g, t, ax)
    else if t.predicate_ in {DOMAIN, RANGE} then EndSays(g, t, ax)
    else if t.predicate_ == SAME_AS then ax == SameAs(t.subject, t.object_)
    else if t.predicate_ == DIFFERENT_FROM then ax == DifferentFrom(t.subject, t.object_)
    else
      && t.predicate_.Other? && t.predicate_.name !in BUILT_IN_PROPERTIES
      && ax == PropertyAssertion(t.predicate_.name, t.subject, t.object_)
  }

  ghost predicate Says(g: Graph, st: Statement, axioms: seq<Axiom>) {
    match st
    case Checked(n) => axioms == [] && !Meaningless(g, n, true)
    case Definition(n) =>
      exists c, d :: Meets(g, n, false, c) && Meets(g, n, true, d) && axioms == [EquivalentClasses(c, d)]
    case Stated(t) => TripleSays(g, t, axioms)
  }

  /** The statements, in order, say the axioms, in order. */
  ghost predicate SayAll(g: Graph, statements: seq<Statement>, axioms: seq<Axiom>)
    decreases |statements|
  {
    if statements == [] then axioms == []
    else exists first, rest ::
      Says(g, statements[0], first) && SayAll(g, statements[1..], rest) && axioms == first + rest
  }

  // ----- Each statement says one thing -----

  lemma PropertyUnique(g: Graph, n: Node, p: Property, q: Property)
    requires IsProperty(g, n, p) && IsProperty(g, n, q)
    ensures p == q
  {
    var i: nat :| InverseChain(g, n, i, p.name) && p.inverse == (i % 2 == 1);
    var j: nat :| InverseChain(g, n, j, q.name) && q.inverse == (j % 2 == 1);
    ChainUnique(g, n, i, j, p.name, q.name);
  }

  lemma MeetAllUnique(g: Graph, ns: seq<Node>, a: seq<Expr>, b: seq<Expr>)
    requires MeetAll(g, ns, a) && MeetAll(g, ns, b)
    ensures a == b
  {
    forall i | 0 <= i < |ns| ensures a[i] == b[i] { MeetsUnique(g, ns[i], false, a[i], b[i]); }
  }

  lemma MemberListUnique(g: Graph, s: Node, a: Node, b: Node)
    requires MemberList(g, s, a) && MemberList(g, s, b)
    ensures a == b
  {
    var ds, ms := Objects(g, s, DISTINCT_MEMBERS), Objects(g, s, MEMBERS);
    OneOfTwo(ds, ms, a, b);
  }

  lemma OneOfTwo(ds: set<Node>, ms: set<Node>, a: Node, b: Node)
    requires |ds| + |ms| == 1 && a in ds + ms && b in ds + ms
    ensures a == b
  {
    var u := if |ds| == 1 then ds else ms;
    assert ds == {} || ms == {};
    assert a in u && b in u && |u| == 1;
    assert |u - {a}| == 0;
  }

  lemma TypeUnique(g: Graph, s: Node, kind: Node, a: Axiom, b: Axiom)
    requires TypeSays(g, s, kind, a) && TypeSays(g, s, kind, b)
    ensures a == b
  {
    hide Meets;
    hide IsProperty;
    hide IsList;
    hide MemberList;
    hide Disjoints;
    if kind == ALL_DIFFERENT {
      var h :| MemberList(g, s, h) && IsList(g, h, a.individuals);
      var k :| MemberList(g, s, k) && IsList(g, k, b.individuals);
      MemberListUnique(g, s, h, k);
      ListUnique(g, h, a.individuals, b.individuals);
    } else if kind == ALL_DISJOINT {
      DisjointUnique(g, s, a.members, b.members);
    } else if kind in CHARACTERISTICS {
      var p :| IsProperty(g, s, p) && a == CharacteristicOf(kind, p);
      var q :| IsProperty(g, s, q) && b == CharacteristicOf(kind, q);
      PropertyUnique(g, s, p, q);
    } else if kind != NAMED_INDIVIDUAL {
      MeetsUnique(g, kind, false, a.class_, b.class_);
    }
  }

  lemma DisjointUnique(g: Graph, s: Node, a: seq<Expr>, b: seq<Expr>)
    requires exists head, ns :: Sole(g, s, MEMBERS, head) && IsList(g, head, ns) && Disjoints(g, ns, a)
    requires exists head, ns :: Sole(g, s, MEMBERS, head) && IsList(g, head, ns) && Disjoints(g, ns, b)
    ensures a == b
  {
    hide IsList;
    var h, ns :| Sole(g, s, MEMBERS, h) && IsList(g, h, ns) && Disjoints(g, ns, a);
    var k, ms :| Sole(g, s, MEMBERS, k) && IsList(g, k, ms) && Disjoints(g, ms, b);
    assert {h} == {k} && h in {k};
    ListUnique(g, h, ns, ms);
    if |ns| >= 2 { MeetAllUnique(g, ns, a, b); }
  }

  lemma TripleUnique(g: Graph, t: Triple, a: seq<Axiom>, b: seq<Axiom>)
    requires TripleSays(g, t, a) && TripleSays(g, t, b)
    ensures a == b
  {
    hide Meets;
    hide IsProperty;
    hide TypeSays;
    if a != [] {
      assert a == [a[0]] && b == [b[0]];
      if t.predicate_ == TYPE {
        TypeUnique(g, t.subject, t.object_, a[0], b[0]);
      } else if t.predicate_ in {SUB_CLASS_OF, EQUIVALENT_CLASS, DISJOINT_WITH} {
        ClassesUnique(g, t, a[0], b[0]);
      } else if t.predicate_ in {SUB_PROPERTY_OF, EQUIVALENT_PROPERTY, InverseOf} {
        PropertiesUnique(g, t, a[0], b[0]);
      } else if t.predicate_ in {DOMAIN, RANGE} {
        EndUnique(g, t, a[0], b[0]);
      }
    }
  }

  lemma ClassesUnique(g: Graph, t: Triple, a: Axiom, b: Axiom)
    requires ClassesSay(g, t, a) && ClassesSay(g, t, b)
    ensures a == b
  {
    hide Meets;
    forall c, d | Meets(g, t.subject, false, c) && Meets(g, t.subject, false, d)
      ensures c == d
    {
      MeetsUnique(g, t.subject, false, c, d);
    }
    forall c, d | Meets(g, t.object_, false, c) && Meets(g, t.object_, false, d)
      ensures c == d
    {
      MeetsUnique(g, t.object_, false, c, d);
    }
  }

  lemma PropertiesUnique(g: Graph, t: Triple, a: Axiom, b: Axiom)
    requires PropertiesSay(g, t, a) && PropertiesSay(g, t, b)
    ensures a == b
  {
    hide IsProperty;
    forall p, q | IsProperty(g, t.subject, p) && IsProperty(g, t.subject, q)
      ensures p == q
    {
      PropertyUnique(g, t.subject, p, q);
    }
    forall p, q | IsProperty(g, t.object_, p) && IsProperty(g, t.object_, q)
      ensures p == q
    {
      PropertyUnique(g, t.object_, p, q);
    }
  }

  lemma EndUnique(g: Graph, t: Triple, a: Axiom, b: Axiom)
    requires EndSays(g, t, a) && EndSays(g, t, b)
    ensures a == b
  {
    hide IsProperty;
    hide Meets;
    forall p, q | IsProperty(g, t.subject, p) && IsProperty(g, t.subject, q)
      ensures p == q
    {
      PropertyUnique(g, t.subject, p, q);
    }
    forall c, d | Meets(g, t.object_, false, c) && Meets(g, t.object_, false, d)
      ensures c == d
    {
      MeetsUnique(g, t.object_, false, c, d);
    }
  }

  lemma SaysUnique(g: Graph, st: Statement, a: seq<Axiom>, b: seq<Axiom>)
    requires Says(g, st, a) && Says(g, st, b)
    ensures a == b
  {
    hide Meets;
    hide TripleSays;
    match st
    case Checked(_) =>
    case Definition(n) =>
      forall c, d | Meets(g, n, false, c) && Meets(g, n, false, d) ensures c == d { MeetsUnique(g, n, false, c, d); }
      forall c, d | Meets(g, n, true, c) && Meets(g, n, true, d) ensures c == d { MeetsUnique(g, n, true, c, d); }
    case Stated(t) => TripleUnique(g, t, a, b);
  }

  lemma {:induction false} SayAllUnique(g: Graph, statements: seq<Statement>, a: seq<Axiom>, b: seq<Axiom>)
    requires SayAll(g, statements, a) && SayAll(g, statements, b)
    ensures a == b
    decreases |statements|
  {
    hide Says;
    if statements != [] {
      var f, r :| Says(g, statements[0], f) && SayAll(g, statements[1..], r) && a == f + r;
      var f', r' :| Says(g, statements[0], f') && SayAll(g, statements[1..], r') && b == f' + r';
      SaysUnique(g, statements[0], f, f');
      SayAllUnique(g, statements[1..], r, r');
    }
  }

  // ----- What a triple means, without its axiom -----

  /** What a type triple says of an interpretation. */
  ghost predicate TypeTrue<D(!new)>(I: Interp<D>, g: Graph, s: Node, kind: Node) {
    if kind == NAMED_INDIVIDUAL then true
    else if kind == ALL_DIFFERENT then
      forall head, ns | MemberList(g, s, head) && IsList(g, head, ns) :: AllApart(I, ns)
    else if kind == ALL_DISJOINT then
      forall head, ns | Sole(g, s, MEMBERS, head) && IsList(g, head, ns) :: AllWithoutCommon(I, g, ns)
    else if kind == TRANSITIVE then forall p | IsProperty(g, s, p) :: IsTransitive(I, p)
    else if kind == SYMMETRIC then forall p | IsProperty(g, s, p) :: SubRole(I, p, p.Flip())
    else if kind == FUNCTIONAL then forall p | IsProperty(g, s, p) :: IsFunctional(I, p)
    else if kind == INVERSE_FUNCTIONAL then forall p | IsProperty(g, s, p) :: IsFunctional(I, p.Flip())
    else forall c | Meets(g, kind, false, c) :: Sat(I, c, I.individuals(s))
  }

  ghost predicate AllApart<D(!new)>(I: Interp<D>, ns: seq<Node>) {
    forall i, j | 0 <= i < j < |ns| :: I.individuals(ns[i]) != I.individuals(ns[j])
  }

  ghost predicate AllWithoutCommon<D(!new)>(I: Interp<D>, g: Graph, ns: seq<Node>) {
    forall i, j, c, d | 0 <= i < j < |ns| && Meets(g, ns[i], false, c) && Meets(g, ns[j], false, d) ::
      forall a: D :: !(Sat(I, c, a) && Sat(I, d, a))
  }

  ghost predicate ClassesTrue<D(!new)>(I: Interp<D>, g: Graph, t: Triple) {
    forall c, d, a: D | Meets(g, t.subject, false, c) && Meets(g, t.object_, false, d) ::
      && (t.predicate_ == SUB_CLASS_OF ==> Sat(I, c, a) ==> Sat(I, d, a))
      && (t.predicate_ == EQUIVALENT_CLASS ==> (Sat(I, c, a) <==> Sat(I, d, a)))
      && (t.predicate_ == DISJOINT_WITH ==> !(Sat(I, c, a) && Sat(I, d, a)))
  }

  ghost predicate PropertiesTrue<D(!new)>(I: Interp<D>, g: Graph, t: Triple) {
    forall p, q, a: D, b: D | IsProperty(g, t.subject, p) && IsProperty(g, t.object_, q) ::
      && (t.predicate_ == SUB_PROPERTY_OF ==> Related(I, p, a, b) ==> Related(I, q, a, b))
      && (t.predicate_ == EQUIVALENT_PROPERTY ==> (Related(I, p, a, b) <==> Related(I, q, a, b)))
      && (t.predicate_ == InverseOf ==> (Related(I, p, a, b) <==> Related(I, q, b, a)))
  }

  ghost predicate EndTrue<D(!new)>(I: Interp<D>, g: Graph, t: Triple) {
    forall p, c, a: D, b: D | IsProperty(g, t.subject, p) && Meets(g, t.object_, false, c) && Related(I, p, a, b) ::
      && (t.predicate_ == DOMAIN ==> Sat(I, c, a))
      && (t.predicate_ == RANGE ==> Sat(I, c, b))
  }

  /** What a triple says of an interpretation; triples that spell expressions and lists say nothing by themselves. */
  ghost predicate TripleTrue<D(!new)>(I: Interp<D>, g: Graph, t: Triple) {
    if t.predicate_ == TYPE then TypeTrue(I, g, t.subject, t.object_)
    else if t.predicate_ in {SUB_CLASS_OF, EQUIVALENT_CLASS, DISJOINT_WITH} then ClassesTrue(I, g, t)
    else if t.predicate_ in {SUB_PROPERTY_OF, EQUIVALENT_PROPERTY} then PropertiesTrue(I, g, t)
    else if t.predicate_ == InverseOf then t.subject.Blank? || PropertiesTrue(I, g, t)
    else if t.predicate_ in {DOMAIN, RANGE} then EndTrue(I, g, t)
    else if t.predicate_ == SAME_AS then I.individuals(t.subject) == I.individuals(t.object_)
    else if t.predicate_ == DIFFERENT_FROM then I.individuals(t.subject) != I.individuals(t.object_)
    else if t.predicate_ in {MEMBERS, DISTINCT_MEMBERS} then true
    else t.predicate_.Other? ==> I.roles(t.predicate_.name, I.individuals(t.subject), I.individuals(t.object_))
  }

  /** When a triple can be read at all. */
  ghost predicate Readable(g: Graph, t: Triple) {
    var s, p, o := t.subject, t.predicate_, t.object_;
    if p == TYPE then
      if o == NAMED_INDIVIDUAL then true
      else if o == ALL_DIFFERENT then exists head, ns :: MemberList(g, s, head) && IsList(g, head, ns)
      else if o == ALL_DISJOINT then
        exists head, ns :: Sole(g, s, MEMBERS, head) && IsList(g, head, ns) && MembersReadable(g, ns)
      else if o in {TRANSITIVE, SYMMETRIC, FUNCTIONAL, INVERSE_FUNCTIONAL} then exists q :: IsProperty(g, s, q)
      else exists c :: Meets(g, o, false, c)
    else if p in {SUB_CLASS_OF, EQUIVALENT_CLASS, DISJOINT_WITH} then
      exists c, d :: Meets(g, s, false, c) && Meets(g, o, false, d)
    else if p in {SUB_PROPERTY_OF, EQUIVALENT_PROPERTY} then
      exists q, r :: IsProperty(g, s, q) && IsProperty(g, o, r)
    else if p == InverseOf then
      if s.Blank? then exists q :: IsProperty(g, s, q) else exists q, r :: IsProperty(g, s, q) && IsProperty(g, o, r)
    else if p in {DOMAIN, RANGE} then exists q, c :: IsProperty(g, s, q) && Meets(g, o, false, c)
    else p.Other? ==> p.name !in BUILT_IN_PROPERTIES || p in {SAME_AS, DIFFERENT_FROM, MEMBERS, DISTINCT_MEMBERS}
  }

  ghost predicate MembersReadable(g: Graph, ns: seq<Node>) {
    |ns| >= 2 ==> forall n | n in ns :: exists c :: Meets(g, n, false, c)
  }

  /** A type triple's axiom is true exactly where the triple is. */
  lemma TypeMeans<D(!new)>(I: Interp<D>, g: Graph, s: Node, kind: Node, ax: Axiom)
    requires TypeSays(g, s, kind, ax)
    ensures AxiomTrue(I, ax) <==> TypeTrue(I, g, s, kind)
  {
    hide *;
    if kind == ALL_DIFFERENT {
      DifferentMeans(I, g, s, ax);
    } else if kind == ALL_DISJOINT {
      DisjointMeans(I, g, s, ax);
    } else if kind in CHARACTERISTICS {
      CharacteristicMeans(I, g, s, kind, ax);
    } else {
      MembershipMeans(I, g, s, kind, ax);
    }
  }

  lemma CharacteristicMeans<D(!new)>(I: Interp<D>, g: Graph, s: Node, kind: Node, ax: Axiom)
    requires TypeSays(g, s, kind, ax) && kind in CHARACTERISTICS
    ensures AxiomTrue(I, ax) <==> TypeTrue(I, g, s, kind)
  {
    hide Meets;
    hide IsProperty;
    hide IsTransitive;
    hide IsFunctional;
    hide SubRole;
    KindsDiffer();
    CharacteristicTrue<D>(g, s, kind);
    hide TypeTrue;
    var p :| IsProperty(g, s, p) && ax == CharacteristicOf(kind, p);
  }

  lemma MembershipMeans<D(!new)>(I: Interp<D>, g: Graph, s: Node, kind: Node, ax: Axiom)
    requires TypeSays(g, s, kind, ax) && kind !in CHARACTERISTICS && kind != ALL_DIFFERENT && kind != ALL_DISJOINT
    ensures AxiomTrue(I, ax) <==> TypeTrue(I, g, s, kind)
  {
    hide Meets;
    hide IsProperty;
    hide Sat;
    KindsDiffer();
    if kind != NAMED_INDIVIDUAL {
      forall c | Meets(g, kind, false, c) ensures c == ax.class_ { MeetsUnique(g, kind, false, c, ax.class_); }
    }
  }

  lemma KindsDiffer()
    ensures CHARACTERISTICS == {TRANSITIVE, SYMMETRIC, FUNCTIONAL, INVERSE_FUNCTIONAL}
    ensures TRANSITIVE != SYMMETRIC && TRANSITIVE != FUNCTIONAL && TRANSITIVE != INVERSE_FUNCTIONAL
    ensures SYMMETRIC != FUNCTIONAL && SYMMETRIC != INVERSE_FUNCTIONAL && FUNCTIONAL != INVERSE_FUNCTIONAL
    ensures NAMED_INDIVIDUAL !in CHARACTERISTICS && ALL_DIFFERENT !in CHARACTERISTICS
    ensures ALL_DISJOINT !in CHARACTERISTICS && ALL_DIFFERENT != ALL_DISJOINT
  {
    assert TRANSITIVE.text[30] == 'T' && SYMMETRIC.text[30] == 'S' && FUNCTIONAL.text[30] == 'F';
    assert INVERSE_FUNCTIONAL.text[30] == 'I' && NAMED_INDIVIDUAL.text[30] == 'N' && ALL_DIFFERENT.text[30] == 'A';
    assert ALL_DISJOINT.text[30] == 'A' && ALL_DIFFERENT.text[35] == 'f' && ALL_DISJOINT.text[35] == 's';
  }

  lemma DifferentMeans<D(!new)>(I: Interp<D>, g: Graph, s: Node, ax: Axiom)
    requires TypeSays(g, s, ALL_DIFFERENT, ax)
    ensures AxiomTrue(I, ax) <==> TypeTrue(I, g, s, ALL_DIFFERENT)
  {
    hide IsList;
    hide MemberList;
    hide Meets;
    hide Sat;
    KindsDiffer();
    var head :| MemberList(g, s, head) && IsList(g, head, ax.individuals);
    forall h, ns | MemberList(g, s, h) && IsList(g, h, ns) ensures ns == ax.individuals {
      MemberListUnique(g, s, h, head);
      ListUnique(g, head, ns, ax.individuals);
    }
  }

  lemma DisjointMeans<D(!new)>(I: Interp<D>, g: Graph, s: Node, ax: Axiom)
    requires TypeSays(g, s, ALL_DISJOINT, ax)
    ensures AxiomTrue(I, ax) <==> TypeTrue(I, g, s, ALL_DISJOINT)
  {
    hide IsList;
    hide Meets;
    hide Sat;
    hide Disjoints;
    hide AllWithoutCommon;
    hide AllApart;
    KindsDiffer();
    var head, ns :| Sole(g, s, MEMBERS, head) && IsList(g, head, ns) && Disjoints(g, ns, ax.members);
    forall h, ms | Sole(g, s, MEMBERS, h) && IsList(g, h, ms) ensures ms == ns {
      assert {h} == {head} && h in {head};
      ListUnique(g, head, ms, ns);
    }
    MembersApart(I, g, ns, ax.members);
  }

  lemma MembersApart<D(!new)>(I: Interp<D>, g: Graph, ns: seq<Node>, es: seq<Expr>)
    requires Disjoints(g, ns, es)
    ensures (forall i, j | 0 <= i < j < |es| :: Apart(I, es[i], es[j])) <==> AllWithoutCommon(I, g, ns)
  {
    hide Meets;
    hide Sat;
    forall i, c | 0 <= i < |ns| && |ns| >= 2 && Meets(g, ns[i], false, c) ensures c == es[i] {
      MeetsUnique(g, ns[i], false, c, es[i]);
    }
    if AllWithoutCommon(I, g, ns) {
      forall i, j | 0 <= i < j < |es| ensures Apart(I, es[i], es[j]) {
        assert Meets(g, ns[i], false, es[i]) && Meets(g, ns[j], false, es[j]);
      }
    }
  }

  lemma ClassesMean<D(!new)>(I: Interp<D>, g: Graph, t: Triple, ax: Axiom)
    requires ClassesSay(g, t, ax) && t.predicate_ in {SUB_CLASS_OF, EQUIVALENT_CLASS, DISJOINT_WITH}
    ensures AxiomTrue(I, ax) <==> ClassesTrue(I, g, t)
  {
    hide Meets;
    hide Sat;
    PredicatesDiffer();
    var c, d :| Meets(g, t.subject, false, c) && Meets(g, t.object_, false, d) &&
      ax == if t.predicate_ == SUB_CLASS_OF then SubClass(c, d)
            else if t.predicate_ == EQUIVALENT_CLASS then EquivalentClasses(c, d) else DisjointClasses(c, d);
    forall e | Meets(g, t.subject, false, e) ensures e == c { MeetsUnique(g, t.subject, false, e, c); }
    forall e | Meets(g, t.object_, false, e) ensures e == d { MeetsUnique(g, t.object_, false, e, d); }
  }

  lemma PropertiesMean<D(!new)>(I: Interp<D>, g: Graph, t: Triple, ax: Axiom)
    requires PropertiesSay(g, t, ax) && t.predicate_ in {SUB_PROPERTY_OF, EQUIVALENT_PROPERTY, InverseOf}
    ensures AxiomTrue(I, ax) <==> PropertiesTrue(I, g, t)
  {
    hide IsProperty;
    PredicatesDiffer();
    var p, q :| IsProperty(g, t.subject, p) && IsProperty(g, t.object_, q) &&
      ax == if t.predicate_ == SUB_PROPERTY_OF then SubProperty(p, q)
            else if t.predicate_ == EQUIVALENT_PROPERTY then EquivalentProperties(p, q) else InverseProperties(p, q);
    forall r | IsProperty(g, t.subject, r) ensures r == p { PropertyUnique(g, t.subject, r, p); }
    forall r | IsProperty(g, t.object_, r) ensures r == q { PropertyUnique(g, t.object_, r, q); }
    forall a: D, b: D ensures Related(I, q.Flip(), a, b) <==> Related(I, q, b, a) { }
  }

  lemma EndMeans<D(!new)>(I: Interp<D>, g: Graph, t: Triple, ax: Axiom)
    requires EndSays(g, t, ax) && t.predicate_ in {DOMAIN, RANGE}
    ensures AxiomTrue(I, ax) <==> EndTrue(I, g, t)
  {
    hide IsProperty;
    hide Meets;
    hide Sat;
    PredicatesDiffer();
    var p, c :| IsProperty(g, t.subject, p) && Meets(g, t.object_, false, c) &&
      ax == if t.predicate_ == DOMAIN then Domain(p, c) else Range(p, c);
    forall q | IsProperty(g, t.subject, q) ensures q == p { PropertyUnique(g, t.subject, q, p); }
    forall e | Meets(g, t.object_, false, e) ensures e == c { MeetsUnique(g, t.object_, false, e, c); }
    forall a: D, b: D ensures Related(I, p.Flip(), a, b) <==> Related(I, p, b, a) { }
  }

  lemma PredicatesDiffer()
    ensures SUB_CLASS_OF != EQUIVALENT_CLASS && SUB_CLASS_OF != DISJOINT_WITH && EQUIVALENT_CLASS != DISJOINT_WITH
    ensures SUB_PROPERTY_OF != EQUIVALENT_PROPERTY && DOMAIN != RANGE
  {
    assert |SUB_CLASS_OF.name| == 47 && |EQUIVALENT_CLASS.name| == 45 && |DISJOINT_WITH.name| == 42;
    assert |SUB_PROPERTY_OF.name| == 50 && |EQUIVALENT_PROPERTY.name| == 48;
    assert |DOMAIN.name| == 43 && |RANGE.name| == 42;
  }

  /** A triple's axioms are true exactly where the triple is. */
  lemma TripleMeans<D(!new)>(I: Interp<D>, g: Graph, t: Triple, said: seq<Axiom>)
    requires TripleSays(g, t, said)
    ensures AxiomsTrue(I, said) <==> TripleTrue(I, g, t)
  {
    hide LogicalSays;
    hide AxiomTrue;
    hide IsProperty;
    hide TypeTrue;
    hide ClassesTrue;
    hide PropertiesTrue;
    hide EndTrue;
    PredicatesApart(t.predicate_);
    if said != [] {
      LogicalMeans(I, g, t, said[0]);
      hide TripleTrue;
      assert AxiomsTrue(I, [said[0]]) <==> AxiomTrue(I, said[0]);
    }
  }

  lemma LogicalMeans<D(!new)>(I: Interp<D>, g: Graph, t: Triple, ax: Axiom)
    requires LogicalSays(g, t, ax) && !Structural(t.predicate_) && !(t.predicate_ == InverseOf && t.subject.Blank?)
    ensures AxiomTrue(I, ax) <==> TripleTrue(I, g, t)
  {
    hide TypeTrue;
    hide ClassesTrue;
    hide PropertiesTrue;
    hide EndTrue;
    hide TypeSays;
    hide ClassesSay;
    hide PropertiesSay;
    hide EndSays;
    PredicatesApart(t.predicate_);
    if t.predicate_ == TYPE {
      TypeMeans(I, g, t.subject, t.object_, ax);
    } else if t.predicate_ in {SUB_CLASS_OF, EQUIVALENT_CLASS, DISJOINT_WITH} {
      ClassesMean(I, g, t, ax);
    } else if t.predicate_ in {SUB_PROPERTY_OF, EQUIVALENT_PROPERTY, InverseOf} {
      PropertiesMean(I, g, t, ax);
    } else if t.predicate_ in {DOMAIN, RANGE} {
      EndMeans(I, g, t, ax);
    }
  }

  /** The structural predicates are none of those that state axioms. */
  lemma PredicatesApart(p: Predicate)
    ensures Structural(p) <==>
      p in {IntersectionOf, UnionOf, ComplementOf, Enumerates, SomeValuesFrom, AllValuesFrom, HasValue, MinCardinality,
            MaxCardinality, ExactCardinality, OnProperty, First, Rest, MEMBERS, DISTINCT_MEMBERS}
    ensures p in {MEMBERS, DISTINCT_MEMBERS} ==>
      p !in {TYPE, SUB_CLASS_OF, EQUIVALENT_CLASS, DISJOINT_WITH, SUB_PROPERTY_OF, EQUIVALENT_PROPERTY, InverseOf,
             DOMAIN, RANGE, SAME_AS, DIFFERENT_FROM}
  {
    assert |MEMBERS.name| == 37 && |DISTINCT_MEMBERS.name| == 45 && |TYPE.name| == 47 && |SUB_CLASS_OF.name| == 47;
    assert |EQUIVALENT_CLASS.name| == 45 && |DISJOINT_WITH.name| == 42 && |SUB_PROPERTY_OF.name| == 50;
    assert |EQUIVALENT_PROPERTY.name| == 48 && |DOMAIN.name| == 43 && |RANGE.name| == 42 && |SAME_AS.name| == 36;
    assert |DIFFERENT_FROM.name| == 43 && EQUIVALENT_CLASS.name[30] == 'e' && DISTINCT_MEMBERS.name[30] == 'd';
  }

  /** A triple says something exactly when it can be read. */
  lemma ReadableSays(g: Graph, t: Triple)
    ensures (exists said :: TripleSays(g, t, said)) <==> Readable(g, t)
  {
    if exists said :: TripleSays(g, t, said) {
      var said :| TripleSays(g, t, said);
      SaidReadable(g, t, said);
    }
    if Readable(g, t) {
      var said := ReadableSaid(g, t);
    }
  }

  lemma SaidReadable(g: Graph, t: Triple, said: seq<Axiom>)
    requires TripleSays(g, t, said)
    ensures Readable(g, t)
  {
    hide Meets;
    hide IsProperty;
    hide IsList;
    hide MemberList;
    PredicatesApart(t.predicate_);
    if t.predicate_ == TYPE {
      TypeReadable(g, t, said[0]);
    }
  }

  lemma TypeReadable(g: Graph, t: Triple, ax: Axiom)
    requires t.predicate_ == TYPE && TypeSays(g, t.subject, t.object_, ax)
    ensures Readable(g, t)
  {
    hide Meets;
    hide IsProperty;
    hide IsList;
    hide MemberList;
    KindsDiffer();
    if t.object_ == ALL_DISJOINT {
      var head, ns :| Sole(g, t.subject, MEMBERS, head) && IsList(g, head, ns) && Disjoints(g, ns, ax.members);
      forall n | n in ns && |ns| >= 2 ensures exists c :: Meets(g, n, false, c) {
        var i :| 0 <= i < |ns| && ns[i] == n;
        assert Meets(g, n, false, ax.members[i]);
      }
      assert MembersReadable(g, ns);
    }
  }

  lemma ReadableSaid(g: Graph, t: Triple) returns (said: seq<Axiom>)
    requires Readable(g, t)
    ensures TripleSays(g, t, said)
  {
    hide Meets;
    hide IsProperty;
    hide IsList;
    hide MemberList;
    hide TypeSays;
    PredicatesApart(t.predicate_);
    PredicatesDiffer();
    var s, p, o := t.subject, t.predicate_, t.object_;
    if Structural(p) {
      said := [];
    } else if p == TYPE {
      var ax := ReadableType(g, t);
      said := [ax];
    } else if p in {SUB_CLASS_OF, EQUIVALENT_CLASS, DISJOINT_WITH} {
      var c, d :| Meets(g, s, false, c) && Meets(g, o, false, d);
      said := [if p == SUB_CLASS_OF then SubClass(c, d)
               else if p == EQUIVALENT_CLASS then EquivalentClasses(c, d) else DisjointClasses(c, d)];
      assert ClassesSay(g, t, said[0]);
    } else if p == InverseOf && s.Blank? {
      said := [];
    } else if p in {SUB_PROPERTY_OF, EQUIVALENT_PROPERTY, InverseOf} {
      var q, r :| IsProperty(g, s, q) && IsProperty(g, o, r);
      said := [if p == SUB_PROPERTY_OF then SubProperty(q, r)
               else if p == EQUIVALENT_PROPERTY then EquivalentProperties(q, r) else InverseProperties(q, r)];
      assert PropertiesSay(g, t, said[0]);
    } else if p in {DOMAIN, RANGE} {
      var q, c :| IsProperty(g, s, q) && Meets(g, o, false, c);
      said := [if p == DOMAIN then Domain(q, c) else Range(q, c)];
      assert EndSays(g, t, said[0]);
    } else if p == SAME_AS {
      said := [SameAs(s, o)];
    } else if p == DIFFERENT_FROM {
      said := [DifferentFrom(s, o)];
    } else {
      said := [PropertyAssertion(p.name, s, o)];
    }
  }

  lemma ReadableType(g: Graph, t: Triple) returns (ax: Axiom)
    requires t.predicate_ == TYPE && Readable(g, t)
    ensures TypeSays(g, t.subject, t.object_, ax)
  {
    hide Meets;
    hide IsProperty;
    hide IsList;
    hide MemberList;
    KindsDiffer();
    var s, o := t.subject, t.object_;
    if o == NAMED_INDIVIDUAL {
      ax := NamedIndividual(s);
    } else if o == ALL_DIFFERENT {
      var head, ns :| MemberList(g, s, head) && IsList(g, head, ns);
      ax := AllDifferent(ns);
    } else if o == ALL_DISJOINT {
      var head, ns :| Sole(g, s, MEMBERS, head) && IsList(g, head, ns) && MembersReadable(g, ns);
      var es := ReadableMembers(g, ns);
      ax := AllDisjoint(es);
    } else if o in CHARACTERISTICS {
      var q :| IsProperty(g, s, q);
      ax := CharacteristicOf(o, q);
    } else {
      var c :| Meets(g, o, false, c);
      ax := ClassAssertion(s, c);
    }
  }

  lemma ReadableMembers(g: Graph, ns: seq<Node>) returns (es: seq<Expr>)
    requires MembersReadable(g, ns)
    ensures Disjoints(g, ns, es)
  {
    hide Meets;
    es := [];
    if |ns| >= 2 {
      for i := 0 to |ns|
        invariant MeetAll(g, ns[..i], es)
      {
        assert ns[i] in ns;
        var c :| Meets(g, ns[i], false, c);
        es := es + [c];
      }
      assert ns[..|ns|] == ns;
    }
  }

  // ----- Reading -----

  method ReadPair(parser: Parser, s: Node, o: Node) returns (r: Option<(Expr, Expr)>)
    requires parser.Valid()
    modifies parser
    ensures parser.Valid()
    ensures r.Some? ==> Meets(parser.graph, s, false, r.value.0) && Meets(parser.graph, o, false, r.value.1)
    ensures r.None? ==> Meaningless(parser.graph, s, false) || Meaningless(parser.graph, o, false)
  {
    hide Meets;
    hide Meaningless;
    var c := ReadExpression(parser, s, false);
    if c.None? { return None; }
    var d := ReadExpression(parser, o, false);
    if d.None? { return None; }
    r := Some((c.value, d.value));
  }

  method ReadRole(parser: Parser, n: Node) returns (r: Option<Property>)
    ensures r.Some? ==> IsProperty(parser.graph, n, r.value)
    ensures r.None? ==> forall p :: !IsProperty(parser.graph, n, p)
  {
    hide InverseChain;
    r := parser.ReadProperty(n, {});
  }

  method ReadMembers(parser: Parser, ns: seq<Node>) returns (r: Option<seq<Expr>>)
    requires parser.Valid()
    modifies parser
    ensures parser.Valid()
    ensures r.Some? ==> MeetAll(parser.graph, ns, r.value)
    ensures r.None? ==> forall es :: !MeetAll(parser.graph, ns, es)
  {
    hide Meets;
    var es: seq<Expr> := [];
    for i := 0 to |ns|
      invariant parser.Valid()
      invariant MeetAll(parser.graph, ns[..i], es)
    {
      var e := ReadExpression(parser, ns[i], false);
      if e.None? {
        NoMember(parser.graph, ns, i);
        return None;
      }
      es := es + [e.value];
    }
    assert ns[..|ns|] == ns;
    r := Some(es);
  }

  lemma NoMember(g: Graph, ns: seq<Node>, i: nat)
    requires i < |ns| && Meaningless(g, ns[i], false)
    ensures forall es :: !MeetAll(g, ns, es)
  {
    MeetsNothing(g, ns[i], false);
    hide Meets;
  }

  lemma MeetsNothing(g: Graph, n: Node, expand: bool)
    ensures Meaningless(g, n, expand) <==> forall e :: !Meets(g, n, expand, e)
  {
    hide Denotes;
    hide Normalize;
    if !Meaningless(g, n, expand) {
      var t :| Denotes(g, n, expand, t);
      assert Meets(g, n, expand, Normalize(t));
    }
  }

  /** What a type triple says, when it says anything. */
  method ReadType<D(!new)>(parser: Parser, s: Node, kind: Node) returns (r: Option<Axiom>)
    requires parser.Valid()
    modifies parser
    ensures parser.Valid()
    ensures r.Some? ==> TypeSays(parser.graph, s, kind, r.value)
    ensures r.None? ==> forall ax :: !TypeSays(parser.graph, s, kind, ax)
    ensures r.Some? && kind == TRANSITIVE ==> forall I: Interp<D>, p | IsProperty(parser.graph, s, p) ::
      AxiomTrue(I, r.value) <==> IsTransitive(I, p)
    ensures r.Some? && kind == SYMMETRIC ==> forall I: Interp<D>, p | IsProperty(parser.graph, s, p) ::
      AxiomTrue(I, r.value) <==> SubRole(I, p, p.Flip())
    ensures r.Some? && kind == FUNCTIONAL ==> forall I: Interp<D>, p | IsProperty(parser.graph, s, p) ::
      AxiomTrue(I, r.value) <==> IsFunctional(I, p)
    ensures r.Some? && kind == INVERSE_FUNCTIONAL ==> forall I: Interp<D>, p | IsProperty(parser.graph, s, p) ::
      AxiomTrue(I, r.value) <==> IsFunctional(I, p.Flip())
  {
    r := ReadTypeAxiom(parser, s, kind);
    hide *;
    if r.Some? {
      forall I: Interp<D> ensures AxiomTrue(I, r.value) <==> TypeTrue(I, parser.graph, s, kind) {
        TypeMeans(I, parser.graph, s, kind, r.value);
      }
      CharacteristicTrue<D>(parser.graph, s, kind);
    }
  }

  /** What a characteristic says of the one property that the node denotes. */
  lemma CharacteristicTrue<D(!new)>(g: Graph, s: Node, kind: Node)
    ensures forall I: Interp<D>, p | IsProperty(g, s, p) ::
      && (kind == TRANSITIVE ==> (TypeTrue(I, g, s, kind) <==> IsTransitive(I, p)))
      && (kind == SYMMETRIC ==> (TypeTrue(I, g, s, kind) <==> SubRole(I, p, p.Flip())))
      && (kind == FUNCTIONAL ==> (TypeTrue(I, g, s, kind) <==> IsFunctional(I, p)))
      && (kind == INVERSE_FUNCTIONAL ==> (TypeTrue(I, g, s, kind) <==> IsFunctional(I, p.Flip())))
  {
    hide IsProperty;
    hide IsList;
    hide Meets;
    KindsDiffer();
    forall p, q | IsProperty(g, s, p) && IsProperty(g, s, q) ensures p == q { PropertyUnique(g, s, p, q); }
  }

  method ReadTypeAxiom(parser: Parser, s: Node, kind: Node) returns (r: Option<Axiom>)
    requires parser.Valid()
    modifies parser
    ensures parser.Valid()
    ensures r.Some? ==> TypeSays(parser.graph, s, kind, r.value)
    ensures r.None? ==> forall ax :: !TypeSays(parser.graph, s, kind, ax)
  {
    hide Meets;
    hide IsProperty;
    hide IsList;
    if kind == NAMED_INDIVIDUAL { return Some(NamedIndividual(s)); }
    if kind == ALL_DIFFERENT {
      r := ReadDifferent(parser, s);
    } else if kind == ALL_DISJOINT {
      r := ReadDisjoint(parser, s);
    } else if kind in CHARACTERISTICS {
      var p := ReadRole(parser, s);
      r := if p.Some? then Some(CharacteristicOf(kind, p.value)) else None;
    } else {
      MeetsNothing(parser.graph, kind, false);
      var c := ReadExpression(parser, kind, false);
      r := if c.Some? then Some(ClassAssertion(s, c.value)) else None;
    }
  }

  lemma SomeMember(a: set<Node>, b: set<Node>)
    requires |a| + |b| == 1
    ensures exists n :: n in a + b
  {
    if a != {} {
      var n :| n in a;
      assert n in a + b;
    } else {
      assert b != {};
      var n :| n in b;
      assert n in a + b;
    }
  }

  method ReadDifferent(parser: Parser, s: Node) returns (r: Option<Axiom>)
    ensures r.Some? ==> TypeSays(parser.graph, s, ALL_DIFFERENT, r.value)
    ensures r.None? ==> forall ax :: !TypeSays(parser.graph, s, ALL_DIFFERENT, ax)
  {
    hide IsList;
    var heads := Objects(parser.graph, s, DISTINCT_MEMBERS) + Objects(parser.graph, s, MEMBERS);
    if |Objects(parser.graph, s, DISTINCT_MEMBERS)| + |Objects(parser.graph, s, MEMBERS)| != 1 { return None; }
    SomeMember(Objects(parser.graph, s, DISTINCT_MEMBERS), Objects(parser.graph, s, MEMBERS));
    var head :| head in heads;
    forall k | MemberList(parser.graph, s, k) ensures k == head { MemberListUnique(parser.graph, s, k, head); }
    var members := parser.RdfList(head);
    if members.None? { return None; }
    r := Some(AllDifferent(members.value));
  }

  method ReadDisjoint(parser: Parser, s: Node) returns (r: Option<Axiom>)
    requires parser.Valid()
    modifies parser
    ensures parser.Valid()
    ensures r.Some? ==> TypeSays(parser.graph, s, ALL_DISJOINT, r.value)
    ensures r.None? ==> forall ax :: !TypeSays(parser.graph, s, ALL_DISJOINT, ax)
  {
    hide IsList;
    hide MeetAll;
    var head := parser.One(s, MEMBERS);
    if head.None? { return None; }
    var ns := parser.RdfList(head.value);
    if ns.None? {
      NoDisjointList(parser.graph, s, head.value);
      return None;
    }
    if |ns.value| < 2 {
      assert Disjoints(parser.graph, ns.value, []);
      return Some(AllDisjoint([]));
    }
    var es := ReadMembers(parser, ns.value);
    if es.None? {
      NoDisjointMembers(parser.graph, s, head.value, ns.value);
      return None;
    }
    r := Some(AllDisjoint(es.value));
  }

  lemma NoDisjointList(g: Graph, s: Node, head: Node)
    requires Sole(g, s, MEMBERS, head) && !HasList(g, head)
    ensures forall ax :: !TypeSays(g, s, ALL_DISJOINT, ax)
  {
    hide IsList;
    hide Disjoints;
    forall h | Sole(g, s, MEMBERS, h) ensures h == head { assert {h} == {head} && h in {head}; }
  }

  lemma NoDisjointMembers(g: Graph, s: Node, head: Node, ns: seq<Node>)
    requires Sole(g, s, MEMBERS, head) && IsList(g, head, ns) && |ns| >= 2
    requires forall es :: !MeetAll(g, ns, es)
    ensures forall ax :: !TypeSays(g, s, ALL_DISJOINT, ax)
  {
    hide IsList;
    hide MeetAll;
    forall h | Sole(g, s, MEMBERS, h) ensures h == head { assert {h} == {head} && h in {head}; }
    forall ms | IsList(g, head, ms) ensures ms == ns { ListUnique(g, head, ms, ns); }
  }

  method ReadLogical(parser: Parser, t: Triple) returns (r: Option<Axiom>)
    requires parser.Valid() && !Structural(t.predicate_)
    modifies parser
    ensures parser.Valid()
    ensures r.Some? ==> LogicalSays(parser.graph, t, r.value)
    ensures r.None? ==> forall ax :: !LogicalSays(parser.graph, t, ax)
  {
    hide Meets;
    hide IsProperty;
    hide TypeSays;
    var s, p, o := t.subject, t.predicate_, t.object_;
    if p == TYPE {
      r := ReadType<bool>(parser, s, o);
    } else if p in {SUB_CLASS_OF, EQUIVALENT_CLASS, DISJOINT_WITH} {
      MeetsNothing(parser.graph, s, false);
      MeetsNothing(parser.graph, o, false);
      hide Meaningless;
      var pair := ReadPair(parser, s, o);
      if pair.None? { return None; }
      var (c, d) := pair.value;
      r := Some(if p == SUB_CLASS_OF then SubClass(c, d) else if p == EQUIVALENT_CLASS then
        EquivalentClasses(c, d) else DisjointClasses(c, d));
    } else if p in {SUB_PROPERTY_OF, EQUIVALENT_PROPERTY, InverseOf} {
      var left := ReadRole(parser, s);
      if left.None? { return None; }
      var right := ReadRole(parser, o);
      if right.None? { return None; }
      r := Some(if p == SUB_PROPERTY_OF then SubProperty(left.value, right.value)
                else if p == EQUIVALENT_PROPERTY then EquivalentProperties(left.value, right.value)
                else InverseProperties(left.value, right.value));
    } else if p in {DOMAIN, RANGE} {
      MeetsNothing(parser.graph, o, false);
      var c := ReadExpression(parser, o, false);
      if c.None? { return None; }
      var role := ReadRole(parser, s);
      if role.None? { return None; }
      r := Some(if p == DOMAIN then Domain(role.value, c.value) else Range(role.value, c.value));
    } else if p == SAME_AS {
      r := Some(SameAs(s, o));
    } else if p == DIFFERENT_FROM {
      r := Some(DifferentFrom(s, o));
    } else if p.Other? && p.name !in BUILT_IN_PROPERTIES {
      r := Some(PropertyAssertion(p.name, s, o));
    } else {
      r := None;
    }
  }

  /** Reads a statement; it fails exactly when the statement says nothing. */
  method Read(parser: Parser, st: Statement) returns (r: Option<seq<Axiom>>)
    requires parser.Valid()
    modifies parser
    ensures parser.Valid()
    ensures r.Some? ==> Says(parser.graph, st, r.value)
    ensures r.None? ==> forall axioms :: !Says(parser.graph, st, axioms)
  {
    hide Meets;
    hide IsProperty;
    hide LogicalSays;
    match st {
      case Checked(n) =>
        var e := ReadExpression(parser, n, true);
        r := if e.Some? then Some([]) else None;
        MeetsNothing(parser.graph, n, true);
      case Definition(n) =>
        MeetsNothing(parser.graph, n, true);
        MeetsNothing(parser.graph, n, false);
        var e := ReadExpression(parser, n, true);
        if e.None? { return None; }
        var c := ReadExpression(parser, n, false);
        if c.None? { return None; }
        r := Some([EquivalentClasses(c.value, e.value)]);
      case Stated(t) =>
        if Structural(t.predicate_) { return Some([]); }
        if t.predicate_ == InverseOf && t.subject.Blank? {
          var p := ReadRole(parser, t.subject);
          return if p.Some? then Some([]) else None;
        }
        var ax := ReadLogical(parser, t);
        r := if ax.Some? then Some([ax.value]) else None;
    }
  }
}
