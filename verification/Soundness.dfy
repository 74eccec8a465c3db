/** Every structure in which the compiled program holds satisfies the axioms it was compiled from. */
module Soundness {
  import opened Options
  import opened Expressions
  import opened Semantics
  import opened Normalization
  import opened Axioms
  import opened Rules
  import opened Structures
  import opened Results
  import opened Translation
  import opened Scoping
  import opened Antecedents
  import opened Consequents

  /** Both definition tables are backed by rules that hold. */
  ghost predicate Backed<D(!new)>(S: Structure<D>, st: State) {
    AllDefined(S, st.bodyDefs) && AllDescribed(S, st.headDefs)
  }

  lemma SameTablesBacked<D(!new)>(S: Structure<D>, a: State, b: State)
    requires SameTables(a, b) && Backed(S, a)
    ensures Backed(S, b)
  {
  }

  lemma HeadKeepsBacked<D(!new)>(level: nat, S: Structure<D>, st: State, e: Expr, x: Term, body: seq<Atom>)
    requires Head(level, st, e, x, body).Ok?
    requires Holds(S, Head(level, st, e, x, body).value) && Backed(S, st)
    ensures Backed(S, Head(level, st, e, x, body).value)
  {
    hide Emit;
    HeadDescribes(level, S, st, e, x, body);
  }

  lemma InclusionMeansAt<D(!new)>(level: nat, S: Structure<D>, st: State, left: Expr, right: Expr, bodies: Bodies, d: D)
    requires Body(level, st.Bump(), left, st.Next(), true) == Ok(bodies)
    requires HeadOver(level, bodies.st, right, st.Next(), [], bodies.alternatives).Ok?
    requires Holds(S, HeadOver(level, bodies.st, right, st.Next(), [], bodies.alternatives).value)
    requires Backed(S, st) && Backed(S, bodies.st)
    requires Sat(S.base, left, d)
    ensures Sat(S.base, right, d)
  {
    hide Emit;
    var x := st.Next();
    HoldsEarlier(S, bodies.st, HeadOver(level, bodies.st, right, x, [], bodies.alternatives).value);
    BodyScoped(level, st.Bump(), left, x, true);
    var v := Constantly(d);
    var alt, w := BodyCovers(level, S, st.Bump(), left, x, true, v);
    EvalTo(S, v, w, x, st.counter + 1);
    HeadOverMeans(level, S, bodies.st, right, x, [], bodies.alternatives, alt, w);
  }

  lemma BodyDefinesFrom<D(!new)>(level: nat, S: Structure<D>, st: State, e: Expr, bodies: Bodies, after: State)
    requires Body(level, st.Bump(), e, st.Next(), true) == Ok(bodies)
    requires Grows(bodies.st.(counter := 0), after.(counter := 0)) && Holds(S, after) && Backed(S, st)
    ensures Holds(S, bodies.st) && Backed(S, bodies.st)
  {
    hide Body;
    HoldsEarlier(S, bodies.st.(counter := 0), after.(counter := 0));
    BodyDefines(level, S, st.Bump(), e, st.Next(), true);
  }

  lemma InclusionMeans<D(!new)>(level: nat, S: Structure<D>, st: State, left: Expr, right: Expr)
    requires Inclusion(level, st, left, right).Ok?
    requires Holds(S, Inclusion(level, st, left, right).value) && Backed(S, st)
    ensures Backed(S, Inclusion(level, st, left, right).value)
    ensures Included(S.base, left, right)
  {
    hide Emit;
    hide Body;
    hide Head;
    hide HeadOver;
    hide Sat;
    var x := st.Next();
    var bodies := Body(level, st.Bump(), left, x, true).value;
    BodyDefinesFrom(level, S, st, left, bodies, Inclusion(level, st, left, right).value);
    if bodies.alternatives == [] {
      forall d: D ensures !Sat(S.base, left, d) { EmptyAntecedent(level, S, st.Bump(), left, x, Constantly(d)); }
    } else {
      forall d: D | Sat(S.base, left, d) ensures Sat(S.base, right, d) {
        InclusionMeansAt(level, S, st, left, right, bodies, d);
      }
      HeadOverDescribes(level, S, bodies.st, right, x, [], bodies.alternatives);
    }
  }

  /** An antecedent without alternatives denotes the empty set. */
  lemma EmptyAntecedent<D(!new)>(level: nat, S: Structure<D>, st: State, e: Expr, x: Term, v: nat -> D)
    requires Body(level, st, e, x, true).Ok? && Body(level, st, e, x, true).value.alternatives == []
    requires Holds(S, Body(level, st, e, x, true).value.st)
    requires AllDefined(S, st.bodyDefs) && !x.Skolem? && TermBelow(x, st.counter)
    ensures !Sat(S.base, e, Eval(S, v, x))
  {
    hide Emit;
    if Sat(S.base, e, Eval(S, v, x)) {
      var alt, w := BodyCovers(level, S, st, e, x, true, v);
    }
  }

  lemma DisjointMeansAt<D(!new)>(level: nat, S: Structure<D>, st: State, left: Expr, right: Expr, first: Bodies,
      second: Bodies, d: D)
    requires Body(level, st.Bump(), left, st.Next(), true) == Ok(first)
    requires Body(level, first.st, right, st.Next(), true) == Ok(second)
    requires var closed := EmitAll(second.st, Clauses(None, [], Cross(first.alternatives, second.alternatives)));
      closed.Ok? && Holds(S, closed.value)
    requires Backed(S, st) && Backed(S, first.st)
    ensures !(Sat(S.base, left, d) && Sat(S.base, right, d))
  {
    hide Emit;
    hide Body;
    if Sat(S.base, left, d) && Sat(S.base, right, d) {
      var x := st.Next();
      var cross := Cross(first.alternatives, second.alternatives);
      HoldsEarlier(S, second.st, EmitAll(second.st, Clauses(None, [], cross)).value);
      HoldsEarlier(S, first.st, second.st);
      BodyScoped(level, st.Bump(), left, x, true);
      var v := Constantly(d);
      var l, u := BodyCovers(level, S, st.Bump(), left, x, true, v);
      EvalTo(S, v, u, x, st.counter + 1);
      var r, w := BodyCovers(level, S, first.st, right, x, true, u);
      BodyTrueTo(S, u, w, l, first.st.counter);
      CrossContains(first.alternatives, second.alternatives, l, r);
      var i :| 0 <= i < |cross| && cross[i] == l + r;
      EmitAllMeans(S, second.st, Clauses(None, [], cross), i, w);
    }
  }

  lemma DisjointMeans<D(!new)>(level: nat, S: Structure<D>, st: State, left: Expr, right: Expr)
    requires Disjoint(level, st, left, right).Ok?
    requires Holds(S, Disjoint(level, st, left, right).value) && Backed(S, st)
    ensures Backed(S, Disjoint(level, st, left, right).value)
    ensures Apart(S.base, left, right)
  {
    hide Emit;
    hide Body;
    var x := st.Next();
    var first := Body(level, st.Bump(), left, x, true).value;
    var second := Body(level, first.st, right, x, true).value;
    HoldsEarlier(S, second.st, Disjoint(level, st, left, right).value);
    HoldsEarlier(S, first.st, second.st);
    BodyDefines(level, S, st.Bump(), left, x, true);
    BodyDefines(level, S, first.st, right, x, true);
    forall d: D { DisjointMeansAt(level, S, st, left, right, first, second, d); }
  }

  /** Simplified expressions denote what the originals denote. */
  lemma NormalizeSame<D(!new)>(I: Interp<D>, c: Expr)
    ensures forall d: D :: Sat(I, Normalize(c), d) == Sat(I, c, d)
  {
    forall d: D ensures Sat(I, Normalize(c), d) == Sat(I, c, d) { NormalizeSound(I, c, d); }
  }

  lemma {:induction false} DisjointPairsMean<D(!new)>(level: nat, S: Structure<D>, st: State, pairs: seq<(Expr, Expr)>)
    requires DisjointPairs(level, st, pairs).Ok?
    requires Holds(S, DisjointPairs(level, st, pairs).value) && Backed(S, st)
    ensures Backed(S, DisjointPairs(level, st, pairs).value)
    ensures forall q | q in pairs :: Apart(S.base, q.0, q.1)
    decreases |pairs|
  {
    hide Emit;
    if pairs != [] {
      var c, d := pairs[0].0, pairs[0].1;
      var first := Disjoint(level, st, Normalize(c), Normalize(d)).value;
      HoldsEarlier(S, first, DisjointPairs(level, st, pairs).value);
      DisjointMeans(level, S, st, Normalize(c), Normalize(d));
      NormalizeSame(S.base, c);
      NormalizeSame(S.base, d);
      DisjointPairsMean(level, S, first, pairs[1..]);
      assert pairs == [pairs[0]] + pairs[1..];
    }
  }

  lemma ClassAxiomMeans<D(!new)>(level: nat, S: Structure<D>, st: State, ax: Axiom)
    requires ax.AboutClasses() && CompileClassAxiom(level, st, ax).Ok?
    requires Holds(S, CompileClassAxiom(level, st, ax).value) && Backed(S, st)
    ensures Backed(S, CompileClassAxiom(level, st, ax).value)
    ensures AxiomTrue(S.base, ax)
  {
    hide Emit;
    match ax
    case SubClass(c, d) =>
      InclusionMeans(level, S, st, Normalize(c), Normalize(d));
      NormalizeSame(S.base, c);
      NormalizeSame(S.base, d);
    case EquivalentClasses(c, d) =>
      var forward := Inclusion(level, st, Normalize(c), Normalize(d)).value;
      HoldsEarlier(S, forward, CompileClassAxiom(level, st, ax).value);
      InclusionMeans(level, S, st, Normalize(c), Normalize(d));
      InclusionMeans(level, S, forward, Normalize(d), Normalize(c));
      NormalizeSame(S.base, c);
      NormalizeSame(S.base, d);
    case DisjointClasses(c, d) =>
      DisjointMeans(level, S, st, Normalize(c), Normalize(d));
      NormalizeSame(S.base, c);
      NormalizeSame(S.base, d);
    case AllDisjoint(members) =>
      DisjointPairsMean(level, S, st, Combinations(members));
      forall i, j | 0 <= i < j < |members| ensures Apart(S.base, members[i], members[j]) {
        CombinationsAre(members, i, j);
      }
  }

  /** The assignment of three variables in a row. */
  ghost function Triple<D>(n: nat, a: D, b: D, c: D): nat -> D {
    (k: nat) => if k == n + 1 then a else if k == n + 2 then b else c
  }

  /** An implication between two property atoms is a property inclusion. */
  lemma ImplicationMeans<D(!new)>(S: Structure<D>, st: State, p: Property, q: Property, n: nat)
    requires Implication(st, p, q, Var(n + 1), Var(n + 2)).Ok?
    requires Holds(S, Implication(st, p, q, Var(n + 1), Var(n + 2)).value)
    ensures SubRole(S.base, p, q)
  {
    hide Emit;
    forall a: D, b: D | Related(S.base, p, a, b) ensures Related(S.base, q, a, b) {
      var v := Triple(n, a, b, b);
      RoleForTrue(S, v, p, Var(n + 1), Var(n + 2));
      RoleForTrue(S, v, q, Var(n + 1), Var(n + 2));
      EmitMeans(S, st, Some(RoleFor(q, Var(n + 1), Var(n + 2))), [RoleFor(p, Var(n + 1), Var(n + 2))], v);
    }
  }

  /** Domains and ranges: `x` is one end of an edge. */
  lemma EndMeans<D(!new)>(level: nat, S: Structure<D>, st: State, p: Property, c: Expr, x: Term, n: nat, a: D, b: D)
    requires n + 2 <= st.counter && (x == Var(n + 1) || x == Var(n + 2))
    requires Head(level, st, Normalize(c), x, [RoleFor(p, Var(n + 1), Var(n + 2))]).Ok?
    requires Holds(S, Head(level, st, Normalize(c), x, [RoleFor(p, Var(n + 1), Var(n + 2))]).value) && Backed(S, st)
    requires Related(S.base, p, a, b)
    ensures Sat(S.base, c, if x == Var(n + 1) then a else b)
  {
    hide Emit;
    hide Head;
    hide Normalize;
    var v := Triple(n, a, b, b);
    var edge := RoleFor(p, Var(n + 1), Var(n + 2));
    RoleForTrue(S, v, p, Var(n + 1), Var(n + 2));
    HeadMeans(level, S, st, Normalize(c), x, [edge], v);
    NormalizeSound(S.base, c, Eval(S, v, x));
  }

  /** Two implications, one after the other, are an equivalence of properties. */
  lemma BothWaysMean<D(!new)>(S: Structure<D>, st: State, p: Property, q: Property, n: nat)
    requires Implication(st, p, q, Var(n + 1), Var(n + 2)).Ok?
    requires var forward := Implication(st, p, q, Var(n + 1), Var(n + 2)).value;
      var both := Implication(forward, q, p, Var(n + 1), Var(n + 2));
      both.Ok? && Holds(S, both.value)
    ensures SubRole(S.base, p, q) && SubRole(S.base, q, p)
  {
    hide Emit;
    var forward := Implication(st, p, q, Var(n + 1), Var(n + 2)).value;
    HoldsEarlier(S, forward, Implication(forward, q, p, Var(n + 1), Var(n + 2)).value);
    ImplicationMeans(S, st, p, q, n);
    ImplicationMeans(S, forward, q, p, n);
  }

  lemma RoleInclusionsMean<D(!new)>(level: nat, S: Structure<D>, st: State, ax: Axiom)
    requires ax.AboutRoles() && !ax.Domain? && !ax.Range? && CompileRoleAxiom(level, st, ax).Ok?
    requires Holds(S, CompileRoleAxiom(level, st, ax).value)
    ensures SameTables(st, CompileRoleAxiom(level, st, ax).value)
    ensures AxiomTrue(S.base, ax)
  {
    hide Emit;
    var n := st.counter;
    var two := st.Bump().Bump();
    if ax.SubProperty? {
      ImplicationMeans(S, two, ax.p, ax.q, n);
    } else if ax.EquivalentProperties? {
      BothWaysMean(S, two, ax.p, ax.q, n);
    } else {
      BothWaysMean(S, two, ax.p, ax.q.Flip(), n);
    }
  }

  lemma RoleAxiomMeans<D(!new)>(level: nat, S: Structure<D>, st: State, ax: Axiom)
    requires ax.AboutRoles() && CompileRoleAxiom(level, st, ax).Ok?
    requires Holds(S, CompileRoleAxiom(level, st, ax).value) && Backed(S, st)
    ensures Backed(S, CompileRoleAxiom(level, st, ax).value)
    ensures AxiomTrue(S.base, ax)
  {
    hide Emit;
    var n := st.counter;
    var two := st.Bump().Bump();
    if ax.Domain? {
      DomainMeans(level, S, two, ax.p, ax.class_, Var(n + 1), n);
    } else if ax.Range? {
      DomainMeans(level, S, two, ax.p, ax.class_, Var(n + 2), n);
    } else {
      RoleInclusionsMean(level, S, st, ax);
      SameTablesBacked(S, st, CompileRoleAxiom(level, st, ax).value);
    }
  }

  /** The class of one end of every edge; a range is the domain of the inverse. */
  lemma DomainMeans<D(!new)>(level: nat, S: Structure<D>, st: State, p: Property, c: Expr, x: Term, n: nat)
    requires n + 2 <= st.counter && (x == Var(n + 1) || x == Var(n + 2))
    requires Head(level, st, Normalize(c), x, [RoleFor(p, Var(n + 1), Var(n + 2))]).Ok?
    requires Holds(S, Head(level, st, Normalize(c), x, [RoleFor(p, Var(n + 1), Var(n + 2))]).value) && Backed(S, st)
    ensures Backed(S, Head(level, st, Normalize(c), x, [RoleFor(p, Var(n + 1), Var(n + 2))]).value)
    ensures HasDomain(S.base, if x == Var(n + 1) then p else p.Flip(), c)
  {
    hide Emit;
    HeadKeepsBacked(level, S, st, Normalize(c), x, [RoleFor(p, Var(n + 1), Var(n + 2))]);
    var q := if x == Var(n + 1) then p else p.Flip();
    forall a: D, b: D | Related(S.base, q, a, b) ensures Sat(S.base, c, a) {
      if x == Var(n + 1) {
        EndMeans(level, S, st, p, c, x, n, a, b);
      } else {
        EndMeans(level, S, st, p, c, x, n, b, a);
      }
    }
  }

  /** A rule whose body is two property atoms, read at three individuals. */
  lemma EdgesMean<D(!new)>(S: Structure<D>, st: State, head: Option<Atom>, p: Property, s: Term, t: Term, s2: Term,
      t2: Term, v: nat -> D)
    requires Emit(st, head, [RoleFor(p, s, t), RoleFor(p, s2, t2)]).Ok?
    requires Holds(S, Emit(st, head, [RoleFor(p, s, t), RoleFor(p, s2, t2)]).value)
    requires Related(S.base, p, Eval(S, v, s), Eval(S, v, t))
    requires Related(S.base, p, Eval(S, v, s2), Eval(S, v, t2))
    ensures HeadTrue(S, v, head)
  {
    hide Emit;
    RoleForTrue(S, v, p, s, t);
    RoleForTrue(S, v, p, s2, t2);
    EmitMeans(S, st, head, [RoleFor(p, s, t), RoleFor(p, s2, t2)], v);
  }

  lemma TransitiveMeans<D(!new)>(S: Structure<D>, st: State, p: Property, x: Term, y: Term, z: Term, n: nat)
    requires x == Var(n + 1) && y == Var(n + 2) && z == Var(n + 3)
    requires Emit(st, Some(RoleFor(p, x, z)), [RoleFor(p, x, y), RoleFor(p, y, z)]).Ok?
    requires Holds(S, Emit(st, Some(RoleFor(p, x, z)), [RoleFor(p, x, y), RoleFor(p, y, z)]).value)
    ensures IsTransitive(S.base, p)
  {
    hide Emit;
    forall a: D, b: D, c: D | Related(S.base, p, a, b) && Related(S.base, p, b, c) ensures Related(S.base, p, a, c) {
      var v := Triple(n, a, b, c);
      EdgesMean(S, st, Some(RoleFor(p, x, z)), p, x, y, y, z, v);
      RoleForTrue(S, v, p, x, z);
    }
  }

  lemma FunctionalMeans<D(!new)>(S: Structure<D>, st: State, p: Property, x: Term, y: Term, z: Term, n: nat)
    requires x == Var(n + 1) && y == Var(n + 2) && z == Var(n + 3)
    requires Emit(st, Some(EqAtom(y, z)), [RoleFor(p, x, y), RoleFor(p, x, z)]).Ok?
    requires Holds(S, Emit(st, Some(EqAtom(y, z)), [RoleFor(p, x, y), RoleFor(p, x, z)]).value)
    ensures IsFunctional(S.base, p)
  {
    hide Emit;
    forall a: D, b: D, c: D | Related(S.base, p, a, b) && Related(S.base, p, a, c) ensures b == c {
      EdgesMean(S, st, Some(EqAtom(y, z)), p, x, y, x, z, Triple(n, a, b, c));
    }
  }

  lemma CharacteristicMeans<D(!new)>(level: nat, S: Structure<D>, st: State, ax: Axiom)
    requires ax.Characteristic() && CompileCharacteristic(level, st, ax).Ok?
    requires Holds(S, CompileCharacteristic(level, st, ax).value)
    ensures AxiomTrue(S.base, ax)
  {
    hide Emit;
    var n, p := st.counter, ax.p;
    var x, y, z := Var(n + 1), Var(n + 2), Var(n + 3);
    var three := st.Bump().Bump().Bump();
    match ax
    case Transitive(_) => TransitiveMeans(S, three, p, x, y, z, n);
    case Symmetric(_) =>
      assert RoleFor(p, y, x) == RoleFor(p.Flip(), x, y);
      ImplicationMeans(S, three, p, p.Flip(), n);
    case Functional(_) => FunctionalMeans(S, three, p, x, y, z, n);
    case InverseFunctional(_) =>
      assert RoleFor(p, y, x) == RoleFor(p.Flip(), x, y) && RoleFor(p, z, x) == RoleFor(p.Flip(), x, z);
      FunctionalMeans(S, three, p.Flip(), x, y, z, n);
  }

  lemma AssertionMeans<D(!new)>(level: nat, S: Structure<D>, st: State, ax: Axiom)
    requires ax.Assertion() && CompileAssertion(level, st, ax).Ok?
    requires Holds(S, CompileAssertion(level, st, ax).value) && Backed(S, st)
    ensures Backed(S, CompileAssertion(level, st, ax).value)
    ensures AxiomTrue(S.base, ax)
  {
    hide Emit;
    match ax
    case ClassAssertion(a, c) =>
      var v := Constantly(S.base.individuals(a));
      HeadMeans(level, S, st, Normalize(c), Const(a), [], v);
      HeadKeepsBacked(level, S, st, Normalize(c), Const(a), []);
      NormalizeSound(S.base, c, S.base.individuals(a));
    case PropertyAssertion(name, a, b) => FactMeans(S, st, RoleAtom(name, Const(a), Const(b)));
    case SameAs(a, b) => FactMeans(S, st, EqAtom(Const(a), Const(b)));
    case DifferentFrom(a, b) => FactMeans(S, st, NeqAtom(Const(a), Const(b)));
    case AllDifferent(nodes) =>
      forall i, j | 0 <= i < j < |nodes| ensures S.base.individuals(nodes[i]) != S.base.individuals(nodes[j]) {
        DifferentMeans(S, st, Constants(nodes), [], i, j, Constantly(S.base.individuals(nodes[0])));
      }
    case NamedIndividual(_) =>
  }

  lemma FactMeans<D(!new)>(S: Structure<D>, st: State, a: Atom)
    requires Fact(st, a).Ok? && Holds(S, Fact(st, a).value)
    ensures AtomTrue(S, Constantly(S.base.individuals(Iri(""))), a)
  {
    hide Emit;
    EmitMeans(S, st, Some(a), [], Constantly(S.base.individuals(Iri(""))));
  }

  /** One axiom: if the program so far holds, so does the axiom, and the definition tables stay backed. */
  lemma CompileAxiomMeans<D(!new)>(level: nat, S: Structure<D>, st: State, ax: Axiom)
    requires CompileAxiom(level, st, ax).Ok?
    requires Holds(S, CompileAxiom(level, st, ax).value) && Backed(S, st)
    ensures Backed(S, CompileAxiom(level, st, ax).value)
    ensures AxiomTrue(S.base, ax)
  {
    hide Emit;
    if ax.AboutClasses() {
      ClassAxiomMeans(level, S, st, ax);
    } else if ax.AboutRoles() {
      RoleAxiomMeans(level, S, st, ax);
    } else if ax.Characteristic() {
      CharacteristicMeans(level, S, st, ax);
    } else {
      AssertionMeans(level, S, st, ax);
    }
  }

  lemma {:induction false} CompileAxiomsMean<D(!new)>(level: nat, S: Structure<D>, st: State, axioms: seq<Axiom>)
    requires CompileAxioms(level, st, axioms).Ok?
    requires Holds(S, CompileAxioms(level, st, axioms).value) && Backed(S, st)
    ensures AxiomsTrue(S.base, axioms)
    decreases |axioms|
  {
    hide Emit;
    if axioms != [] {
      var first := CompileAxiom(level, st, axioms[0]).value;
      HoldsEarlier(S, first, CompileAxioms(level, first, axioms[1..]).value);
      CompileAxiomMeans(level, S, st, axioms[0]);
      CompileAxiomsMean(level, S, first, axioms[1..]);
      assert axioms == [axioms[0]] + axioms[1..];
    }
  }

  /** Models of the compiled program are models of the axioms. */
  lemma CompileSound<D(!new)>(level: nat, axioms: seq<Axiom>, S: Structure<D>)
    requires Compile(level, axioms).Ok?
    requires Satisfies(S, Compile(level, axioms).value.rules, Compile(level, axioms).value.facts)
    ensures AxiomsTrue(S.base, axioms)
  {
    hide Emit;
    DistinctSpec(CompileAxioms(level, INITIAL, axioms).value.rules);
    CompileAxiomsMean(level, S, INITIAL, axioms);
  }
}
