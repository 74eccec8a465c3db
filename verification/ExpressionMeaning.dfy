/** What an expression node means, said of its triples, and when it can be read. */
module ExpressionMeaning {
  import opened Expressions
  import opened Semantics
  import opened Normalization
  import opened Parsing

  // ----- Nodes with one constructor -----

  /** Past the special nodes, exactly one triple of the node constructs an expression, and a Boolean constructor does
      not go with a restricted property. */
  ghost predicate Constructed(g: Graph, node: Node, expand: bool, p: Predicate, o: Node) {
    && (node.Blank? || (node.Iri? && expand)) && node !in {THING, NOTHING} + g.datatypes
    && p in {IntersectionOf, UnionOf, ComplementOf, Enumerates, SomeValuesFrom, AllValuesFrom, HasValue,
             MinCardinality, MaxCardinality, ExactCardinality}
    && Triple(node, p, o) in g.triples
    && (forall t | t in g.triples && t.subject == node && t.predicate_ in {IntersectionOf, UnionOf, ComplementOf,
          Enumerates, SomeValuesFrom, AllValuesFrom, HasValue, MinCardinality, MaxCardinality, ExactCardinality} ::
          t == Triple(node, p, o))
    && (p in {IntersectionOf, UnionOf, ComplementOf, Enumerates} ==>
          forall t | t in g.triples && t.subject == node :: t.predicate_ != OnProperty)
  }

  lemma ObjectsAre(g: Graph, s: Node, p: Predicate, o: Node)
    ensures o in Objects(g, s, p) <==> Triple(s, p, o) in g.triples
  {
    if Triple(s, p, o) in g.triples {
      var t := Triple(s, p, o);
      assert t.subject == s && t.predicate_ == p;
    }
  }

  lemma ConstructorNames(p: Predicate)
    ensures p in CONSTRUCTORS <==>
      p in {IntersectionOf, UnionOf, ComplementOf, Enumerates, SomeValuesFrom, AllValuesFrom, HasValue,
            MinCardinality, MaxCardinality, ExactCardinality}
    ensures p in BOOLEANS <==> p in {IntersectionOf, UnionOf, ComplementOf, Enumerates}
  {
  }

  /** A constructor triple of the node is the one. */
  lemma OneTriple(g: Graph, node: Node, expand: bool, p: Predicate, o: Node, q: Predicate, v: Node)
    requires Constructed(g, node, expand, p, o) && q in CONSTRUCTORS && v in Objects(g, node, q)
    ensures q == p && v == o
  {
    ConstructorNames(q);
    ObjectsAre(g, node, q, v);
    hide Objects;
    assert Triple(node, q, v) == Triple(node, p, o);
  }

  lemma NoRestriction(g: Graph, node: Node, expand: bool, p: Predicate, o: Node)
    requires Constructed(g, node, expand, p, o) && p in BOOLEANS
    ensures Objects(g, node, OnProperty) == {}
  {
    ConstructorNames(p);
    forall v ensures v !in Objects(g, node, OnProperty) {
      ObjectsAre(g, node, OnProperty, v);
      hide Objects;
      assert Triple(node, OnProperty, v).predicate_ == OnProperty && Triple(node, OnProperty, v).subject == node;
    }
  }

  lemma ConstructorHolds(g: Graph, node: Node, expand: bool, p: Predicate, o: Node)
    requires Constructed(g, node, expand, p, o)
    ensures p in CONSTRUCTORS && o in Objects(g, node, p)
    ensures node != THING && node != NOTHING && node !in g.datatypes && Resource(node) && (expand || !node.Iri?)
  {
    ConstructorNames(p);
    ObjectsAre(g, node, p, o);
    hide Objects;
  }

  lemma ConstructedOpens(g: Graph, node: Node, expand: bool, p: Predicate, o: Node)
    requires Constructed(g, node, expand, p, o)
    ensures Opens(g, node, expand, p, o)
  {
    hide Constructed;
    hide Objects;
    ConstructorHolds(g, node, expand, p, o);
    forall q, v | q in CONSTRUCTORS && v in Objects(g, node, q) ensures q == p && v == o {
      OneTriple(g, node, expand, p, o, q, v);
    }
    assert Objects(g, node, p) == {o};
    assert Present(g, node) == {p};
    if p in BOOLEANS { NoRestriction(g, node, expand, p, o); }
  }

  lemma OpensConstructed(g: Graph, node: Node, expand: bool, p: Predicate, o: Node)
    requires Opens(g, node, expand, p, o)
    ensures Constructed(g, node, expand, p, o)
  {
    forall q, v ensures v in Objects(g, node, q) <==> Triple(node, q, v) in g.triples { ObjectsAre(g, node, q, v); }
    hide Objects;
    assert p in {p} && o in {o};
    forall t | t in g.triples && t.subject == node && t.predicate_ in CONSTRUCTORS ensures t == Triple(node, p, o) {
      assert t == Triple(node, t.predicate_, t.object_);
      assert t.object_ in Objects(g, node, t.predicate_);
      assert t.predicate_ in Present(g, node);
      assert t.predicate_ in {p} && t.object_ in {o};
    }
    forall t | t in g.triples && t.subject == node && p in BOOLEANS ensures t.predicate_ != OnProperty {
      assert t == Triple(node, t.predicate_, t.object_);
    }
  }

  // ----- When a node can be read -----

  ghost predicate HasReading(g: Graph, node: Node) { exists e :: Meets(g, node, false, e) }

  /** Everything that the constructor refers to can be read. */
  ghost predicate PartsReadable(g: Graph, node: Node, p: Predicate, o: Node) {
    match p
    case ComplementOf => HasReading(g, o)
    case IntersectionOf => exists ms :: IsList(g, o, ms) && forall m | m in ms :: HasReading(g, m)
    case UnionOf => exists ms :: IsList(g, o, ms) && forall m | m in ms :: HasReading(g, m)
    case Enumerates => exists ms :: IsList(g, o, ms) && forall m: Node | m in ms :: m.Iri? || m.Blank?
    case SomeValuesFrom => (exists q :: Restricts(g, node, q)) && HasReading(g, o)
    case AllValuesFrom => (exists q :: Restricts(g, node, q)) && HasReading(g, o)
    case HasValue => exists q :: Restricts(g, node, q)
    case _ => (exists q :: Restricts(g, node, q)) && o.IntegerLiteral? && o.value >= 0
  }

  lemma DenotedMeets(g: Graph, node: Node, expand: bool, t: Expr)
    requires Denotes(g, node, expand, t)
    ensures Meets(g, node, expand, Normalize(t))
  {
  }

  lemma MetDenotes(g: Graph, node: Node, expand: bool, e: Expr) returns (t: Expr)
    requires Meets(g, node, expand, e)
    ensures Denotes(g, node, expand, t) && e == Normalize(t)
  {
    t :| Denotes(g, node, expand, t) && e == Normalize(t);
  }

  lemma ReadingDenotes(g: Graph, node: Node, expand: bool)
    ensures (exists e :: Meets(g, node, expand, e)) <==> exists t :: Denotes(g, node, expand, t)
  {
    hide Meets;
    if e :| Meets(g, node, expand, e) {
      var t := MetDenotes(g, node, expand, e);
    }
    if t :| Denotes(g, node, expand, t) {
      DenotedMeets(g, node, expand, t);
      assert Denotes(g, node, expand, t);
    }
  }

  lemma {:induction false} AllDenote(g: Graph, ms: seq<Node>) returns (ts: seq<Expr>)
    requires forall m | m in ms :: HasReading(g, m)
    ensures DenoteAll(g, ms, ts)
  {
    hide Denotes;
    ts := [];
    if ms != [] {
      assert ms[0] in ms;
      ReadingDenotes(g, ms[0], false);
      var t :| Denotes(g, ms[0], false, t);
      var rest := AllDenote(g, ms[1..]);
      ts := [t] + rest;
    }
  }

  lemma {:induction false} DenotedReadings(g: Graph, ms: seq<Node>, ts: seq<Expr>)
    requires DenoteAll(g, ms, ts)
    ensures forall m | m in ms :: HasReading(g, m)
    decreases |ms|
  {
    hide Denotes;
    if ms != [] {
      assert ms == [ms[0]] + ms[1..];
      assert Denotes(g, ms[0], false, ts[0]);
      ReadingDenotes(g, ms[0], false);
      assert HasReading(g, ms[0]);
      DenotedReadings(g, ms[1..], ts[1..]);
    }
  }

  lemma BuiltParts(g: Graph, node: Node, p: Predicate, o: Node, t: Expr)
    requires Built(g, node, p, o, t)
    ensures PartsReadable(g, node, p, o)
  {
    hide Denotes;
    hide DenoteAll;
    hide IsList;
    hide Restricts;
    match p
    case ComplementOf =>
      assert Denotes(g, o, false, t.operand);
      ReadingDenotes(g, o, false);
    case IntersectionOf =>
      var ms :| IsList(g, o, ms) && DenoteAll(g, ms, t.args);
      DenotedReadings(g, ms, t.args);
    case UnionOf =>
      var ms :| IsList(g, o, ms) && DenoteAll(g, ms, t.args);
      DenotedReadings(g, ms, t.args);
    case Enumerates =>
    case SomeValuesFrom =>
      assert Denotes(g, o, false, t.filler);
      ReadingDenotes(g, o, false);
    case AllValuesFrom =>
      assert Denotes(g, o, false, t.filler);
      ReadingDenotes(g, o, false);
    case _ =>
  }

  lemma PartsBuild(g: Graph, node: Node, p: Predicate, o: Node) returns (t: Expr)
    requires PartsReadable(g, node, p, o) && p in CONSTRUCTORS
    ensures Built(g, node, p, o, t)
  {
    hide Denotes;
    hide DenoteAll;
    hide IsList;
    hide Restricts;
    if p == IntersectionOf || p == UnionOf {
      var ms :| IsList(g, o, ms) && forall m | m in ms :: HasReading(g, m);
      var ts := AllDenote(g, ms);
      t := Junction(if p == IntersectionOf then And else Or, ts);
    } else if p == Enumerates {
      var ms :| IsList(g, o, ms) && forall m: Node | m in ms :: m.Iri? || m.Blank?;
      t := OneOf(ms);
    } else if p == ComplementOf {
      ReadingDenotes(g, o, false);
      var c :| Denotes(g, o, false, c);
      t := Not(c);
    } else {
      var q :| Restricts(g, node, q);
      if p == SomeValuesFrom || p == AllValuesFrom {
        ReadingDenotes(g, o, false);
        var c :| Denotes(g, o, false, c);
        t := if p == SomeValuesFrom then Exists(q, c) else Forall(q, c);
      } else if p == HasValue {
        t := Value(q, o);
      } else {
        t := if p == MinCardinality then Min(q, o.value) else if p == MaxCardinality then Max(q, o.value)
             else Exact(q, o.value);
      }
    }
  }

  /** An anonymous node, or a named one that is to be expanded, can be read exactly when one triple constructs it from
      parts that can be read. */
  lemma ReadExactly(g: Graph, node: Node, expand: bool)
    requires node.Blank? || (node.Iri? && expand)
    requires node !in {THING, NOTHING}
    ensures (exists e :: Meets(g, node, expand, e)) <==>
      exists p, o :: Constructed(g, node, expand, p, o) && PartsReadable(g, node, p, o)
  {
    ReadingDenotes(g, node, expand);
    if exists t :: Denotes(g, node, expand, t) {
      var t :| Denotes(g, node, expand, t);
      var p, o := DenotedOpens(g, node, expand, t);
      hide *;
      OpensConstructed(g, node, expand, p, o);
      BuiltParts(g, node, p, o, t);
    }
    if exists p, o :: Constructed(g, node, expand, p, o) && PartsReadable(g, node, p, o) {
      hide *;
      var p, o :| Constructed(g, node, expand, p, o) && PartsReadable(g, node, p, o);
      ConstructedOpens(g, node, expand, p, o);
      ConstructorKnown(g, node, expand, p, o);
      var t := PartsBuild(g, node, p, o);
      OpenedDenotes(g, node, expand, p, o, t);
    }
  }

  lemma ConstructorKnown(g: Graph, node: Node, expand: bool, p: Predicate, o: Node)
    requires Constructed(g, node, expand, p, o)
    ensures p in CONSTRUCTORS
  {
  }

  lemma DenotedOpens(g: Graph, node: Node, expand: bool, t: Expr) returns (p: Predicate, o: Node)
    requires node.Blank? || (node.Iri? && expand)
    requires node !in {THING, NOTHING} && Denotes(g, node, expand, t)
    ensures Opens(g, node, expand, p, o) && Built(g, node, p, o, t)
  {
    hide Built;
    p, o :| Shape(g, node, p) && Sole(g, node, p, o) && Built(g, node, p, o, t);
  }

  // ----- What a node means -----

  /** The individual belongs to what the node is read as. */
  ghost predicate Member<D(!new)>(I: Interp<D>, g: Graph, node: Node, d: D) {
    exists e :: Meets(g, node, false, e) && Sat(I, e, d)
  }

  ghost predicate MemberOfAll<D(!new)>(I: Interp<D>, g: Graph, head: Node, d: D) {
    exists ms :: IsList(g, head, ms) && forall m | m in ms :: Member(I, g, m, d)
  }

  ghost predicate MemberOfSome<D(!new)>(I: Interp<D>, g: Graph, head: Node, d: D) {
    exists ms :: IsList(g, head, ms) && exists m | m in ms :: Member(I, g, m, d)
  }

  /** What the one constructor triple says of an individual. */
  ghost predicate NodeMember<D(!new)>(I: Interp<D>, g: Graph, node: Node, p: Predicate, o: Node, d: D) {
    match p
    case ComplementOf => !Member(I, g, o, d)
    case IntersectionOf => MemberOfAll(I, g, o, d)
    case UnionOf => MemberOfSome(I, g, o, d)
    case Enumerates => exists ms, m :: IsList(g, o, ms) && m in ms && I.individuals(m) == d
    case SomeValuesFrom => exists q, b :: Restricts(g, node, q) && Related(I, q, d, b) && Member(I, g, o, b)
    case AllValuesFrom => forall q, b | Restricts(g, node, q) && Related(I, q, d, b) :: Member(I, g, o, b)
    case HasValue => exists q :: Restricts(g, node, q) && Related(I, q, d, I.individuals(o))
    case MinCardinality =>
      o.IntegerLiteral? && o.value >= 0 && exists q :: Restricts(g, node, q) && AtLeast(I, q, d, o.value)
    case MaxCardinality =>
      o.IntegerLiteral? && o.value >= 0 && exists q :: Restricts(g, node, q) && !AtLeast(I, q, d, o.value + 1)
    case ExactCardinality =>
      && o.IntegerLiteral? && o.value >= 0
      && exists q :: Restricts(g, node, q) && AtLeast(I, q, d, o.value) && !AtLeast(I, q, d, o.value + 1)
    case _ => false
  }

  lemma MemberIs<D(!new)>(I: Interp<D>, g: Graph, node: Node, t: Expr, d: D)
    requires Denotes(g, node, false, t)
    ensures Member(I, g, node, d) <==> Sat(I, t, d)
  {
    hide Denotes;
    hide Normalize;
    hide Sat;
    NormalizeSound(I, t, d);
    assert Meets(g, node, false, Normalize(t));
    forall e | Meets(g, node, false, e) ensures e == Normalize(t) { MeetsUnique(g, node, false, e, Normalize(t)); }
  }

  lemma {:induction false} MembersAre<D(!new)>(I: Interp<D>, g: Graph, ms: seq<Node>, ts: seq<Expr>, d: D)
    requires DenoteAll(g, ms, ts)
    ensures (forall m | m in ms :: Member(I, g, m, d)) <==> forall t | t in ts :: Sat(I, t, d)
    ensures (exists m | m in ms :: Member(I, g, m, d)) <==> exists t | t in ts :: Sat(I, t, d)
    decreases |ms|
  {
    hide Denotes;
    hide Member;
    hide Sat;
    if ms != [] {
      assert ms == [ms[0]] + ms[1..] && ts == [ts[0]] + ts[1..];
      MemberIs(I, g, ms[0], ts[0], d);
      MembersAre(I, g, ms[1..], ts[1..], d);
    }
  }

  lemma BuiltMeans<D(!new)>(I: Interp<D>, g: Graph, node: Node, p: Predicate, o: Node, t: Expr, d: D)
    requires Built(g, node, p, o, t)
    ensures Sat(I, t, d) <==> NodeMember(I, g, node, p, o, d)
  {
    hide Denotes;
    hide Restricts;
    hide Member;
    hide AtLeast;
    if p == ComplementOf {
      MemberIs(I, g, o, t.operand, d);
    } else if p == Enumerates {
      forall ms | IsList(g, o, ms) ensures ms == t.items { ListUnique(g, o, ms, t.items); }
    } else if p == IntersectionOf {
      assert t.Junction? && t.junctor == And;
      hide Sat;
      hide MemberOfAll;
      JunctionMeans(I, g, o, t, d);
    } else if p == UnionOf {
      assert t.Junction? && t.junctor == Or;
      hide Sat;
      hide MemberOfSome;
      JunctionMeans(I, g, o, t, d);
    } else {
      RestrictionMeans(I, g, node, p, o, t, d);
      hide Sat;
      hide NodeMember;
    }
  }

  lemma JunctionMeans<D(!new)>(I: Interp<D>, g: Graph, o: Node, t: Expr, d: D)
    requires t.Junction? && exists ms :: IsList(g, o, ms) && DenoteAll(g, ms, t.args)
    ensures t.junctor == And ==> (Sat(I, t, d) <==> MemberOfAll(I, g, o, d))
    ensures t.junctor == Or ==> (Sat(I, t, d) <==> MemberOfSome(I, g, o, d))
  {
    hide DenoteAll;
    hide IsList;
    hide Member;
    var ms :| IsList(g, o, ms) && DenoteAll(g, ms, t.args);
    MembersAre(I, g, ms, t.args, d);
    forall ns | IsList(g, o, ns) ensures ns == ms { ListUnique(g, o, ns, ms); }
  }

  lemma RestrictionMeans<D(!new)>(I: Interp<D>, g: Graph, node: Node, p: Predicate, o: Node, t: Expr, d: D)
    requires Built(g, node, p, o, t)
    requires p in {SomeValuesFrom, AllValuesFrom, HasValue, MinCardinality, MaxCardinality, ExactCardinality}
    ensures Sat(I, t, d) <==> NodeMember(I, g, node, p, o, d)
  {
    hide Denotes;
    hide DenoteAll;
    hide IsList;
    hide Restricts;
    hide Member;
    hide AtLeast;
    assert Restricts(g, node, t.prop);
    forall q | Restricts(g, node, q) ensures q == t.prop { RestrictsUnique(g, node, q, t.prop); }
    if p == SomeValuesFrom || p == AllValuesFrom {
      forall b: D ensures Member(I, g, o, b) <==> Sat(I, t.filler, b) { MemberIs(I, g, o, t.filler, b); }
    }
  }

  /** What a node is read as holds of exactly the individuals that its constructor triple says. */
  lemma MeansExactly<D(!new)>(I: Interp<D>, g: Graph, node: Node, expand: bool, p: Predicate, o: Node, e: Expr, d: D)
    requires Constructed(g, node, expand, p, o) && Meets(g, node, expand, e)
    ensures Sat(I, e, d) <==> NodeMember(I, g, node, p, o, d)
  {
    hide Denotes;
    hide Normalize;
    hide NodeMember;
    hide Built;
    hide Sat;
    ConstructedOpens(g, node, expand, p, o);
    hide Opens;
    hide Constructed;
    var t :| Denotes(g, node, expand, t) && e == Normalize(t);
    OpenedDenotes(g, node, expand, p, o, t);
    NormalizeSound(I, t, d);
    BuiltMeans(I, g, node, p, o, t, d);
  }

  /** The nodes that stand for themselves. */
  lemma NamedMeans<D(!new)>(I: Interp<D>, g: Graph, node: Node, e: Expr, d: D)
    requires node.Iri? && Meets(g, node, false, e)
    ensures node !in g.datatypes || node in {THING, NOTHING}
    ensures node == THING ==> Sat(I, e, d)
    ensures node == NOTHING ==> !Sat(I, e, d)
    ensures node !in {THING, NOTHING} ==> (Sat(I, e, d) <==> I.classes(node.text, d))
  {
    assert THING.text[30] == 'T' && NOTHING.text[30] == 'N';
    var t :| Denotes(g, node, false, t) && e == Normalize(t);
  }

  /** A property node is a name other than the four built in, or the inverse of a property node. */
  lemma PropertyExactly(g: Graph, node: Node, p: Property)
    ensures IsProperty(g, node, p) <==>
      || (node == Iri(p.name) && !p.inverse
          && p.name !in {"http://www.w3.org/2002/07/owl#topObjectProperty",
                         "http://www.w3.org/2002/07/owl#bottomObjectProperty",
                         "http://www.w3.org/2002/07/owl#topDataProperty",
                         "http://www.w3.org/2002/07/owl#bottomDataProperty"})
      || (node.Blank? && exists t :: Sole(g, node, InverseOf, t) && IsProperty(g, t, p.Flip()))
  {
    if IsProperty(g, node, p) {
      var n: nat :| InverseChain(g, node, n, p.name) && p.inverse == (n % 2 == 1);
      if n > 0 {
        var t :| Sole(g, node, InverseOf, t) && InverseChain(g, t, n - 1, p.name);
        assert IsProperty(g, t, p.Flip());
      }
    }
    if node == Iri(p.name) && !p.inverse && p.name !in BUILT_IN_PROPERTIES {
      assert InverseChain(g, node, 0, p.name);
    }
    if node.Blank? && exists t :: Sole(g, node, InverseOf, t) && IsProperty(g, t, p.Flip()) {
      var t :| Sole(g, node, InverseOf, t) && IsProperty(g, t, p.Flip());
      var n: nat :| InverseChain(g, t, n, p.name) && p.Flip().inverse == (n % 2 == 1);
      assert InverseChain(g, node, n + 1, p.name);
    }
  }
}
