/** Reading class expressions out of an RDF graph, with a cache and a cycle check. */
module Parsing {
  import opened Options
  import opened Expressions
  import opened Normalization

  datatype Predicate =
    | IntersectionOf | UnionOf | ComplementOf | Enumerates
    | SomeValuesFrom | AllValuesFrom | HasValue | MinCardinality | MaxCardinality | ExactCardinality
    | OnProperty | InverseOf | First | Rest
    | Other(name: string)

  datatype Triple = Triple(subject: Node, predicate_: Predicate, object_: Node)

  /** The triples, and the nodes to be refused as datatypes. */
  datatype Graph = Graph(triples: set<Triple>, datatypes: set<Node>)

  const THING := Iri("http://www.w3.org/2002/07/owl#Thing")
  const NOTHING := Iri("http://www.w3.org/2002/07/owl#Nothing")
  const NIL := Iri("http://www.w3.org/1999/02/22-rdf-syntax-ns#nil")
  const BUILT_IN_PROPERTIES: set<string> := {
    "http://www.w3.org/2002/07/owl#topObjectProperty", "http://www.w3.org/2002/07/owl#bottomObjectProperty",
    "http://www.w3.org/2002/07/owl#topDataProperty", "http://www.w3.org/2002/07/owl#bottomDataProperty" }
  const BOOLEANS := {IntersectionOf, UnionOf, ComplementOf, Enumerates}
  const CONSTRUCTORS := BOOLEANS +
    {SomeValuesFrom, AllValuesFrom, HasValue, MinCardinality, MaxCardinality, ExactCardinality}

  function Objects(g: Graph, s: Node, p: Predicate): set<Node> {
    set t | t in g.triples && t.subject == s && t.predicate_ == p :: t.object_
  }

  /** `o` is the one and only value of the predicate. */
  predicate Sole(g: Graph, s: Node, p: Predicate, o: Node) { Objects(g, s, p) == {o} }

  function Subjects(g: Graph): set<Node> { set t | t in g.triples :: t.subject }

  function Present(g: Graph, node: Node): set<Predicate> { set p | p in CONSTRUCTORS && Objects(g, node, p) != {} }

  predicate Resource(n: Node) { n.Iri? || n.Blank? }

  predicate Literal(n: Node) { n.IntegerLiteral? || n.OtherLiteral? }

  // ----- What a graph says, without any traversal order -----

  /** The linked list at `head` spells `values`. */
  ghost predicate IsList(g: Graph, head: Node, values: seq<Node>)
    decreases |values|
  {
    if values == [] then head == NIL
    else head != NIL && Resource(head) && Sole(g, head, First, values[0]) && exists next ::
      Sole(g, head, Rest, next) && IsList(g, next, values[1..])
  }

  /** `node` is `steps` inverses away from the property `name`. */
  ghost predicate InverseChain(g: Graph, node: Node, steps: nat, name: string)
    decreases steps
  {
    if steps == 0 then node == Iri(name) && name !in BUILT_IN_PROPERTIES
    else node.Blank? && exists t :: Sole(g, node, InverseOf, t) && InverseChain(g, t, steps - 1, name)
  }

  ghost predicate IsProperty(g: Graph, node: Node, p: Property) {
    exists steps: nat :: InverseChain(g, node, steps, p.name) && p.inverse == (steps % 2 == 1)
  }

  ghost predicate Restricts(g: Graph, node: Node, p: Property) {
    exists q :: Sole(g, node, OnProperty, q) && IsProperty(g, q, p)
  }

  /** The node has exactly one constructor, and a Boolean one is not also a restriction. */
  predicate Shape(g: Graph, node: Node, p: Predicate) {
    Present(g, node) == {p} && (p in BOOLEANS ==> Objects(g, node, OnProperty) == {})
  }

  /** `node` unfolds to the finite expression `t`. */
  ghost predicate Denotes(g: Graph, node: Node, expand: bool, t: Expr)
    decreases t, 1
  {
    if node == THING then t == Top
    else if node == NOTHING then t == Bottom
    else if node in g.datatypes then false
    else if node.Iri? && !expand then t == Class(node.text)
    else Resource(node) && exists p, o :: Shape(g, node, p) && Sole(g, node, p, o) && Built(g, node, p, o, t)
  }

  ghost predicate Built(g: Graph, node: Node, p: Predicate, o: Node, t: Expr)
    decreases t, 0
  {
    match p
    case ComplementOf => t.Not? && Denotes(g, o, false, t.operand)
    case IntersectionOf => t.Junction? && t.junctor == And && exists ms :: IsList(g, o, ms) && DenoteAll(g, ms, t.args)
    case UnionOf => t.Junction? && t.junctor == Or && exists ms :: IsList(g, o, ms) && DenoteAll(g, ms, t.args)
    case Enumerates => t.OneOf? && IsList(g, o, t.items) && forall n | n in t.items :: !Literal(n)
    case SomeValuesFrom => t.Exists? && Restricts(g, node, t.prop) && Denotes(g, o, false, t.filler)
    case AllValuesFrom => t.Forall? && Restricts(g, node, t.prop) && Denotes(g, o, false, t.filler)
    case HasValue => t.Value? && Restricts(g, node, t.prop) && t.individual == o
    case MinCardinality => t.Min? && Restricts(g, node, t.prop) && o == IntegerLiteral(t.n)
    case MaxCardinality => t.Max? && Restricts(g, node, t.prop) && o == IntegerLiteral(t.n)
    case ExactCardinality => t.Exact? && Restricts(g, node, t.prop) && o == IntegerLiteral(t.n)
    case _ => false
  }

  ghost predicate DenoteAll(g: Graph, nodes: seq<Node>, ts: seq<Expr>)
    decreases ts, 0
  {
    |nodes| == |ts| && (ts != [] ==> Denotes(g, nodes[0], false, ts[0]) && DenoteAll(g, nodes[1..], ts[1..]))
  }

  // ----- Unfoldings are unique -----

  lemma {:induction false} ListUnique(g: Graph, head: Node, a: seq<Node>, b: seq<Node>)
    requires IsList(g, head, a) && IsList(g, head, b)
    ensures a == b
    decreases |a|
  {
    if a != [] {
      var m :| Sole(g, head, Rest, m) && IsList(g, m, a[1..]);
      var n :| Sole(g, head, Rest, n) && IsList(g, n, b[1..]);
      assert {m} == {n} && m in {n};
      assert {a[0]} == {b[0]} && a[0] in {b[0]};
      ListUnique(g, m, a[1..], b[1..]);
      assert a == [a[0]] + a[1..] && b == [b[0]] + b[1..];
    }
  }

  lemma {:induction false} ChainUnique(g: Graph, node: Node, m: nat, n: nat, a: string, b: string)
    requires InverseChain(g, node, m, a) && InverseChain(g, node, n, b)
    ensures m == n && a == b
    decreases m
  {
    if m != 0 {
      var s :| Sole(g, node, InverseOf, s) && InverseChain(g, s, m - 1, a);
      var t :| Sole(g, node, InverseOf, t) && InverseChain(g, t, n - 1, b);
      assert {s} == {t} && s in {t};
      ChainUnique(g, s, m - 1, n - 1, a, b);
    }
  }

  lemma RestrictsUnique(g: Graph, node: Node, a: Property, b: Property)
    requires Restricts(g, node, a) && Restricts(g, node, b)
    ensures a == b
  {
    var q :| Sole(g, node, OnProperty, q) && IsProperty(g, q, a);
    var r :| Sole(g, node, OnProperty, r) && IsProperty(g, r, b);
    assert {q} == {r} && q in {r};
    var m: nat :| InverseChain(g, q, m, a.name) && a.inverse == (m % 2 == 1);
    var n: nat :| InverseChain(g, q, n, b.name) && b.inverse == (n % 2 == 1);
    ChainUnique(g, q, m, n, a.name, b.name);
  }

  lemma {:induction false} DenotesUnique(g: Graph, node: Node, expand: bool, s: Expr, t: Expr)
    requires Denotes(g, node, expand, s) && Denotes(g, node, expand, t)
    ensures s == t
    decreases s, 1
  {
    if node != THING && node != NOTHING && !(node.Iri? && !expand) {
      var p, o :| Shape(g, node, p) && Sole(g, node, p, o) && Built(g, node, p, o, s);
      var p', o' :| Shape(g, node, p') && Sole(g, node, p', o') && Built(g, node, p', o', t);
      assert {p} == {p'} && p in {p'};
      assert {o} == {o'} && o in {o'};
      BuiltUnique(g, node, p, o, s, t);
    }
  }

  lemma {:induction false} BuiltUnique(g: Graph, node: Node, p: Predicate, o: Node, s: Expr, t: Expr)
    requires Built(g, node, p, o, s) && Built(g, node, p, o, t)
    ensures s == t
    decreases s, 0
  {
    match p
    case ComplementOf => DenotesUnique(g, o, false, s.operand, t.operand);
    case IntersectionOf => JunctionUnique(g, o, s, t);
    case UnionOf => JunctionUnique(g, o, s, t);
    case Enumerates => ListUnique(g, o, s.items, t.items);
    case SomeValuesFrom =>
      RestrictsUnique(g, node, s.prop, t.prop);
      DenotesUnique(g, o, false, s.filler, t.filler);
    case AllValuesFrom =>
      RestrictsUnique(g, node, s.prop, t.prop);
      DenotesUnique(g, o, false, s.filler, t.filler);
    case HasValue => RestrictsUnique(g, node, s.prop, t.prop);
    case MinCardinality => RestrictsUnique(g, node, s.prop, t.prop);
    case MaxCardinality => RestrictsUnique(g, node, s.prop, t.prop);
    case ExactCardinality => RestrictsUnique(g, node, s.prop, t.prop);
    case _ =>
  }

  lemma {:induction false} JunctionUnique(g: Graph, o: Node, s: Expr, t: Expr)
    requires s.Junction? && t.Junction? && s.junctor == t.junctor
    requires exists ms :: IsList(g, o, ms) && DenoteAll(g, ms, s.args)
    requires exists ms :: IsList(g, o, ms) && DenoteAll(g, ms, t.args)
    ensures s == t
    decreases s.args, 1
  {
    var ms :| IsList(g, o, ms) && DenoteAll(g, ms, s.args);
    var ns :| IsList(g, o, ns) && DenoteAll(g, ns, t.args);
    ListUnique(g, o, ms, ns);
    DenoteAllUnique(g, ms, s.args, t.args);
  }

  lemma {:induction false} DenoteAllUnique(g: Graph, nodes: seq<Node>, ss: seq<Expr>, ts: seq<Expr>)
    requires DenoteAll(g, nodes, ss) && DenoteAll(g, nodes, ts)
    ensures ss == ts
    decreases ss, 0
  {
    if ss != [] {
      DenotesUnique(g, nodes[0], false, ss[0], ts[0]);
      DenoteAllUnique(g, nodes[1..], ss[1..], ts[1..]);
      assert ss == [ss[0]] + ss[1..] && ts == [ts[0]] + ts[1..];
    }
  }

  lemma {:induction false} DenoteAllAt(g: Graph, nodes: seq<Node>, ts: seq<Expr>, i: nat)
    requires DenoteAll(g, nodes, ts) && i < |ts|
    ensures Denotes(g, nodes[i], false, ts[i])
    decreases i
  {
    if i > 0 { DenoteAllAt(g, nodes[1..], ts[1..], i - 1); }
  }

  lemma {:induction false} DenoteAllFrom(g: Graph, nodes: seq<Node>, ts: seq<Expr>)
    requires |nodes| == |ts| && forall i | 0 <= i < |ts| :: Denotes(g, nodes[i], false, ts[i])
    ensures DenoteAll(g, nodes, ts)
    decreases |ts|
  {
    if ts != [] {
      forall i | 0 <= i < |ts| - 1 ensures Denotes(g, nodes[1..][i], false, ts[1..][i]) {
        assert Denotes(g, nodes[i + 1], false, ts[i + 1]);
      }
      DenoteAllFrom(g, nodes[1..], ts[1..]);
    }
  }

  // ----- Results are simplified level by level -----

  /** `e` is the simplified form of what the node unfolds to. */
  ghost predicate Meets(g: Graph, node: Node, expand: bool, e: Expr) {
    exists t :: Denotes(g, node, expand, t) && e == Normalize(t)
  }

  ghost predicate Meaningless(g: Graph, node: Node, expand: bool) { forall t :: !Denotes(g, node, expand, t) }

  lemma {:induction false} SimplifiedChildren(k: Junctor, es: seq<Expr>, ts: seq<Expr>)
    requires |es| == |ts| && forall i | 0 <= i < |ts| :: es[i] == Normalize(ts[i])
    ensures NormalizedChildren(k, es) == NormalizedChildren(k, ts)
    decreases |es|
  {
    if es != [] {
      NormalizeIdempotent(ts[0]);
      forall i | 0 <= i < |ts| - 1 ensures es[1..][i] == Normalize(ts[1..][i]) {
        assert es[i + 1] == Normalize(ts[i + 1]);
      }
      SimplifiedChildren(k, es[1..], ts[1..]);
    }
  }

  /** Simplifying the operands first makes no difference. */
  lemma SimplifiedJunction(k: Junctor, es: seq<Expr>, ts: seq<Expr>)
    requires |es| == |ts| && forall i | 0 <= i < |ts| :: es[i] == Normalize(ts[i])
    ensures Normalize(Junction(k, es)) == Normalize(Junction(k, ts))
  {
    SimplifiedChildren(k, es, ts);
  }

  lemma SimplifiedOperand(p: Property, t: Expr)
    ensures Normalize(Not(Normalize(t))) == Normalize(Not(t))
    ensures Normalize(Exists(p, Normalize(t))) == Normalize(Exists(p, t))
    ensures Normalize(Forall(p, Normalize(t))) == Normalize(Forall(p, t))
  {
    NormalizeIdempotent(t);
  }

  // ----- Recursion reaches only smaller unfoldings -----

  /** Whenever an enclosing node unfolds, this one unfolds to something smaller. */
  ghost predicate Below(g: Graph, stack: set<Node>, node: Node, expand: bool) {
    forall s, whole | s in stack && Denotes(g, s, true, whole) ::
      exists part :: Denotes(g, node, expand, part) && Weight(part) < Weight(whole)
  }

  /** Once past the named-class case, the expansion flag no longer matters. */
  lemma ExpandIrrelevant(g: Graph, node: Node, t: Expr)
    requires !node.Iri?
    ensures Denotes(g, node, false, t) <==> Denotes(g, node, true, t)
  {
  }

  /** A node on its own stack cannot unfold. */
  lemma CycleIsMeaningless(g: Graph, stack: set<Node>, node: Node, expand: bool)
    requires Below(g, stack, node, expand) && node in stack && (expand || !node.Iri?)
    ensures Meaningless(g, node, expand)
  {
    hide Denotes;
    forall t ensures !Denotes(g, node, expand, t) {
      if Denotes(g, node, expand, t) {
        if !expand { ExpandIrrelevant(g, node, t); }
        var part :| Denotes(g, node, expand, part) && Weight(part) < Weight(t);
        DenotesUnique(g, node, expand, part, t);
      }
    }
  }

  /** Nodes whose expressions go straight into the expression of `node`. */
  ghost predicate Child(g: Graph, p: Predicate, o: Node, m: Node) {
    match p
    case ComplementOf => m == o
    case SomeValuesFrom => m == o
    case AllValuesFrom => m == o
    case IntersectionOf => exists ms :: IsList(g, o, ms) && m in ms
    case UnionOf => exists ms :: IsList(g, o, ms) && m in ms
    case _ => false
  }

  lemma PartOfJunction(g: Graph, o: Node, t: Expr, m: Node) returns (part: Expr)
    requires t.Junction? && exists ms :: IsList(g, o, ms) && DenoteAll(g, ms, t.args)
    requires exists ms :: IsList(g, o, ms) && m in ms
    ensures Denotes(g, m, false, part) && Weight(part) < Weight(t)
  {
    var ms :| IsList(g, o, ms) && DenoteAll(g, ms, t.args);
    var ns :| IsList(g, o, ns) && m in ns;
    ListUnique(g, o, ms, ns);
    var i :| 0 <= i < |ms| && ms[i] == m;
    DenoteAllLength(g, ms, t.args);
    DenoteAllAt(g, ms, t.args, i);
    WeightOfMember(t.args, i);
    part := t.args[i];
  }

  lemma DenoteAllLength(g: Graph, nodes: seq<Node>, ts: seq<Expr>)
    requires DenoteAll(g, nodes, ts)
    ensures |nodes| == |ts|
  {
  }

  lemma PartOf(g: Graph, node: Node, p: Predicate, o: Node, t: Expr, m: Node) returns (part: Expr)
    requires Built(g, node, p, o, t) && Child(g, p, o, m)
    ensures Denotes(g, m, false, part) && Weight(part) < Weight(t)
  {
    match p
    case ComplementOf => part := t.operand;
    case SomeValuesFrom => part := t.filler;
    case AllValuesFrom => part := t.filler;
    case _ => part := PartOfJunction(g, o, t, m);
  }

  /** The parse of `node` has got past the special cases to its constructor. */
  ghost predicate Opens(g: Graph, node: Node, expand: bool, p: Predicate, o: Node) {
    && node != THING && node != NOTHING && node !in g.datatypes && Resource(node) && (expand || !node.Iri?)
    && Shape(g, node, p) && Sole(g, node, p, o)
  }

  lemma OpenedDenotes(g: Graph, node: Node, expand: bool, p: Predicate, o: Node, t: Expr)
    requires Opens(g, node, expand, p, o)
    ensures Denotes(g, node, expand, t) <==> Built(g, node, p, o, t)
    ensures Denotes(g, node, true, t) <==> Built(g, node, p, o, t)
  {
    forall p', o' | Shape(g, node, p') && Sole(g, node, p', o') ensures p' == p && o' == o {
      assert {p} == {p'} && p in {p'};
      assert {o} == {o'} && o in {o'};
    }
  }

  lemma ChildBelow(g: Graph, stack: set<Node>, node: Node, expand: bool, p: Predicate, o: Node, m: Node)
    requires Opens(g, node, expand, p, o) && Below(g, stack, node, expand) && Child(g, p, o, m)
    ensures Below(g, stack + {node}, m, false)
  {
    hide Built;
    hide Denotes;
    forall s, whole | s in stack + {node} && Denotes(g, s, true, whole)
      ensures exists part :: Denotes(g, m, false, part) && Weight(part) < Weight(whole)
    {
      var mine := whole;
      if s in stack {
        mine :| Denotes(g, node, expand, mine) && Weight(mine) < Weight(whole);
      }
      OpenedDenotes(g, node, expand, p, o, mine);
      var part := PartOf(g, node, p, o, mine, m);
    }
  }

  /** A meaningless child makes its parent meaningless. */
  lemma ChildMeaningless(g: Graph, node: Node, expand: bool, p: Predicate, o: Node, m: Node)
    requires Opens(g, node, expand, p, o) && Child(g, p, o, m) && Meaningless(g, m, false)
    ensures Meaningless(g, node, expand)
  {
    hide Built;
    hide Denotes;
    forall t ensures !Denotes(g, node, expand, t) {
      OpenedDenotes(g, node, expand, p, o, t);
      if Built(g, node, p, o, t) { var part := PartOf(g, node, p, o, t, m); }
    }
  }

  // ----- The parser -----

  class Parser {
    const graph: Graph
    var cache: map<(Node, bool), Expr>

    constructor (graph: Graph)
      ensures this.graph == graph && cache == map[]
    {
      this.graph := graph;
      cache := map[];
    }

    /** Every cached expression is the simplified unfolding of its node. */
    ghost predicate Valid()
      reads this
    {
      forall key | key in cache :: Meets(graph, key.0, key.1, cache[key])
    }

    method One(s: Node, p: Predicate) returns (r: Option<Node>)
      ensures r.Some? ==> Sole(graph, s, p, r.value) && s in Subjects(graph)
      ensures r.None? ==> forall o :: !Sole(graph, s, p, o)
    {
      var values := Objects(graph, s, p);
      if |values| != 1 {
        assert forall o: Node :: |{o}| == 1;
        return None;
      }
      var o :| o in values;
      assert values == {o} by {
        assert |values - {o}| == 0;
      }
      var t :| t in graph.triples && t.subject == s && t.predicate_ == p && t.object_ == o;
      r := Some(o);
    }

    method RdfList(start: Node) returns (r: Option<seq<Node>>)
      ensures r.Some? ==> IsList(graph, start, r.value)
      ensures r.None? ==> !HasList(graph, start)
    {
      hide IsList;
      ExtendsStart(graph, start);
      var head := start;
      var values: seq<Node> := [];
      var visited: set<Node> := {};
      while head != NIL
        invariant visited <= Subjects(graph)
        invariant Extends(graph, start, head, values)
        invariant HasList(graph, start) ==> HasList(graph, head)
        invariant Shrinks(graph, visited, head)
        decreases |Subjects(graph) - visited|
      {
        if !Resource(head) {
          NoCell(graph, head);
          return None;
        }
        if head in visited {
          NoCyclicList(graph, visited, head);
          return None;
        }
        var first := One(head, First);
        if first.None? { NoFirst(graph, head); return None; }
        var next := One(head, Rest);
        if next.None? { NoRest(graph, head); return None; }
        ListStep(graph, head, first.value, next.value);
        ExtendsStep(graph, start, head, first.value, next.value, values);
        ShrinksStep(graph, visited, head, first.value, next.value);
        assert Subjects(graph) - (visited + {head}) < Subjects(graph) - visited;
        visited := visited + {head};
        values := values + [first.value];
        head := next.value;
      }
      ExtendsEnd(graph, start, values);
      r := Some(values);
    }

    /** Follows inverses to a property name; the path so far must not repeat a node. */
    method ReadProperty(node: Node, visited: set<Node>) returns (r: Option<Property>)
      requires visited <= Subjects(graph) && Deeper(graph, visited, node)
      ensures r.Some? ==> IsProperty(graph, node, r.value)
      ensures r.None? ==> !HasChain(graph, node)
      decreases |Subjects(graph) - visited|
    {
      hide InverseChain;
      if node.Iri? {
        ChainEnd(graph, node);
        if node.text in BUILT_IN_PROPERTIES { return None; }
        assert InverseChain(graph, node, 0, node.text);
        return Some(Property(node.text, false));
      }
      if !node.Blank? || node in visited {
        NoChain(graph, visited, node);
        return None;
      }
      var target := One(node, InverseOf);
      if target.None? {
        NoTarget(graph, node);
        return None;
      }
      DeeperStep(graph, visited, node, target.value);
      assert Subjects(graph) - (visited + {node}) < Subjects(graph) - visited;
      var inner := ReadProperty(target.value, visited + {node});
      ChainStep(graph, node, target.value);
      if inner.None? { return None; }
      PropertyStep(graph, node, target.value, inner.value);
      r := Some(inner.value.Flip());
    }

    /** The property a restriction is on. */
    method ReadRestricted(node: Node) returns (r: Option<Property>)
      ensures r.Some? ==> Restricts(graph, node, r.value)
      ensures r.None? ==> forall p :: !Restricts(graph, node, p)
    {
      hide IsProperty;
      var q := One(node, OnProperty);
      if q.None? { return None; }
      r := ReadProperty(q.value, {});
      if r.None? { NoPropertyAt(graph, node, q.value); }
    }

    /** Reads an expression node, unless it was read before. */
    method Expr(node: Node, expand: bool, stack: set<Node>) returns (r: Option<Expr>)
      requires Valid() && stack <= Subjects(graph) && Below(graph, stack, node, expand)
      modifies this
      ensures Valid()
      ensures r.Some? ==> Meets(graph, node, expand, r.value)
      ensures r.None? ==> Meaningless(graph, node, expand)
      decreases |Subjects(graph) - stack|, 3, 0
    {
      hide Built;
      if (node, expand) in cache {
        return Some(cache[(node, expand)]);
      }
      if node == THING { assert Denotes(graph, node, expand, Top) && Normalize(Top) == Top; return Some(Top); }
      if node == NOTHING {
        assert Denotes(graph, node, expand, Bottom) && Normalize(Bottom) == Bottom;
        return Some(Bottom);
      }
      if node in graph.datatypes { return None; }
      if node.Iri? && !expand {
        assert Denotes(graph, node, expand, Class(node.text)) && Normalize(Class(node.text)) == Class(node.text);
        return Some(Class(node.text));
      }
      if node in stack {
        CycleIsMeaningless(graph, stack, node, expand);
        return None;
      }
      if !Resource(node) { return None; }
      var present := Present(graph, node);
      if |present| != 1 {
        NoShape(graph, node, expand);
        return None;
      }
      var p :| p in present;
      assert present == {p} by { assert |present - {p}| == 0; }
      if p in BOOLEANS && Objects(graph, node, OnProperty) != {} {
        NoShape(graph, node, expand);
        return None;
      }
      var o := One(node, p);
      if o.None? {
        NoValue(graph, node, expand, p);
        return None;
      }
      assert Opens(graph, node, expand, p, o.value);
      assert Subjects(graph) - (stack + {node}) < Subjects(graph) - stack;
      r := Construct(node, expand, p, o.value, stack);
      if r.Some? {
        cache := cache[(node, expand) := r.value];
      }
    }

    /** Builds the expression of a node whose constructor is known. */
    method Construct(node: Node, expand: bool, p: Predicate, o: Node, stack: set<Node>) returns (r: Option<Expr>)
      requires Valid() && stack <= Subjects(graph) && node in Subjects(graph) && node !in stack
      requires Opens(graph, node, expand, p, o) && Below(graph, stack, node, expand)
      modifies this
      ensures Valid()
      ensures r.Some? ==> Meets(graph, node, expand, r.value)
      ensures r.None? ==> Meaningless(graph, node, expand)
      decreases |Subjects(graph) - stack|, 2, 0
    {
      hide Denotes;
      hide Below;
      hide Opens;
      hide Normalize;
      match p
      case ComplementOf =>
        ChildBelow(graph, stack, node, expand, p, o, o);
        var inner := Nested(o, node, stack);
        if inner.None? { ChildMeaningless(graph, node, expand, p, o, o); return None; }
        MeetsNot(graph, node, expand, o, inner.value);
        r := Some(Normalize(Not(inner.value)));
      case IntersectionOf => r := ReadJunction(node, expand, And, p, o, stack);
      case UnionOf => r := ReadJunction(node, expand, Or, p, o, stack);
      case Enumerates =>
        var items := RdfList(o);
        if items.None? || exists n | n in items.value :: Literal(n) {
          NoItems(graph, node, expand, o, items);
          return None;
        }
        MeetsBuilt(graph, node, expand, p, o, OneOf(items.value));
        r := Some(Normalize(OneOf(items.value)));
      case _ => r := ReadRestriction(node, expand, p, o, stack);
    }

    method Nested(child: Node, node: Node, stack: set<Node>) returns (r: Option<Expr>)
      requires Valid() && stack <= Subjects(graph) && node in Subjects(graph) && node !in stack
      requires Below(graph, stack + {node}, child, false)
      modifies this
      ensures Valid()
      ensures r.Some? ==> Meets(graph, child, false, r.value)
      ensures r.None? ==> Meaningless(graph, child, false)
      decreases |Subjects(graph) - stack|, 0, 0
    {
      assert Subjects(graph) - (stack + {node}) < Subjects(graph) - stack;
      r := Expr(child, false, stack + {node});
    }

    method ReadJunction(node: Node, expand: bool, k: Junctor, p: Predicate, o: Node, stack: set<Node>)
      returns (r: Option<Expr>)
      requires Valid() && stack <= Subjects(graph) && node in Subjects(graph) && node !in stack
      requires Opens(graph, node, expand, p, o) && Below(graph, stack, node, expand)
      requires (p == IntersectionOf && k == And) || (p == UnionOf && k == Or)
      modifies this
      ensures Valid()
      ensures r.Some? ==> Meets(graph, node, expand, r.value)
      ensures r.None? ==> Meaningless(graph, node, expand)
      decreases |Subjects(graph) - stack|, 1, 0
    {
      hide Denotes;
      hide Below;
      hide Opens;
      hide Normalize;
      hide IsList;
      var members := RdfList(o);
      if members.None? {
        NoMembers(graph, node, expand, p, o);
        return None;
      }
      var ms := members.value;
      var es: seq<Expr> := [];
      ghost var ts: seq<Expr> := [];
      for i := 0 to |ms|
        invariant Valid()
        invariant |es| == |ts| == i
        invariant forall j | 0 <= j < i :: Denotes(graph, ms[j], false, ts[j]) && es[j] == Normalize(ts[j])
      {
        assert Child(graph, p, o, ms[i]);
        ChildBelow(graph, stack, node, expand, p, o, ms[i]);
        var e := Nested(ms[i], node, stack);
        if e.None? {
          ChildMeaningless(graph, node, expand, p, o, ms[i]);
          return None;
        }
        ghost var t :| Denotes(graph, ms[i], false, t) && e.value == Normalize(t);
        es, ts := es + [e.value], ts + [t];
      }
      MeetsJunction(graph, node, expand, k, p, o, ms, es, ts);
      r := Some(Normalize(Junction(k, es)));
    }

    method ReadRestriction(node: Node, expand: bool, p: Predicate, o: Node, stack: set<Node>) returns (r: Option<Expr>)
      requires Valid() && stack <= Subjects(graph) && node in Subjects(graph) && node !in stack
      requires Opens(graph, node, expand, p, o) && Below(graph, stack, node, expand) && p !in BOOLEANS
      modifies this
      ensures Valid()
      ensures r.Some? ==> Meets(graph, node, expand, r.value)
      ensures r.None? ==> Meaningless(graph, node, expand)
      decreases |Subjects(graph) - stack|, 1, 0
    {
      hide Denotes;
      hide Below;
      hide Opens;
      hide Normalize;
      hide Restricts;
      var prop := ReadRestricted(node);
      if prop.None? {
        NoRestricted(graph, node, expand, p, o);
        return None;
      }
      if p == SomeValuesFrom || p == AllValuesFrom {
        ChildBelow(graph, stack, node, expand, p, o, o);
        var filler := Nested(o, node, stack);
        if filler.None? { ChildMeaningless(graph, node, expand, p, o, o); return None; }
        MeetsQuantified(graph, node, expand, p, o, prop.value, filler.value);
        r := Some(Normalize(if p == SomeValuesFrom then Exists(prop.value, filler.value) else
          Forall(prop.value, filler.value)));
      } else if p == HasValue {
        MeetsBuilt(graph, node, expand, p, o, Value(prop.value, o));
        r := Some(Normalize(Value(prop.value, o)));
      } else {
        PredicatesOnly(graph, node, expand, p, o);
        if !o.IntegerLiteral? || o.value < 0 {
          NoBound(graph, node, expand, p, o);
          return None;
        }
        var t := if p == MinCardinality then Min(prop.value, o.value)
                 else if p == MaxCardinality then Max(prop.value, o.value) else Exact(prop.value, o.value);
        MeetsBuilt(graph, node, expand, p, o, t);
        r := Some(Normalize(t));
      }
    }
  }

  /** Reading a node outside any other: the result does not depend on what was read before. */
  method ReadExpression(parser: Parser, node: Node, expand: bool) returns (r: Option<Expr>)
    requires parser.Valid()
    modifies parser
    ensures parser.Valid()
    ensures r.Some? ==> Meets(parser.graph, node, expand, r.value)
    ensures r.None? <==> Meaningless(parser.graph, node, expand)
  {
    r := parser.Expr(node, expand, {});
  }

  /** At most one simplified expression can be read from a node. */
  lemma MeetsUnique(g: Graph, node: Node, expand: bool, a: Expr, b: Expr)
    requires Meets(g, node, expand, a) && Meets(g, node, expand, b)
    ensures a == b && !Meaningless(g, node, expand)
  {
    var s :| Denotes(g, node, expand, s) && a == Normalize(s);
    var t :| Denotes(g, node, expand, t) && b == Normalize(t);
    DenotesUnique(g, node, expand, s, t);
  }

  // ----- What the parser's steps mean -----

  lemma NoShape(g: Graph, node: Node, expand: bool)
    requires node != THING && node != NOTHING && node !in g.datatypes && (expand || !node.Iri?)
    requires |Present(g, node)| != 1 ||
      (exists p :: Present(g, node) == {p} && p in BOOLEANS && Objects(g, node, OnProperty) != {})
    ensures Meaningless(g, node, expand)
  {
    hide Built;
    forall p ensures !Shape(g, node, p) {
      if Present(g, node) == {p} {
        assert |{p}| == 1;
        var q :| Present(g, node) == {q} && q in BOOLEANS && Objects(g, node, OnProperty) != {};
        assert q in {p};
      }
    }
  }

  lemma NoValue(g: Graph, node: Node, expand: bool, p: Predicate)
    requires node != THING && node != NOTHING && node !in g.datatypes && (expand || !node.Iri?)
    requires Present(g, node) == {p} && forall o :: !Sole(g, node, p, o)
    ensures Meaningless(g, node, expand)
  {
    hide Built;
    forall p', o ensures !(Shape(g, node, p') && Sole(g, node, p', o)) {
      if Shape(g, node, p') { assert p' in {p}; }
    }
  }

  lemma MeetsBuilt(g: Graph, node: Node, expand: bool, p: Predicate, o: Node, t: Expr)
    requires Opens(g, node, expand, p, o) && Built(g, node, p, o, t)
    ensures Meets(g, node, expand, Normalize(t))
  {
    OpenedDenotes(g, node, expand, p, o, t);
  }

  lemma NotBuilt(g: Graph, node: Node, expand: bool, p: Predicate, o: Node)
    requires Opens(g, node, expand, p, o) && forall t :: !Built(g, node, p, o, t)
    ensures Meaningless(g, node, expand)
  {
    hide Denotes;
    hide Built;
    forall t ensures !Denotes(g, node, expand, t) { OpenedDenotes(g, node, expand, p, o, t); }
  }

  lemma MeetsNot(g: Graph, node: Node, expand: bool, o: Node, e: Expr)
    requires Opens(g, node, expand, ComplementOf, o) && Meets(g, o, false, e)
    ensures Meets(g, node, expand, Normalize(Not(e)))
  {
    hide Normalize;
    hide Denotes;
    var t :| Denotes(g, o, false, t) && e == Normalize(t);
    SimplifiedOperand(Property("", false), t);
    assert Built(g, node, ComplementOf, o, Not(t));
    MeetsBuilt(g, node, expand, ComplementOf, o, Not(t));
  }

  lemma MeetsQuantified(g: Graph, node: Node, expand: bool, p: Predicate, o: Node, prop: Property, e: Expr)
    requires p == SomeValuesFrom || p == AllValuesFrom
    requires Opens(g, node, expand, p, o) && Restricts(g, node, prop) && Meets(g, o, false, e)
    ensures Meets(g, node, expand, Normalize(if p == SomeValuesFrom then Exists(prop, e) else Forall(prop, e)))
  {
    hide Normalize;
    hide Denotes;
    hide Restricts;
    var t :| Denotes(g, o, false, t) && e == Normalize(t);
    SimplifiedOperand(prop, t);
    var whole := if p == SomeValuesFrom then Exists(prop, t) else Forall(prop, t);
    assert Built(g, node, p, o, whole);
    MeetsBuilt(g, node, expand, p, o, whole);
  }

  lemma MeetsJunction(g: Graph, node: Node, expand: bool, k: Junctor, p: Predicate, o: Node, ms: seq<Node>,
      es: seq<Expr>, ts: seq<Expr>)
    requires (p == IntersectionOf && k == And) || (p == UnionOf && k == Or)
    requires Opens(g, node, expand, p, o) && IsList(g, o, ms) && |ms| == |es| == |ts|
    requires forall j | 0 <= j < |ms| :: Denotes(g, ms[j], false, ts[j]) && es[j] == Normalize(ts[j])
    ensures Meets(g, node, expand, Normalize(Junction(k, es)))
  {
    hide Normalize;
    hide Denotes;
    hide IsList;
    DenoteAllFrom(g, ms, ts);
    SimplifiedJunction(k, es, ts);
    assert Built(g, node, p, o, Junction(k, ts));
    MeetsBuilt(g, node, expand, p, o, Junction(k, ts));
  }

  lemma NoMembers(g: Graph, node: Node, expand: bool, p: Predicate, o: Node)
    requires p == IntersectionOf || p == UnionOf
    requires Opens(g, node, expand, p, o) && !HasList(g, o)
    ensures Meaningless(g, node, expand)
  {
    hide IsList;
    hide Denotes;
    NotBuilt(g, node, expand, p, o);
  }

  lemma NoItems(g: Graph, node: Node, expand: bool, o: Node, items: Option<seq<Node>>)
    requires Opens(g, node, expand, Enumerates, o)
    requires items.None? ==> !HasList(g, o)
    requires items.Some? ==> IsList(g, o, items.value) && exists n | n in items.value :: Literal(n)
    ensures Meaningless(g, node, expand)
  {
    hide IsList;
    hide Denotes;
    forall t ensures !Built(g, node, Enumerates, o, t) {
      if Built(g, node, Enumerates, o, t) && items.Some? { ListUnique(g, o, items.value, t.items); }
    }
    NotBuilt(g, node, expand, Enumerates, o);
  }

  lemma NoRestricted(g: Graph, node: Node, expand: bool, p: Predicate, o: Node)
    requires Opens(g, node, expand, p, o) && p !in BOOLEANS && forall q :: !Restricts(g, node, q)
    ensures Meaningless(g, node, expand)
  {
    hide Restricts;
    hide Denotes;
    NotBuilt(g, node, expand, p, o);
  }

  lemma NoBound(g: Graph, node: Node, expand: bool, p: Predicate, o: Node)
    requires Opens(g, node, expand, p, o) && p in {MinCardinality, MaxCardinality, ExactCardinality}
    requires !o.IntegerLiteral? || o.value < 0
    ensures Meaningless(g, node, expand)
  {
    hide Restricts;
    hide Denotes;
    NotBuilt(g, node, expand, p, o);
  }

  lemma PredicatesOnly(g: Graph, node: Node, expand: bool, p: Predicate, o: Node)
    requires Opens(g, node, expand, p, o)
    ensures p in CONSTRUCTORS
  {
    assert p in Present(g, node);
  }

  // ----- Inverse chains -----

  ghost predicate HasChain(g: Graph, node: Node) { exists steps: nat, name :: InverseChain(g, node, steps, name) }

  /** Every node passed on the way has a longer chain than this one. */
  ghost predicate Deeper(g: Graph, visited: set<Node>, node: Node) {
    forall c, m: nat, name | c in visited && InverseChain(g, c, m, name) ::
      exists k: nat :: k < m && InverseChain(g, node, k, name)
  }

  lemma ChainEnd(g: Graph, node: Node)
    requires node.Iri?
    ensures forall steps: nat, name :: InverseChain(g, node, steps, name) <==>
      steps == 0 && name == node.text && name !in BUILT_IN_PROPERTIES
  {
  }

  lemma NoChain(g: Graph, visited: set<Node>, node: Node)
    requires !node.Iri? && Deeper(g, visited, node) && (!node.Blank? || node in visited)
    ensures !HasChain(g, node)
  {
    hide InverseChain;
    if !node.Blank? {
      ChainNeedsBlank(g, node);
    } else {
      forall m: nat, name ensures !InverseChain(g, node, m, name) {
        if InverseChain(g, node, m, name) {
          var k: nat :| k < m && InverseChain(g, node, k, name);
          ChainUnique(g, node, k, m, name, name);
        }
      }
    }
  }

  lemma ChainNeedsBlank(g: Graph, node: Node)
    requires !node.Iri? && !node.Blank?
    ensures !HasChain(g, node)
  {
  }

  lemma NoTarget(g: Graph, node: Node)
    requires node.Blank? && forall t :: !Sole(g, node, InverseOf, t)
    ensures !HasChain(g, node)
  {
  }

  /** One inverse further. */
  lemma ChainStep(g: Graph, node: Node, target: Node)
    requires node.Blank? && Sole(g, node, InverseOf, target)
    ensures forall steps: nat, name :: InverseChain(g, node, steps, name) <==>
      steps > 0 && InverseChain(g, target, steps - 1, name)
    ensures HasChain(g, node) ==> HasChain(g, target)
  {
    forall t | Sole(g, node, InverseOf, t) ensures t == target { assert t in {target}; }
    if HasChain(g, node) {
      var m: nat, name :| InverseChain(g, node, m, name);
      assert m > 0 && InverseChain(g, target, m - 1, name);
    }
  }

  lemma DeeperStep(g: Graph, visited: set<Node>, node: Node, target: Node)
    requires node.Blank? && Sole(g, node, InverseOf, target) && Deeper(g, visited, node)
    ensures Deeper(g, visited + {node}, target)
  {
    hide InverseChain;
    ChainStep(g, node, target);
    forall c, m: nat, name | c in visited + {node} && InverseChain(g, c, m, name)
      ensures exists k: nat :: k < m && InverseChain(g, target, k, name)
    {
      if c in visited {
        var k: nat :| k < m && InverseChain(g, node, k, name);
        assert InverseChain(g, target, k - 1, name);
      } else {
        assert InverseChain(g, target, m - 1, name);
      }
    }
  }

  lemma PropertyStep(g: Graph, node: Node, target: Node, p: Property)
    requires node.Blank? && Sole(g, node, InverseOf, target) && IsProperty(g, target, p)
    ensures IsProperty(g, node, p.Flip())
  {
    hide InverseChain;
    ChainStep(g, node, target);
    var m: nat :| InverseChain(g, target, m, p.name) && p.inverse == (m % 2 == 1);
    assert InverseChain(g, node, m + 1, p.name);
  }

  lemma NoPropertyAt(g: Graph, node: Node, q: Node)
    requires Sole(g, node, OnProperty, q) && !HasChain(g, q)
    ensures forall p :: !Restricts(g, node, p)
  {
    forall r | Sole(g, node, OnProperty, r) ensures r == q { assert r in {q}; }
  }

  // ----- Lists -----

  lemma ExtendsStart(g: Graph, start: Node)
    ensures Extends(g, start, start, [])
  {
    assert forall rest: seq<Node> :: [] + rest == rest;
  }

  lemma ExtendsEnd(g: Graph, start: Node, values: seq<Node>)
    requires Extends(g, start, NIL, values)
    ensures IsList(g, start, values)
  {
    assert IsList(g, NIL, []) && values + [] == values;
  }

  ghost predicate HasList(g: Graph, head: Node) { exists vs :: IsList(g, head, vs) }

  /** Whatever list follows `head` completes the values read so far. */
  ghost predicate Extends(g: Graph, start: Node, head: Node, values: seq<Node>) {
    forall rest :: IsList(g, head, rest) ==> IsList(g, start, values + rest)
  }

  /** Every visited cell starts a longer list. */
  ghost predicate Shrinks(g: Graph, visited: set<Node>, head: Node) {
    forall c, ws | c in visited && IsList(g, c, ws) :: exists rest :: IsList(g, head, rest) && |rest| < |ws|
  }

  /** What one cell means: its value, then the list of the next cell. */
  ghost predicate Cell(g: Graph, head: Node, first: Node, next: Node) {
    forall vs :: IsList(g, head, vs) <==> vs != [] && vs[0] == first && IsList(g, next, vs[1..])
  }

  lemma NoCell(g: Graph, head: Node)
    requires head != NIL && !Resource(head)
    ensures !HasList(g, head)
  {
  }

  lemma NoFirst(g: Graph, head: Node)
    requires head != NIL && forall o :: !Sole(g, head, First, o)
    ensures !HasList(g, head)
  {
  }

  lemma NoRest(g: Graph, head: Node)
    requires head != NIL && forall o :: !Sole(g, head, Rest, o)
    ensures !HasList(g, head)
  {
  }

  lemma NoCyclicList(g: Graph, visited: set<Node>, head: Node)
    requires Shrinks(g, visited, head) && head in visited
    ensures !HasList(g, head)
  {
    hide IsList;
    forall vs ensures !IsList(g, head, vs) {
      if IsList(g, head, vs) {
        var rest :| IsList(g, head, rest) && |rest| < |vs|;
        ListUnique(g, head, vs, rest);
      }
    }
  }

  lemma ExtendsStep(g: Graph, start: Node, head: Node, first: Node, next: Node, values: seq<Node>)
    requires Cell(g, head, first, next) && Extends(g, start, head, values)
    ensures Extends(g, start, next, values + [first])
    ensures HasList(g, head) ==> HasList(g, next)
  {
    hide IsList;
    forall rest | IsList(g, next, rest) ensures IsList(g, start, (values + [first]) + rest) {
      assert ([first] + rest)[1..] == rest && ([first] + rest)[0] == first;
      assert IsList(g, head, [first] + rest);
      assert values + ([first] + rest) == (values + [first]) + rest;
    }
  }

  lemma ShrinksStep(g: Graph, visited: set<Node>, head: Node, first: Node, next: Node)
    requires Cell(g, head, first, next) && Shrinks(g, visited, head)
    ensures Shrinks(g, visited + {head}, next)
  {
    hide IsList;
    forall c, ws | c in visited + {head} && IsList(g, c, ws)
      ensures exists rest :: IsList(g, next, rest) && |rest| < |ws|
    {
      if c in visited {
        var rest :| IsList(g, head, rest) && |rest| < |ws|;
        assert IsList(g, next, rest[1..]);
      } else {
        assert IsList(g, next, ws[1..]);
      }
    }
  }

  lemma ListStep(g: Graph, head: Node, first: Node, next: Node)
    requires head != NIL && Resource(head) && Sole(g, head, First, first) && Sole(g, head, Rest, next)
    ensures Cell(g, head, first, next)
  {
    forall vs ensures IsList(g, head, vs) <==> vs != [] && vs[0] == first && IsList(g, next, vs[1..]) {
      if vs != [] {
        assert {first} == {vs[0]} <==> first == vs[0] by { if {first} == {vs[0]} { assert first in {vs[0]}; } }
        forall n | Sole(g, head, Rest, n) ensures n == next { assert n in {next}; }
      }
    }
  }
}
