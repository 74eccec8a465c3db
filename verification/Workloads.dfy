/** The factored workloads: linked lists written into a graph, and what the compiler makes of them. */
module Workloads {
  import opened Options
  import opened Expressions
  import opened Normalization
  import opened Axioms
  import opened Decimals
  import opened Parsing
  import opened GraphAxioms
  import opened Factoring
  import opened Results
  import R = Rules
  import T = Translation

  // ----- Linked lists -----

  function Cell(prefix: string, i: nat): Node { Blank(Labelled(prefix, '_', i)) }

  lemma CellsDiffer(prefix: string, i: nat, other: string, j: nat)
    requires Cell(prefix, i) == Cell(other, j)
    ensures prefix == other && i == j
  {
    LabelledInjective(prefix, i, other, j, '_');
  }

  /** The head of the list from position `i` on. */
  function CellAt(values: seq<Node>, prefix: string, i: nat): Node { if i < |values| then Cell(prefix, i) else NIL }

  function CellTriples(values: seq<Node>, prefix: string, i: nat): set<Triple>
    requires i < |values|
  {
    {Triple(Cell(prefix, i), First, values[i]), Triple(Cell(prefix, i), Rest, CellAt(values, prefix, i + 1))}
  }

  function Cells(values: seq<Node>, prefix: string, n: nat): set<Triple>
    requires n <= |values|
  {
    set i, t | 0 <= i < n && t in CellTriples(values, prefix, i) :: t
  }

  method WriteList(triples: set<Triple>, values: seq<Node>, prefix: string) returns (more: set<Triple>, head: Node)
    ensures more == triples + Cells(values, prefix, |values|) && head == CellAt(values, prefix, 0)
  {
    more := triples;
    for i := 0 to |values|
      invariant more == triples + Cells(values, prefix, i)
    {
      assert Cells(values, prefix, i + 1) == Cells(values, prefix, i) + CellTriples(values, prefix, i);
      more := more + CellTriples(values, prefix, i);
    }
    head := CellAt(values, prefix, 0);
  }

  /** The graph holds these cells, and says nothing else about cells of this name. */
  ghost predicate Written(g: Graph, values: seq<Node>, prefix: string) {
    && Cells(values, prefix, |values|) <= g.triples
    && forall t, i: nat | t in g.triples && t.subject == Cell(prefix, i) ::
      i < |values| && t in CellTriples(values, prefix, i)
  }

  /** A triple is the one of its subject and predicate. */
  lemma SoleTriple(g: Graph, t: Triple)
    requires t in g.triples
    requires forall u | u in g.triples && u.subject == t.subject && u.predicate_ == t.predicate_ :: u == t
    ensures Sole(g, t.subject, t.predicate_, t.object_)
  {
    assert t.object_ in Objects(g, t.subject, t.predicate_);
  }

  lemma CellsHold(values: seq<Node>, prefix: string, i: nat)
    requires i < |values|
    ensures CellTriples(values, prefix, i) <= Cells(values, prefix, |values|)
  {
  }

  lemma CellOnly(g: Graph, values: seq<Node>, prefix: string, i: nat, t: Triple)
    requires Written(g, values, prefix) && t in g.triples && t.subject == Cell(prefix, i)
    ensures i < |values| && t in CellTriples(values, prefix, i)
  {
    hide Cells;
    hide CellTriples;
    hide Cell;
  }

  lemma OneOfCell(values: seq<Node>, prefix: string, i: nat, t: Triple)
    requires i < |values| && t in CellTriples(values, prefix, i)
    ensures t == Triple(Cell(prefix, i), First, values[i]) || t ==
      Triple(Cell(prefix, i), Rest, CellAt(values, prefix, i + 1))
  {
    hide Cell;
    hide CellAt;
  }

  lemma CellHeld(g: Graph, values: seq<Node>, prefix: string, i: nat)
    requires Written(g, values, prefix) && i < |values|
    ensures Triple(Cell(prefix, i), First, values[i]) in g.triples
    ensures Triple(Cell(prefix, i), Rest, CellAt(values, prefix, i + 1)) in g.triples
  {
    CellsHold(values, prefix, i);
    hide Cells;
    hide Cell;
    hide CellAt;
    assert CellTriples(values, prefix, i) <= g.triples;
  }

  lemma CellSole(g: Graph, values: seq<Node>, prefix: string, i: nat)
    requires Written(g, values, prefix) && i < |values|
    ensures Sole(g, Cell(prefix, i), First, values[i])
    ensures Sole(g, Cell(prefix, i), Rest, CellAt(values, prefix, i + 1))
  {
    hide *;
    CellHeld(g, values, prefix, i);
    forall t | t in g.triples && t.subject == Cell(prefix, i)
      ensures t == Triple(Cell(prefix, i), First, values[i]) || t ==
        Triple(Cell(prefix, i), Rest, CellAt(values, prefix, i + 1))
    {
      CellOnly(g, values, prefix, i, t);
      OneOfCell(values, prefix, i, t);
    }
    SoleTriple(g, Triple(Cell(prefix, i), First, values[i]));
    SoleTriple(g, Triple(Cell(prefix, i), Rest, CellAt(values, prefix, i + 1)));
  }

  /** What is written at position `i` spells the values from there on. */
  lemma {:induction false} ListWritten(g: Graph, values: seq<Node>, prefix: string, i: nat)
    requires Written(g, values, prefix) && i <= |values|
    ensures IsList(g, CellAt(values, prefix, i), values[i..])
    decreases |values| - i
  {
    if i < |values| {
      CellSole(g, values, prefix, i);
      ListWritten(g, values, prefix, i + 1);
      assert values[i..][0] == values[i] && values[i..][1..] == values[i + 1..];
      hide Written;
      assert Sole(g, Cell(prefix, i), Rest, CellAt(values, prefix, i + 1)) &&
        IsList(g, CellAt(values, prefix, i + 1), values[i..][1..]);
    } else {
      assert values[i..] == [];
    }
  }

  /** Reading a written list back gives the values, in order. */
  lemma ListReadBack(g: Graph, values: seq<Node>, prefix: string, read: seq<Node>)
    requires Written(g, values, prefix) && IsList(g, CellAt(values, prefix, 0), read)
    ensures read == values
  {
    ListWritten(g, values, prefix, 0);
    assert values[0..] == values;
    ListUnique(g, CellAt(values, prefix, 0), read, values);
  }

  // ----- Conjunctions of binary alternatives -----

  /** How a workload names its nodes: alternatives, the list of all, the conjunction, and the two leaves of each. */
  datatype Family = Family(enumerated: bool, stem: string, joint: string, root: string, left: string, right: string,
    target: string)

  const UNIONS := Family(false, "union", "intersection", "conjunction_of_unions",
    "https://example.org/benchmark#A", "https://example.org/benchmark#B", "https://example.org/benchmark#Selected")
  const ENUMERATIONS := Family(true, "enumeration", "nominal_intersection", "conjunction_of_enumerations",
    "https://example.org/benchmark#nominal_A", "https://example.org/benchmark#nominal_B",
      "https://example.org/benchmark#SelectedNominal")

  /** Names that cannot run into one another. */
  predicate Separate(f: Family) {
    && f.joint != [] && !IsDigit(f.joint[|f.joint| - 1]) && f.root != [] && !IsDigit(f.root[|f.root| - 1])
    && f.stem != f.joint && f.left != f.right && Iri(f.target) !in {THING, NOTHING}
  }

  lemma WorkloadsSeparate()
    ensures Separate(UNIONS) && Separate(ENUMERATIONS)
  {
    assert UNIONS.stem[0] != UNIONS.joint[0] && ENUMERATIONS.stem[0] != ENUMERATIONS.joint[0];
    assert UNIONS.target[20] == 'b' && ENUMERATIONS.target[20] == 'b' && THING.text[20] == '0' &&
      NOTHING.text[20] == '0';
    assert UNIONS.left[30] != UNIONS.right[30] && ENUMERATIONS.left[38] != ENUMERATIONS.right[38];
  }

  function ListName(f: Family, i: nat): string { Labelled(f.stem + "_list", '_', i) }

  function Leaves(f: Family, i: nat): seq<Node> { [Iri(f.left + Decimal(i)), Iri(f.right + Decimal(i))] }

  function Constructor(f: Family): Predicate { if f.enumerated then Enumerates else UnionOf }

  function UnitTriple(f: Family, i: nat): Triple { Triple(Cell(f.stem, i), Constructor(f), Cell(ListName(f, i), 0)) }

  function PairTriples(f: Family, i: nat): set<Triple> { Cells(Leaves(f, i), ListName(f, i), 2) + {UnitTriple(f, i)} }

  function AllPairs(f: Family, n: nat): set<Triple> { set i, t | 0 <= i < n && t in PairTriples(f, i) :: t }

  function Units(f: Family, n: nat): (r: seq<Node>)
    ensures |r| == n && forall i | 0 <= i < n :: r[i] == Cell(f.stem, i)
  {
    seq(n, i requires 0 <= i < n => Cell(f.stem, i))
  }

  function RootTriples(f: Family, n: nat): set<Triple> {
    {Triple(Blank(f.root), IntersectionOf, CellAt(Units(f, n), f.joint, 0)),
      Triple(Blank(f.root), SUB_CLASS_OF, Iri(f.target))}
  }

  function FamilyTriples(f: Family, n: nat): set<Triple> {
    AllPairs(f, n) + Cells(Units(f, n), f.joint, n) + RootTriples(f, n)
  }

  /** Writes the class axiom of a workload; too few pairs are refused. */
  method WriteFamily(f: Family, n: nat) returns (r: Option<set<Triple>>)
    ensures r.None? <==> n < if f.enumerated then 2 else 1
    ensures r.Some? ==> r.value == FamilyTriples(f, n)
  {
    if n < (if f.enumerated then 2 else 1) { return None; }
    var triples: set<Triple> := {};
    var units: seq<Node> := [];
    for i := 0 to n
      invariant triples == AllPairs(f, i) && units == Units(f, i)
    {
      hide Cells;
      var head;
      triples, head := WriteList(triples, Leaves(f, i), ListName(f, i));
      triples := triples + {Triple(Cell(f.stem, i), Constructor(f), head)};
      units := units + [Cell(f.stem, i)];
      PairsMore(f, i);
    }
    var head;
    triples, head := WriteList(triples, units, f.joint);
    triples := triples + {Triple(Blank(f.root), IntersectionOf, head)};
    r := Some(triples + {Triple(Blank(f.root), SUB_CLASS_OF, Iri(f.target))});
  }

  lemma PairsMore(f: Family, i: nat)
    ensures AllPairs(f, i + 1) == AllPairs(f, i) + PairTriples(f, i)
  {
    hide PairTriples;
  }

  // ----- What the workload denotes -----

  /** The graph holds the workload's axiom, and nothing else about blank nodes. */
  ghost predicate Holds(g: Graph, f: Family, n: nat) {
    && FamilyTriples(f, n) <= g.triples
    && (forall t | t in g.triples && t.subject.Blank? :: t in FamilyTriples(f, n))
    && (forall d | d in g.datatypes :: d.Iri?) && Iri(f.target) !in g.datatypes
    && forall i | 0 <= i < n :: Leaves(f, i)[0] !in g.datatypes && Leaves(f, i)[1] !in g.datatypes
  }

  datatype Origin = LeafCell(i: nat, k: nat) | Unit(i: nat) | JointCell(k: nat) | Root

  lemma CellOrigin(values: seq<Node>, prefix: string, n: nat, t: Triple) returns (k: nat)
    requires n <= |values| && t in Cells(values, prefix, n)
    ensures k < n && t in CellTriples(values, prefix, k) && t.subject == Cell(prefix, k)
  {
    hide Cell;
    hide CellAt;
    k :| 0 <= k < n && t in CellTriples(values, prefix, k);
  }

  lemma OriginOf(f: Family, n: nat, t: Triple) returns (o: Origin)
    requires t in FamilyTriples(f, n)
    ensures o.LeafCell? ==> o.i < n && o.k < 2 && t in CellTriples(Leaves(f, o.i), ListName(f, o.i), o.k)
    ensures o.LeafCell? ==> t.subject == Cell(ListName(f, o.i), o.k)
    ensures o.Unit? ==> o.i < n && t == UnitTriple(f, o.i)
    ensures o.JointCell? ==> o.k < n && t in CellTriples(Units(f, n), f.joint, o.k) && t.subject == Cell(f.joint, o.k)
    ensures o.Root? ==> t in RootTriples(f, n)
  {
    hide Cell;
    hide ListName;
    hide Units;
    hide Cells;
    hide CellTriples;
    hide CellAt;
    hide RootTriples;
    if t in AllPairs(f, n) {
      var i :| 0 <= i < n && t in PairTriples(f, i);
      if t == UnitTriple(f, i) {
        o := Unit(i);
      } else {
        var k := CellOrigin(Leaves(f, i), ListName(f, i), 2, t);
        o := LeafCell(i, k);
      }
    } else if t in RootTriples(f, n) {
      o := Root;
    } else {
      var k := CellOrigin(Units(f, n), f.joint, n, t);
      o := JointCell(k);
    }
  }

  lemma NamesApart(f: Family, i: nat, k: nat)
    requires Separate(f)
    ensures ListName(f, i) != f.stem && ListName(f, i) != f.joint
    ensures Cell(f.stem, k) != Blank(f.root) && Cell(f.joint, k) != Blank(f.root)
    ensures Cell(ListName(f, i), k) != Blank(f.root)
  {
    EndsInDigit(f.stem + "_list", i);
    EndsInDigit(f.stem, k);
    EndsInDigit(f.joint, k);
    EndsInDigit(ListName(f, i), k);
    assert |ListName(f, i)| > |f.stem|;
  }

  lemma EndsInDigit(text: string, n: nat)
    ensures var t := Labelled(text, '_', n); t != [] && IsDigit(t[|t| - 1])
  {
    LastSeparator(text, '_', n);
    assert |Decimal(n)| > 0;
  }

  lemma LeavesWritten(g: Graph, f: Family, n: nat, i: nat)
    requires Separate(f) && Holds(g, f, n) && i < n
    ensures Written(g, Leaves(f, i), ListName(f, i))
  {
    hide *;
    PairHeld(g, f, n, i);
    forall t, k: nat | t in g.triples && t.subject == Cell(ListName(f, i), k)
      ensures k < 2 && t in CellTriples(Leaves(f, i), ListName(f, i), k)
    {
      LeafOrigin(g, f, n, i, k, t);
    }
    WrittenIs(g, Leaves(f, i), ListName(f, i));
  }

  lemma LeafCount(f: Family, i: nat)
    ensures |Leaves(f, i)| == 2
  {
  }

  lemma WrittenIs(g: Graph, values: seq<Node>, prefix: string)
    requires Cells(values, prefix, |values|) <= g.triples
    requires forall t, i: nat | t in g.triples && t.subject == Cell(prefix, i) ::
      i < |values| && t in CellTriples(values, prefix, i)
    ensures Written(g, values, prefix)
  {
    hide Cells;
    hide CellTriples;
    hide Cell;
  }

  lemma PairHeld(g: Graph, f: Family, n: nat, i: nat)
    requires Holds(g, f, n) && i < n
    ensures |Leaves(f, i)| == 2 && Cells(Leaves(f, i), ListName(f, i), 2) <= g.triples && UnitTriple(f, i) in g.triples
  {
    hide Cells;
    hide RootTriples;
    hide UnitTriple;
    assert forall t | t in PairTriples(f, i) :: t in AllPairs(f, n);
  }

  lemma HeldBlank(g: Graph, f: Family, n: nat, t: Triple)
    requires Holds(g, f, n) && t in g.triples && t.subject.Blank?
    ensures t in FamilyTriples(f, n)
  {
    hide FamilyTriples;
  }

  lemma RootSubject(f: Family, n: nat, t: Triple)
    requires t in RootTriples(f, n)
    ensures t.subject == Blank(f.root)
  {
    hide CellAt;
  }

  lemma LeafOrigin(g: Graph, f: Family, n: nat, i: nat, k: nat, t: Triple)
    requires Separate(f) && Holds(g, f, n) && i < n && t in g.triples && t.subject == Cell(ListName(f, i), k)
    ensures |Leaves(f, i)| == 2 && k < 2 && t in CellTriples(Leaves(f, i), ListName(f, i), k)
  {
    hide *;
    LeafCount(f, i);
    CellIsBlank(ListName(f, i), k);
    HeldBlank(g, f, n, t);
    var o := OriginOf(f, n, t);
    NamesApart(f, i, k);
    match o
    case LeafCell(j, l) =>
      CellsDiffer(ListName(f, i), k, ListName(f, j), l);
      ListNamesDiffer(f, i, j);
    case Unit(j) =>
      UnitSubject(f, j);
      CellsDiffer(ListName(f, i), k, f.stem, j);
    case JointCell(l) => CellsDiffer(ListName(f, i), k, f.joint, l);
    case Root => RootSubject(f, n, t);
  }

  lemma CellIsBlank(prefix: string, i: nat)
    ensures Cell(prefix, i).Blank?
  {
  }

  lemma ListNamesDiffer(f: Family, i: nat, j: nat)
    requires ListName(f, i) == ListName(f, j)
    ensures i == j
  {
    LabelledInjective(f.stem + "_list", i, f.stem + "_list", j, '_');
  }

  lemma UnitSubject(f: Family, i: nat)
    ensures UnitTriple(f, i).subject == Cell(f.stem, i)
  {
  }

  lemma UnitAlone(g: Graph, f: Family, n: nat, i: nat, t: Triple)
    requires Separate(f) && Holds(g, f, n) && i < n && t in g.triples && t.subject == Cell(f.stem, i)
    ensures t == UnitTriple(f, i)
  {
    hide *;
    CellIsBlank(f.stem, i);
    HeldBlank(g, f, n, t);
    var o := OriginOf(f, n, t);
    SeparateNames(f);
    match o
    case LeafCell(j, l) =>
      NamesApart(f, j, l);
      CellsDiffer(f.stem, i, ListName(f, j), l);
    case Unit(j) =>
      UnitSubject(f, j);
      CellsDiffer(f.stem, i, f.stem, j);
    case JointCell(l) => CellsDiffer(f.stem, i, f.joint, l);
    case Root =>
      NamesApart(f, i, i);
      RootSubject(f, n, t);
  }

  lemma SeparateNames(f: Family)
    requires Separate(f)
    ensures f.stem != f.joint
  {
  }

  lemma JointOrigin(g: Graph, f: Family, n: nat, k: nat, t: Triple)
    requires Separate(f) && Holds(g, f, n) && t in g.triples && t.subject == Cell(f.joint, k)
    ensures k < n && t in CellTriples(Units(f, n), f.joint, k)
  {
    hide *;
    CellIsBlank(f.joint, k);
    HeldBlank(g, f, n, t);
    var o := OriginOf(f, n, t);
    SeparateNames(f);
    match o
    case LeafCell(j, l) =>
      NamesApart(f, j, l);
      CellsDiffer(f.joint, k, ListName(f, j), l);
    case Unit(j) =>
      UnitSubject(f, j);
      CellsDiffer(f.joint, k, f.stem, j);
    case JointCell(l) => CellsDiffer(f.joint, k, f.joint, l);
    case Root =>
      NamesApart(f, k, k);
      RootSubject(f, n, t);
  }

  lemma JointHeld(g: Graph, f: Family, n: nat)
    requires Holds(g, f, n)
    ensures Cells(Units(f, n), f.joint, n) <= g.triples && RootTriples(f, n) <= g.triples
  {
    hide Cells;
    hide AllPairs;
    hide RootTriples;
  }

  lemma JointWritten(g: Graph, f: Family, n: nat)
    requires Separate(f) && Holds(g, f, n)
    ensures Written(g, Units(f, n), f.joint)
  {
    hide *;
    JointHeld(g, f, n);
    forall t, k: nat | t in g.triples && t.subject == Cell(f.joint, k)
      ensures k < n && t in CellTriples(Units(f, n), f.joint, k)
    {
      JointOrigin(g, f, n, k, t);
    }
    WrittenIs(g, Units(f, n), f.joint);
  }

  lemma RootAlone(g: Graph, f: Family, n: nat, t: Triple)
    requires Separate(f) && Holds(g, f, n) && t in g.triples && t.subject == Blank(f.root)
    ensures t in RootTriples(f, n)
  {
    hide *;
    HeldBlank(g, f, n, t);
    var o := OriginOf(f, n, t);
    match o
    case LeafCell(j, l) => NamesApart(f, j, l);
    case Unit(j) =>
      UnitSubject(f, j);
      NamesApart(f, j, j);
    case JointCell(l) => NamesApart(f, l, l);
    case Root =>
  }

  /** A node with one constructor triple, and otherwise nothing of the expression vocabulary. */
  lemma OneConstructor(g: Graph, t: Triple)
    requires t in g.triples && t.predicate_ in BOOLEANS
    requires forall u | u in g.triples && u.subject == t.subject :: u == t || u.predicate_.Other?
    ensures Shape(g, t.subject, t.predicate_) && Sole(g, t.subject, t.predicate_, t.object_)
  {
    SoleTriple(g, t);
    forall p | p in CONSTRUCTORS && Objects(g, t.subject, p) != {} ensures p == t.predicate_ {
      var o :| o in Objects(g, t.subject, p);
    }
    assert t.object_ in Objects(g, t.subject, t.predicate_);
  }

  function Alternative(f: Family, i: nat): Expr {
    if f.enumerated then OneOf(Leaves(f, i))
    else Junction(Or, [Class(f.left + Decimal(i)), Class(f.right + Decimal(i))])
  }

  function Alternatives(f: Family, n: nat): (r: seq<Expr>)
    ensures |r| == n && forall i | 0 <= i < n :: r[i] == Alternative(f, i)
  {
    seq(n, i requires 0 <= i < n => Alternative(f, i))
  }

  lemma NamedLeaf(g: Graph, text: string, i: nat)
    requires Iri(text + Decimal(i)) !in g.datatypes
    ensures Denotes(g, Iri(text + Decimal(i)), false, Class(text + Decimal(i)))
  {
    var t := text + Decimal(i);
    assert t[|t| - 1] in Decimal(i);
    assert THING.text[|THING.text| - 1] == 'g' && NOTHING.text[|NOTHING.text| - 1] == 'g';
  }

  lemma LeavesDenote(g: Graph, f: Family, n: nat, i: nat)
    requires Holds(g, f, n) && i < n
    ensures DenoteAll(g, Leaves(f, i), [Class(f.left + Decimal(i)), Class(f.right + Decimal(i))])
  {
    hide FamilyTriples;
    assert Leaves(f, i)[0] == Iri(f.left + Decimal(i)) && Leaves(f, i)[1] == Iri(f.right + Decimal(i));
    NamedLeaf(g, f.left, i);
    NamedLeaf(g, f.right, i);
    hide Denotes;
    var ns, ts := Leaves(f, i), [Class(f.left + Decimal(i)), Class(f.right + Decimal(i))];
    assert ns[1..] == [ns[1]] && ts[1..] == [ts[1]];
    assert DenoteAll(g, ns[1..][1..], ts[1..][1..]);
    assert DenoteAll(g, ns[1..], ts[1..]);
  }

  lemma AlternativeDenotes(g: Graph, f: Family, n: nat, i: nat)
    requires Separate(f) && Holds(g, f, n) && i < n
    ensures Denotes(g, Cell(f.stem, i), false, Alternative(f, i))
  {
    hide *;
    PairHeld(g, f, n, i);
    LeavesWritten(g, f, n, i);
    ListWritten(g, Leaves(f, i), ListName(f, i), 0);
    assert Leaves(f, i)[0..] == Leaves(f, i);
    FirstCell(Leaves(f, i), ListName(f, i));
    forall t | t in g.triples && t.subject == Cell(f.stem, i)
      ensures t == UnitTriple(f, i)
    {
      UnitAlone(g, f, n, i, t);
    }
    UnitSubject(f, i);
    UnitConstructor(f, i);
    OneConstructor(g, UnitTriple(f, i));
    LeavesDenote(g, f, n, i);
    UnitBuilt(g, f, n, i);
  }

  lemma FirstCell(values: seq<Node>, prefix: string)
    requires values != []
    ensures CellAt(values, prefix, 0) == Cell(prefix, 0)
  {
  }

  lemma UnitConstructor(f: Family, i: nat)
    ensures UnitTriple(f, i).predicate_ == Constructor(f) && Constructor(f) in BOOLEANS
    ensures UnitTriple(f, i).object_ == Cell(ListName(f, i), 0)
  {
  }

  lemma UnitBuilt(g: Graph, f: Family, n: nat, i: nat)
    requires Holds(g, f, n) && i < n
    requires Shape(g, Cell(f.stem, i), Constructor(f))
    requires Sole(g, Cell(f.stem, i), Constructor(f), Cell(ListName(f, i), 0))
    requires IsList(g, Cell(ListName(f, i), 0), Leaves(f, i))
    requires DenoteAll(g, Leaves(f, i), [Class(f.left + Decimal(i)), Class(f.right + Decimal(i))])
    ensures Denotes(g, Cell(f.stem, i), false, Alternative(f, i))
  {
    hide IsList;
    hide DenoteAll;
    hide Shape;
    hide Sole;
    hide ListName;
    hide FamilyTriples;
    hide Labelled;
    hide Decimal;
    assert Built(g, Cell(f.stem, i), Constructor(f), Cell(ListName(f, i), 0), Alternative(f, i));
  }

  /** The root denotes the conjunction of all the alternatives. */
  lemma FamilyDenotes(g: Graph, f: Family, n: nat)
    requires Separate(f) && Holds(g, f, n) && n > 0
    ensures Denotes(g, Blank(f.root), false, Junction(And, Alternatives(f, n)))
  {
    hide *;
    JointHeld(g, f, n);
    JointWritten(g, f, n);
    ListWritten(g, Units(f, n), f.joint, 0);
    assert Units(f, n)[0..] == Units(f, n);
    forall i | 0 <= i < n
      ensures Denotes(g, Units(f, n)[i], false, Alternatives(f, n)[i])
    {
      AlternativeDenotes(g, f, n, i);
    }
    DenoteAllFrom(g, Units(f, n), Alternatives(f, n));
    var t := Triple(Blank(f.root), IntersectionOf, CellAt(Units(f, n), f.joint, 0));
    RootHas(f, n);
    forall u | u in g.triples && u.subject == t.subject ensures u == t || u.predicate_.Other? {
      RootAlone(g, f, n, u);
      RootOnly(f, n, u);
    }
    OneConstructor(g, t);
    BlankUndeclared(g, f, n);
    RootBuilt(g, f.root, t.object_, Units(f, n), Alternatives(f, n));
  }

  lemma BlankUndeclared(g: Graph, f: Family, n: nat)
    requires Holds(g, f, n)
    ensures Blank(f.root) !in g.datatypes
  {
    hide FamilyTriples;
    hide Leaves;
  }

  lemma RootHas(f: Family, n: nat)
    ensures Triple(Blank(f.root), IntersectionOf, CellAt(Units(f, n), f.joint, 0)) in RootTriples(f, n)
    ensures Triple(Blank(f.root), SUB_CLASS_OF, Iri(f.target)) in RootTriples(f, n) && IntersectionOf in BOOLEANS
  {
  }

  lemma RootOnly(f: Family, n: nat, t: Triple)
    requires t in RootTriples(f, n)
    ensures t == Triple(Blank(f.root), IntersectionOf, CellAt(Units(f, n), f.joint, 0)) || t.predicate_.Other?
  {
    hide CellAt;
  }

  lemma RootBuilt(g: Graph, root: string, head: Node, nodes: seq<Node>, es: seq<Expr>)
    requires Shape(g, Blank(root), IntersectionOf) && Sole(g, Blank(root), IntersectionOf, head)
    requires IsList(g, head, nodes) && DenoteAll(g, nodes, es) && Blank(root) !in g.datatypes
    ensures Denotes(g, Blank(root), false, Junction(And, es))
  {
    hide IsList;
    hide DenoteAll;
    hide Shape;
    hide Sole;
    assert Built(g, Blank(root), IntersectionOf, head, Junction(And, es));
  }

  // ----- What the compiler makes of it -----

  lemma AlternativesBinary(f: Family, n: nat)
    requires Separate(f)
    ensures AllBinary(Alternatives(f, n)) && NoRepeats(Alternatives(f, n))
  {
    forall i | 0 <= i < n ensures Binary(Alternative(f, i)) { LeavesApart(f, i); }
    forall i, j | 0 <= i < j < n ensures Alternative(f, i) != Alternative(f, j) { AlternativesApart(f, i, j); }
  }

  lemma SameEnding(a: string, b: string, ending: string)
    requires a + ending == b + ending
    ensures a == b
  {
    assert |a| == |b|;
    assert a == (a + ending)[..|a|] && b == (b + ending)[..|a|];
  }

  lemma LeavesApart(f: Family, i: nat)
    requires f.left != f.right
    ensures f.left + Decimal(i) != f.right + Decimal(i)
  {
    if f.left + Decimal(i) == f.right + Decimal(i) { SameEnding(f.left, f.right, Decimal(i)); }
  }

  lemma AlternativesApart(f: Family, i: nat, j: nat)
    requires i != j
    ensures Alternative(f, i) != Alternative(f, j)
  {
    if f.left + Decimal(i) == f.left + Decimal(j) {
      assert Decimal(i) == (f.left + Decimal(i))[|f.left|..] && Decimal(j) == (f.left + Decimal(j))[|f.left|..];
      DecimalInjective(i, j);
    }
  }

  /** The workload's axiom, as the compiler reads it out of the graph. */
  lemma FamilySays(g: Graph, f: Family, n: nat)
    requires Separate(f) && Holds(g, f, n) && n >= 2
    ensures Triple(Blank(f.root), SUB_CLASS_OF, Iri(f.target)) in g.triples
    ensures Says(g, Stated(Triple(Blank(f.root), SUB_CLASS_OF, Iri(f.target))),
      [SubClass(Junction(And, Alternatives(f, n)), Class(f.target))])
  {
    hide *;
    RootHas(f, n);
    JointHeld(g, f, n);
    FamilyDenotes(g, f, n);
    AlternativesBinary(f, n);
    ConjunctionNormal(Alternatives(f, n));
    TargetDenotes(g, f, n);
    SubClassSays(g, Blank(f.root), Iri(f.target), Junction(And, Alternatives(f, n)), Class(f.target));
  }

  lemma TargetDenotes(g: Graph, f: Family, n: nat)
    requires Separate(f) && Holds(g, f, n)
    ensures Denotes(g, Iri(f.target), false, Class(f.target)) && Normalize(Class(f.target)) == Class(f.target)
  {
    hide FamilyTriples;
  }

  lemma SubClassSays(g: Graph, s: Node, o: Node, c: Expr, d: Expr)
    requires Denotes(g, s, false, c) && Normalize(c) == c && Denotes(g, o, false, d) && Normalize(d) == d
    ensures Says(g, Stated(Triple(s, SUB_CLASS_OF, o)), [SubClass(c, d)])
  {
    hide Denotes;
    hide Normalize;
    assert Meets(g, s, false, c) && Meets(g, o, false, d);
    hide Meets;
  }

  /** Two rules for each pair and two for the conjunction, where plain distribution has a term for every choice. */
  lemma FamilyCompiles(level: nat, f: Family, n: nat)
    requires Separate(f) && n >= 2 && 2 * n + 2 <= T.MAX_COMPILED_RULES && (f.enumerated ==> level >= 1)
    ensures var r := T.Compile(level, [SubClass(Junction(And, Alternatives(f, n)), Class(f.target))]);
      r.Ok? && |r.value.rules| == 2 * n + 2 && r.value.facts == {}
    ensures AllBinary(Alternatives(f, n))
    ensures var terms := T.Product(Undistributed(Alternatives(f, n), R.Var(1))); |terms| == Pow2(n) && NoRepeats(terms)
  {
    AlternativesBinary(f, n);
    assert forall i | 0 <= i < n :: Alternatives(f, n)[i].OneOf? ==> f.enumerated;
    FactoredConjunction(level, Alternatives(f, n), f.target);
  }
}
