/** Class expressions of the description logic, with the measures used on them. */
module Expressions {

  /** RDF terms. Integer literals are kept apart because cardinalities read them. */
  datatype Node = Iri(text: string) | Blank(text: string) | IntegerLiteral(value: int) | OtherLiteral(text: string)

  /** A property in a given direction. */
  datatype Property = Property(name: string, inverse: bool)
  {
    function Flip(): Property { Property(name, !inverse) }
  }

  datatype Junctor = And | Or
  {
    function Dual(): Junctor { if this == And then Or else And }
  }

  datatype Expr =
    | Top
    | Bottom
    | Class(name: string)
    | Not(operand: Expr)
    | Junction(junctor: Junctor, args: seq<Expr>)
    | Exists(prop: Property, filler: Expr)
    | Forall(prop: Property, filler: Expr)
    | Value(prop: Property, individual: Node)
    | OneOf(items: seq<Node>)
    | Min(prop: Property, n: nat)
    | Max(prop: Property, n: nat)
    | Exact(prop: Property, n: nat)

  /** A size that doubles under complement, so that pushing a complement inwards always pays. */
  function Weight(e: Expr): (w: nat)
    ensures w >= 1
    decreases e, 1
  {
    match e
    case Top => 1
    case Bottom => 1
    case Class(_) => 1
    case Not(c) => 2 * Weight(c)
    case Junction(_, args) => 2 + Weights(args)
    case Exists(_, c) => 1 + Weight(c)
    case Forall(_, c) => 1 + Weight(c)
    case Value(_, _) => 1
    case OneOf(_) => 2
    case Min(_, _) => 2
    case Max(_, _) => 2
    case Exact(_, _) => 3
  }

  function Weights(es: seq<Expr>): (w: nat)
    ensures w >= |es|
    decreases es, 0
  {
    if es == [] then 0 else Weight(es[0]) + Weights(es[1..])
  }

  lemma {:induction false} WeightsConcat(a: seq<Expr>, b: seq<Expr>)
    ensures Weights(a + b) == Weights(a) + Weights(b)
  {
    if a == [] {
      assert a + b == b;
    } else {
      WeightsConcat(a[1..], b);
      assert (a + b)[0] == a[0] && (a + b)[1..] == a[1..] + b;
    }
  }

  lemma {:induction false} WeightOfMember(es: seq<Expr>, i: nat)
    requires i < |es|
    ensures Weight(es[i]) <= Weights(es)
  {
    if i > 0 {
      WeightOfMember(es[1..], i - 1);
    }
  }

  /** The items of `s` in order of first occurrence. */
  function Distinct<T(==)>(s: seq<T>): (r: seq<T>)
    ensures |r| <= |s|
  {
    if s == [] then []
    else
      var r := Distinct(s[..|s| - 1]);
      var last := s[|s| - 1];
      if last in r then r else r + [last]
  }

  predicate NoRepeats<T(==)>(s: seq<T>) {
    forall i, j | 0 <= i < j < |s| :: s[i] != s[j]
  }

  /** `Distinct` keeps every item, adds none, and repeats none. */
  lemma {:induction false} DistinctSpec<T(!new)>(s: seq<T>)
    ensures forall x :: x in Distinct(s) <==> x in s
    ensures NoRepeats(Distinct(s))
  {
    if s != [] {
      DistinctSpec(s[..|s| - 1]);
      assert s == s[..|s| - 1] + [s[|s| - 1]];
    }
  }

  lemma {:induction false} DistinctIsIdentity<T(!new)>(s: seq<T>)
    requires NoRepeats(s)
    ensures Distinct(s) == s
  {
    if s != [] {
      DistinctIsIdentity(s[..|s| - 1]);
      DistinctSpec(s[..|s| - 1]);
      assert s == s[..|s| - 1] + [s[|s| - 1]];
    }
  }
}
