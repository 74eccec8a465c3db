/** Simplification of class expressions: negation is pushed inwards and junctions are flattened. */
module Normalization {
  import opened Expressions
  import opened Semantics

  function Negations(es: seq<Expr>): (r: seq<Expr>)
    ensures |r| == |es|
    ensures forall i | 0 <= i < |es| :: r[i] == Not(es[i])
    ensures Weights(r) == 2 * Weights(es)
  {
    if es == [] then [] else [Not(es[0])] + Negations(es[1..])
  }

  /** The children of a junction that survive once neutral ones are dropped. */
  function Without(es: seq<Expr>, neutral: Expr): (r: seq<Expr>)
    ensures forall c :: c in r <==> c in es && c != neutral
    ensures Weights(r) <= Weights(es)
  {
    if es == [] then [] else
    assert es == [es[0]] + es[1..];
    if es[0] == neutral then Without(es[1..], neutral)
    else [es[0]] + Without(es[1..], neutral)
  }

  /** Some child is the complement of another child. */
  predicate Clash(es: seq<Expr>) {
    exists c | c in es :: c.Not? && c.operand in es
  }

  lemma {:induction false} DistinctWeights(es: seq<Expr>)
    ensures Weights(Distinct(es)) <= Weights(es)
  {
    if es != [] {
      var front, last := es[..|es| - 1], es[|es| - 1];
      assert es == front + [last];
      DistinctWeights(front);
      WeightsConcat(front, [last]);
      WeightsConcat(Distinct(front), [last]);
    }
  }

  /** A junction whose children are already simplified and flattened. */
  function Simplify(k: Junctor, children: seq<Expr>): (r: Expr)
    ensures Weight(r) <= 2 + Weights(children)
  {
    var annihilator := if k == And then Bottom else Top;
    var identity := if k == And then Top else Bottom;
    if annihilator in children then annihilator else
    var kept := Distinct(Without(children, identity));
    DistinctWeights(Without(children, identity));
    if Clash(kept) then annihilator
    else if kept == [] then identity
    else if |kept| == 1 then kept[0]
    else Junction(k, kept)
  }

  function Normalize(e: Expr): (r: Expr)
    ensures Weight(r) <= Weight(e)
    decreases Weight(e), 1
  {
    match e
    case Junction(k, args) => Simplify(k, NormalizedChildren(k, args))
    case Not(c) => Complement(Normalize(c))
    case Exists(p, c) =>
      var child := Normalize(c);
      if child.Bottom? then child
      else if child.OneOf? && |child.items| == 1 then Value(p, child.items[0])
      else Exists(p, child)
    case Forall(p, c) =>
      var child := Normalize(c);
      if child.Top? then child else Forall(p, child)
    case Min(p, n) => if n == 0 then Top else e
    case Exact(p, n) => if n == 0 then Max(p, n) else e
    case OneOf(items) => if items == [] then Bottom else OneOf(Distinct(items))
    case _ => e
  }

  /** The complement of an expression that is already in normal form. */
  function Complement(child: Expr): (r: Expr)
    ensures Weight(r) <= 2 * Weight(child)
    decreases 2 * Weight(child), 0
  {
    match child
    case Not(inner) => Normalize(inner)
    case Top => Bottom
    case Bottom => Top
    case Junction(k, args) => Normalize(Junction(k.Dual(), Negations(args)))
    case Exists(p, f) => assert Weight(Not(f)) == 2 * Weight(f); Normalize(Forall(p, Not(f)))
    case Forall(p, f) => assert Weight(Not(f)) == 2 * Weight(f); Normalize(Exists(p, Not(f)))
    case Min(p, n) => if n == 0 then Bottom else Normalize(Max(p, n - 1))
    case Max(p, n) => Normalize(Min(p, n + 1))
    case _ => Not(child)
  }

  /** Children in normal form; those with the same junctor are replaced by their own children. */
  function NormalizedChildren(k: Junctor, args: seq<Expr>): (r: seq<Expr>)
    ensures Weights(r) <= Weights(args)
    decreases Weights(args) + 1, 0
  {
    if args == [] then [] else
    var child := Normalize(args[0]);
    var first := if child.Junction? && child.junctor == k then child.args else [child];
    var rest := NormalizedChildren(k, args[1..]);
    WeightsConcat(first, rest);
    first + rest
  }

  // ----- Meaning is preserved -----

  lemma {:induction false} SimplifySound<D(!new)>(I: Interp<D>, k: Junctor, children: seq<Expr>, d: D)
    ensures Sat(I, Simplify(k, children), d) <==> Sat(I, Junction(k, children), d)
  {
    var annihilator := if k == And then Bottom else Top;
    var identity := if k == And then Top else Bottom;
    if annihilator !in children {
      var kept := Distinct(Without(children, identity));
      DistinctSpec(Without(children, identity));
      assert forall c :: c in kept <==> c in children && c != identity;
      if Clash(kept) {
        var c :| c in kept && c.Not? && c.operand in kept;
        assert Sat(I, c, d) <==> !Sat(I, c.operand, d);
      } else if |kept| == 1 {
        assert forall c :: c in kept <==> c == kept[0];
      }
    }
  }

  lemma JunctionConcat<D(!new)>(I: Interp<D>, k: Junctor, a: seq<Expr>, b: seq<Expr>, d: D)
    ensures k == And ==> (Sat(I, Junction(k, a + b), d) <==> Sat(I, Junction(k, a), d) && Sat(I, Junction(k, b), d))
    ensures k == Or ==> (Sat(I, Junction(k, a + b), d) <==> Sat(I, Junction(k, a), d) || Sat(I, Junction(k, b), d))
  {
    assert forall c :: c in a + b <==> c in a || c in b;
  }

  lemma JunctionSingle<D(!new)>(I: Interp<D>, k: Junctor, c: Expr, d: D)
    ensures Sat(I, Junction(k, [c]), d) <==> Sat(I, c, d)
  {
    assert forall x :: x in [c] <==> x == c;
  }

  lemma {:induction false} NegationsSound<D(!new)>(I: Interp<D>, k: Junctor, args: seq<Expr>, d: D)
    ensures Sat(I, Junction(k.Dual(), Negations(args)), d) <==> !Sat(I, Junction(k, args), d)
  {
    if args != [] {
      var first, rest := args[0], args[1..];
      NegationsSound(I, k, rest, d);
      assert args == [first] + rest;
      JunctionConcat(I, k, [first], rest, d);
      JunctionSingle(I, k, first, d);
      JunctionConcat(I, k.Dual(), [Not(first)], Negations(rest), d);
      JunctionSingle(I, k.Dual(), Not(first), d);
    }
  }

  lemma ExistsForallDual<D(!new)>(I: Interp<D>, p: Property, f: Expr, d: D)
    ensures Sat(I, Forall(p, Not(f)), d) <==> !Sat(I, Exists(p, f), d)
    ensures Sat(I, Exists(p, Not(f)), d) <==> !Sat(I, Forall(p, f), d)
  {
    assert forall y :: Sat(I, Not(f), y) == !Sat(I, f, y);
  }

  /** `Normalize(e)` denotes exactly the set that `e` denotes, in every interpretation. */
  lemma {:induction false} NormalizeSound<D(!new)>(I: Interp<D>, e: Expr, d: D)
    ensures Sat(I, Normalize(e), d) <==> Sat(I, e, d)
    decreases Weight(e), 1
  {
    hide Simplify;
    hide Complement;
    hide NormalizedChildren;
    match e
    case Junction(k, args) =>
      NormalizedChildrenSound(I, k, args, d);
      SimplifySound(I, k, NormalizedChildren(k, args), d);
    case Not(c) => NormalizeSound(I, c, d); ComplementSound(I, Normalize(c), d);
    case Exists(p, c) =>
      forall y { NormalizeSound(I, c, y); }
      assert Sat(I, Exists(p, Normalize(c)), d) <==> Sat(I, e, d);
      var child := Normalize(c);
      if child.OneOf? && |child.items| == 1 {
        assert forall a :: a in child.items <==> a == child.items[0];
      }
    case Forall(p, c) =>
      forall y { NormalizeSound(I, c, y); }
      assert Sat(I, Forall(p, Normalize(c)), d) <==> Sat(I, e, d);
    case Min(p, n) =>
      if n == 0 { assert Successors(I, p, d, 0, []); }
    case Exact(p, n) =>
      if n == 0 { assert Successors(I, p, d, 0, []); }
    case OneOf(items) => DistinctSpec(items);
    case _ =>
  }

  lemma {:induction false} ComplementSound<D(!new)>(I: Interp<D>, child: Expr, d: D)
    ensures Sat(I, Complement(child), d) <==> !Sat(I, child, d)
    decreases 2 * Weight(child), 0
  {
    hide Normalize;
    hide Negations;
    match child
    case Not(inner) => NormalizeSound(I, inner, d);
    case Junction(k, args) =>
      NegationsSound(I, k, args, d);
      NormalizeSound(I, Junction(k.Dual(), Negations(args)), d);
    case Exists(p, f) =>
      assert Weight(Not(f)) == 2 * Weight(f);
      NormalizeSound(I, Forall(p, Not(f)), d);
      ExistsForallDual(I, p, f, d);
    case Forall(p, f) =>
      assert Weight(Not(f)) == 2 * Weight(f);
      NormalizeSound(I, Exists(p, Not(f)), d);
      ExistsForallDual(I, p, f, d);
    case Min(p, n) =>
      if n == 0 { assert Successors(I, p, d, 0, []); } else { NormalizeSound(I, Max(p, n - 1), d); }
    case Max(p, n) => NormalizeSound(I, Min(p, n + 1), d);
    case _ =>
  }

  lemma {:induction false} NormalizedChildrenSound<D(!new)>(I: Interp<D>, k: Junctor, args: seq<Expr>, d: D)
    ensures Sat(I, Junction(k, NormalizedChildren(k, args)), d) <==> Sat(I, Junction(k, args), d)
    decreases Weights(args) + 1, 0
  {
    if args != [] {
      var child := Normalize(args[0]);
      var first := if child.Junction? && child.junctor == k then child.args else [child];
      var rest := NormalizedChildren(k, args[1..]);
      NormalizeSound(I, args[0], d);
      NormalizedChildrenSound(I, k, args[1..], d);
      JunctionSingle(I, k, child, d);
      JunctionConcat(I, k, first, rest, d);
      assert args == [args[0]] + args[1..];
      JunctionSingle(I, k, args[0], d);
      JunctionConcat(I, k, [args[0]], args[1..], d);
    }
  }

  // ----- Shape of the result -----

  /** Complements survive only over named classes, values, enumerations and positive exact cardinalities. */
  predicate Normal(e: Expr)
    decreases e
  {
    match e
    case Not(c) => Normal(c) && (c.Class? || c.Value? || c.OneOf? || c.Exact?)
    case Junction(k, args) =>
      && |args| >= 2 && NoRepeats(args) && (forall c | c in args && c.Not? :: c.operand !in args)
      && forall c | c in args :: Normal(c) && c != Top && c != Bottom && !(c.Junction? && c.junctor == k)
    case Exists(_, c) => Normal(c) && c != Bottom && !(c.OneOf? && |c.items| == 1)
    case Forall(_, c) => Normal(c) && c != Top
    case OneOf(items) => items != [] && NoRepeats(items)
    case Min(_, n) => n >= 1
    case Exact(_, n) => n >= 1
    case _ => true
  }

  /** What flattening leaves: normal children, none of them a junction of the same kind. */
  predicate Flat(k: Junctor, es: seq<Expr>) {
    forall c | c in es :: Normal(c) && !(c.Junction? && c.junctor == k)
  }

  lemma SimplifyIsNormal(k: Junctor, children: seq<Expr>)
    requires Flat(k, children)
    ensures Normal(Simplify(k, children))
  {
    DistinctSpec(Without(children, if k == And then Top else Bottom));
  }

  lemma {:induction false} NormalizeIsNormal(e: Expr)
    ensures Normal(Normalize(e))
    decreases Weight(e), 1
  {
    match e
    case Junction(k, args) =>
      NormalizedChildrenAreFlat(k, args);
      SimplifyIsNormal(k, NormalizedChildren(k, args));
    case Not(c) => NormalizeIsNormal(c); ComplementIsNormal(Normalize(c));
    case Exists(_, c) => NormalizeIsNormal(c);
    case Forall(_, c) => NormalizeIsNormal(c);
    case OneOf(items) => DistinctSpec(items);
    case _ =>
  }

  lemma {:induction false} ComplementIsNormal(child: Expr)
    requires Normal(child)
    ensures Normal(Complement(child))
    decreases 2 * Weight(child), 0
  {
    match child
    case Not(inner) => NormalizeIsNormal(inner);
    case Junction(k, args) => NormalizeIsNormal(Junction(k.Dual(), Negations(args)));
    case Exists(p, f) => assert Weight(Not(f)) == 2 * Weight(f); NormalizeIsNormal(Forall(p, Not(f)));
    case Forall(p, f) => assert Weight(Not(f)) == 2 * Weight(f); NormalizeIsNormal(Exists(p, Not(f)));
    case _ =>
  }

  lemma {:induction false} NormalizedChildrenAreFlat(k: Junctor, args: seq<Expr>)
    ensures Flat(k, NormalizedChildren(k, args))
    decreases Weights(args) + 1, 0
  {
    if args != [] {
      NormalizeIsNormal(args[0]);
      NormalizedChildrenAreFlat(k, args[1..]);
    }
  }

  lemma {:induction false} NormalChildrenUnchanged(k: Junctor, es: seq<Expr>)
    requires Flat(k, es)
    ensures NormalizedChildren(k, es) == es
    decreases es, 0
  {
    if es != [] {
      assert es[0] in es;
      NormalUnchanged(es[0]);
      assert es == [es[0]] + es[1..];
      NormalChildrenUnchanged(k, es[1..]);
    }
  }

  lemma {:induction false} WithoutUnchanged(es: seq<Expr>, neutral: Expr)
    requires neutral !in es
    ensures Without(es, neutral) == es
  {
    if es != [] {
      assert es[0] in es && es == [es[0]] + es[1..];
      WithoutUnchanged(es[1..], neutral);
    }
  }

  lemma SimplifyUnchanged(k: Junctor, args: seq<Expr>)
    requires Normal(Junction(k, args))
    ensures Simplify(k, args) == Junction(k, args)
  {
    WithoutUnchanged(args, if k == And then Top else Bottom);
    DistinctIsIdentity(args);
  }

  lemma {:induction false} NormalUnchanged(e: Expr)
    requires Normal(e)
    ensures Normalize(e) == e
    decreases e, 1
  {
    hide Simplify;
    match e
    case Junction(k, args) =>
      NormalChildrenUnchanged(k, args);
      SimplifyUnchanged(k, args);
    case Not(c) => NormalUnchanged(c);
    case Exists(_, c) => NormalUnchanged(c);
    case Forall(_, c) => NormalUnchanged(c);
    case OneOf(items) => DistinctIsIdentity(items);
    case _ =>
  }

  /** Simplifying twice changes nothing. */
  lemma {:induction false} NormalizeIdempotent(e: Expr)
    ensures Normalize(Normalize(e)) == Normalize(e)
  {
    NormalizeIsNormal(e);
    NormalUnchanged(Normalize(e));
  }
}
