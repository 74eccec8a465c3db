/** Set semantics of class expressions, after the OWL 2 Direct Semantics (W3C), sections 2.2.1 and 2.2.3. */
module Semantics {
  import opened Expressions

  /** An interpretation over the domain `D`. */
  datatype Interp<!D> = Interp(
    classes: (string, D) -> bool,
    roles: (string, D, D) -> bool,
    individuals: Node -> D)

  ghost predicate Related<D>(I: Interp<D>, p: Property, a: D, b: D) {
    if p.inverse then I.roles(p.name, b, a) else I.roles(p.name, a, b)
  }

  /** `ys` lists `n` different successors of `d`. */
  ghost predicate Successors<D>(I: Interp<D>, p: Property, d: D, n: nat, ys: seq<D>) {
    && |ys| == n
    && (forall i | 0 <= i < n :: Related(I, p, d, ys[i]))
    && (forall i, j | 0 <= i < j < n :: ys[i] != ys[j])
  }

  ghost predicate AtLeast<D(!new)>(I: Interp<D>, p: Property, d: D, n: nat) {
    exists ys: seq<D> :: Successors(I, p, d, n, ys)
  }

  /** Membership of `d` in the extension of `e`. */
  ghost predicate Sat<D(!new)>(I: Interp<D>, e: Expr, d: D)
    decreases e
  {
    match e
    case Top => true
    case Bottom => false
    case Class(c) => I.classes(c, d)
    case Not(c) => !Sat(I, c, d)
    case Junction(And, args) => forall c | c in args :: Sat(I, c, d)
    case Junction(Or, args) => exists c | c in args :: Sat(I, c, d)
    case Exists(p, c) => exists y :: Related(I, p, d, y) && Sat(I, c, y)
    case Forall(p, c) => forall y :: Related(I, p, d, y) ==> Sat(I, c, y)
    case Value(p, a) => Related(I, p, d, I.individuals(a))
    case OneOf(items) => exists a | a in items :: d == I.individuals(a)
    case Min(p, n) => AtLeast(I, p, d, n)
    case Max(p, n) => !AtLeast(I, p, d, n + 1)
    case Exact(p, n) => AtLeast(I, p, d, n) && !AtLeast(I, p, d, n + 1)
  }
}
