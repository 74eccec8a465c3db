/** Where the variables and Skolem terms of translated antecedents can occur. */
module Scoping {
  import opened Expressions
  import opened Rules
  import opened Results
  import opened Translation

  predicate Plain(a: Atom) {
    !a.t.Skolem? && (a.RoleAtom? || a.EqAtom? || a.NeqAtom? ==> !a.s.Skolem?)
  }

  predicate AtomBelow(a: Atom, n: nat) { forall i | i in AtomVars(a) :: i <= n }

  predicate BodyBelow(body: seq<Atom>, n: nat) { forall a | a in body :: AtomBelow(a, n) }

  predicate TermBelow(t: Term, n: nat) { forall i | i in TermVars(t) :: i <= n }

  /** Variables up to `n`, no Skolem terms, and `x` occurs. */
  predicate Scoped(body: seq<Atom>, x: Term, n: nat) {
    && (forall a | a in body :: Plain(a) && AtomBelow(a, n))
    && (x.Var? ==> exists a | a in body :: x.id in AtomVars(a))
  }

  predicate AllScoped(alternatives: seq<seq<Atom>>, x: Term, n: nat) {
    forall b | b in alternatives :: Scoped(b, x, n)
  }

  lemma ScopedLater(alternatives: seq<seq<Atom>>, x: Term, m: nat, n: nat)
    requires AllScoped(alternatives, x, m) && m <= n
    ensures AllScoped(alternatives, x, n)
  {
    forall b | b in alternatives ensures Scoped(b, x, n) {
      forall a | a in b ensures Plain(a) && AtomBelow(a, n) { }
    }
  }

  lemma {:induction false} CrossMember(left: seq<seq<Atom>>, right: seq<seq<Atom>>, b: seq<Atom>)
      returns (l: seq<Atom>, r: seq<Atom>)
    requires b in Cross(left, right)
    ensures l in left && r in right && b == l + r
  {
    if b in Prefixed(left[0], right) {
      var i :| 0 <= i < |right| && Prefixed(left[0], right)[i] == b;
      l, r := left[0], right[i];
    } else {
      l, r := CrossMember(left[1..], right, b);
    }
  }

  lemma {:induction false} CrossContains(left: seq<seq<Atom>>, right: seq<seq<Atom>>, l: seq<Atom>, r: seq<Atom>)
    requires l in left && r in right
    ensures l + r in Cross(left, right)
  {
    if l == left[0] {
      var i :| 0 <= i < |right| && right[i] == r;
      assert Prefixed(left[0], right)[i] == l + r;
    } else {
      assert left == [left[0]] + left[1..];
      CrossContains(left[1..], right, l, r);
    }
  }

  /** Joining a scoped alternative with any other plain, bounded one keeps it scoped. */
  lemma ScopedJoin(l: seq<Atom>, r: seq<Atom>, x: Term, n: nat)
    requires Scoped(l, x, n) && forall a | a in r :: Plain(a) && AtomBelow(a, n)
    ensures Scoped(l + r, x, n)
  {
  }

  lemma {:induction false} BodyScoped(level: nat, st: State, e: Expr, x: Term, factor: bool)
    requires Body(level, st, e, x, factor).Ok?
    requires !x.Skolem? && TermBelow(x, st.counter)
    ensures var r := Body(level, st, e, x, factor).value; AllScoped(r.alternatives, x, r.st.counter)
    decreases Weight(e), if factor then 2 else 0
  {
    var r := Body(level, st, e, x, factor).value;
    if factor && Factored(e) {
      SingleScoped(BodyName(e, x), x, r.st.counter);
    } else {
      match e
      case Junction(And, args) =>
        if args != [] {
          PartsScoped(level, st, args, x);
        } else {
          BodyScoped(level, st, Top, x, true);
        }
      case Junction(Or, args) => UnionScoped(level, st, args, x);
      case Exists(p, c) => ExistsScoped(level, st, p, c, x);
      case OneOf(items) => EnumeratedScoped(items, x, st.counter);
      case Bottom =>
      case Class(c) => SingleScoped(ClassAtom(c, x), x, st.counter);
      case Value(p, a) => SingleScoped(RoleFor(p, x, Const(a)), x, st.counter);
      case Min(p, n) =>
        if n == 1 {
          SingleScoped(RoleFor(p, x, st.Next()), x, st.counter + 1);
        } else {
          SingleScoped(TopAtom(x), x, st.counter);
        }
      case Top => SingleScoped(TopAtom(x), x, st.counter);
      case _ => assert false;
    }
  }

  lemma SingleScoped(a: Atom, x: Term, n: nat)
    requires Plain(a) && AtomBelow(a, n) && (x.Var? ==> x.id in AtomVars(a))
    ensures AllScoped([[a]], x, n)
  {
    assert [a][0] == a;
  }

  lemma EnumeratedScoped(items: seq<Node>, x: Term, n: nat)
    requires !x.Skolem? && TermBelow(x, n)
    ensures AllScoped(Enumerated(items, x), x, n)
  {
    forall b | b in Enumerated(items, x) ensures Scoped(b, x, n) {
      var i :| 0 <= i < |items| && Enumerated(items, x)[i] == b;
      assert b[0] == TopAtom(x) && AtomVars(b[0]) == TermVars(x);
    }
  }

  lemma {:induction false} ExistsScoped(level: nat, st: State, p: Property, c: Expr, x: Term)
    requires Body(level, st, Exists(p, c), x, false).Ok?
    requires !x.Skolem? && TermBelow(x, st.counter)
    ensures var r := Body(level, st, Exists(p, c), x, false).value; AllScoped(r.alternatives, x, r.st.counter)
    decreases Weight(c), 3
  {
    hide Scoped;
    var r := Body(level, st, Exists(p, c), x, false).value;
    var y := st.Next();
    BodyScoped(level, st.Bump(), c, y, true);
    var inner := Body(level, st.Bump(), c, y, true).value;
    forall b | b in r.alternatives ensures Scoped(b, x, r.st.counter) {
      var i :| 0 <= i < |inner.alternatives| && r.alternatives[i] == b;
      assert b == [RoleFor(p, x, y)] + inner.alternatives[i];
      assert inner.alternatives[i] in inner.alternatives;
      LinkedScoped(p, x, y, inner.alternatives[i], r.st.counter);
    }
  }

  lemma LinkedScoped(p: Property, x: Term, y: Term, b: seq<Atom>, n: nat)
    requires !x.Skolem? && TermBelow(x, n) && !y.Skolem? && TermBelow(y, n) && Scoped(b, y, n)
    ensures Scoped([RoleFor(p, x, y)] + b, x, n)
  {
    var more := [RoleFor(p, x, y)] + b;
    assert more[0] == RoleFor(p, x, y) && (x.Var? ==> x.id in AtomVars(more[0]));
  }

  /** What `Product` over the parts can contain. */
  lemma {:induction false} PartsScoped(level: nat, st: State, args: seq<Expr>, x: Term)
    requires args != [] && BodyParts(level, st, args, x).Ok?
    requires !x.Skolem? && TermBelow(x, st.counter)
    ensures var r := BodyParts(level, st, args, x).value; AllScoped(Product(r.parts), x, r.st.counter)
    decreases Weights(args) + 1, 0
  {
    var first := (if args[0].OneOf? then BodyReference(level, st, args[0], x) else
      Body(level, st, args[0], x, true)).value;
    var rest := BodyParts(level, first.st, args[1..], x).value;
    var r := BodyParts(level, st, args, x).value;
    if args[0].OneOf? {
      SingleScoped(BodyName(args[0], x), x, first.st.counter);
    } else {
      BodyScoped(level, st, args[0], x, true);
    }
    ScopedLater(first.alternatives, x, first.st.counter, r.st.counter);
    if args[1..] != [] {
      PartsScoped(level, first.st, args[1..], x);
    }
    assert r.parts[0] == first.alternatives && r.parts[1..] == rest.parts;
    forall b | b in Product(r.parts) ensures Scoped(b, x, r.st.counter) {
      var l, t := CrossMember(first.alternatives, Product(rest.parts), b);
      ScopedJoin(l, t, x, r.st.counter);
    }
  }

  lemma {:induction false} UnionScoped(level: nat, st: State, args: seq<Expr>, x: Term)
    requires BodyUnion(level, st, args, x).Ok?
    requires !x.Skolem? && TermBelow(x, st.counter)
    ensures var r := BodyUnion(level, st, args, x).value; AllScoped(r.alternatives, x, r.st.counter)
    decreases Weights(args) + 1, 0
  {
    if args != [] {
      var first := Body(level, st, args[0], x, true).value;
      var r := BodyUnion(level, st, args, x).value;
      BodyScoped(level, st, args[0], x, true);
      ScopedLater(first.alternatives, x, first.st.counter, r.st.counter);
      UnionScoped(level, first.st, args[1..], x);
    }
  }
}
