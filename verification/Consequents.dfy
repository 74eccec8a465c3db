/** Emitted consequents make their expression true wherever their antecedent is. */
module Consequents {
  import opened Options
  import opened Expressions
  import opened Semantics
  import opened Normalization
  import opened Axioms
  import opened Rules
  import opened Structures
  import opened Translation
  import opened Scoping
  import opened Antecedents

  /** How heavy a filler may be for its description to be relied on while `e` is described at `x`. */
  function HeadBound(e: Expr, x: Term): int { if x.Skolem? then Weight(e) else Weight(e) - 1 }

  /** The tables a consequent may rely on. */
  ghost predicate Tables<D(!new)>(S: Structure<D>, st: State, bound: int) {
    AllDefined(S, st.bodyDefs) && DescribedTo(S, st.headDefs, bound)
  }

  ghost predicate InScope(x: Term, body: seq<Atom>, st: State) {
    TermBelow(x, st.counter) && BodyBelow(body, st.counter)
  }

  /** A completed antecedent leaves every body definition in force. */
  lemma BodyKeepsTables<D(!new)>(level: nat, S: Structure<D>, st: State, e: Expr, x: Term, bound: int)
    requires Body(level, st, e, x, true).Ok?
    requires Holds(S, Body(level, st, e, x, true).value.st)
    requires Tables(S, st, bound)
    ensures Tables(S, Body(level, st, e, x, true).value.st, bound)
  {
    hide Emit;
    BodyDefines(level, S, st, e, x, true);
  }

  /** What a rule head establishes: membership wherever the rule body is true. */
  lemma {:induction false} HeadMeans<D(!new)>(level: nat, S: Structure<D>, st: State, e: Expr, x: Term,
      body: seq<Atom>, v: nat -> D)
    requires Head(level, st, e, x, body).Ok?
    requires Holds(S, Head(level, st, e, x, body).value)
    requires Tables(S, st, HeadBound(e, x)) && InScope(x, body, st)
    requires BodyTrue(S, v, body)
    ensures Sat(S.base, e, Eval(S, v, x))
    decreases Weight(e), if x.Skolem? then 2 else 1, 0
  {
    hide Emit;
    var after := Head(level, st, e, x, body).value;
    if Named(e, x) {
      var named := Emit(st, Some(HeadName(e, x)), body).value;
      HoldsEarlier(S, named, after);
      EmitMeans(S, st, Some(HeadName(e, x)), body, v);
      NamedDescribed(level, S, st, e, x, body);
    } else {
      match e
      case Junction(And, args) => if args != [] { HeadEachMeans(level, S, st, args, x, body, v); }
      case Junction(Or, args) => HeadOrMeans(level, S, st, args, x, body, v);
      case Forall(p, c) => HeadForallMeans(level, S, st, p, c, x, body, v);
      case Exists(p, c) => HeadExistsMeans(level, S, st, p, c, x, body, v);
      case Not(c) => HeadNotMeans(level, S, st, c, x, body, v);
      case _ => HeadLeafMeans(level, S, st, e, x, body, v);
    }
  }

  predicate Leaf(e: Expr) { !e.Junction? && !e.Forall? && !e.Exists? && !e.Not? }

  lemma HeadLeafMeans<D(!new)>(level: nat, S: Structure<D>, st: State, e: Expr, x: Term, body: seq<Atom>, v: nat -> D)
    requires Leaf(e) && !Named(e, x) && Head(level, st, e, x, body).Ok?
    requires Holds(S, Head(level, st, e, x, body).value)
    requires InScope(x, body, st) && BodyTrue(S, v, body)
    ensures Sat(S.base, e, Eval(S, v, x))
  {
    hide Emit;
    match e
    case Class(c) => EmitMeans(S, st, Some(ClassAtom(c, x)), body, v);
    case Top =>
    case Bottom => EmitMeans(S, st, None, body, v);
    case Value(p, a) =>
      EmitMeans(S, st, Some(RoleFor(p, x, Const(a))), body, v);
      RoleForTrue(S, v, p, x, Const(a));
    case OneOf(items) =>
      if items == [] {
        EmitMeans(S, st, None, body, v);
      } else {
        EmitMeans(S, st, Some(EqAtom(x, Const(items[0]))), body, v);
        assert items[0] in items;
      }
    case Min(p, n) => HeadMinMeans(level, S, st, p, n, x, body, v);
    case Max(p, n) => HeadMaxMeans(level, S, st, p, n, x, body, v);
    case Exact(p, n) =>
      var atLeast := HeadMin(level, st, p, n, x, body).value;
      HoldsEarlier(S, atLeast, Head(level, st, e, x, body).value);
      HeadMinMeans(level, S, st, p, n, x, body, v);
      HeadMaxMeans(level, S, atLeast, p, n, x, body, v);
  }

  lemma {:induction false} HeadExistsMeans<D(!new)>(level: nat, S: Structure<D>, st: State, p: Property, c: Expr,
      x: Term, body: seq<Atom>, v: nat -> D)
    requires !x.Skolem? && Head(level, st, Exists(p, c), x, body).Ok?
    requires Holds(S, Head(level, st, Exists(p, c), x, body).value)
    requires Tables(S, st, Weight(c)) && InScope(x, body, st)
    requires BodyTrue(S, v, body)
    ensures Sat(S.base, Exists(p, c), Eval(S, v, x))
    decreases Weight(c), 3, 0
  {
    hide Emit;
    if c.Bottom? {
      EmitMeans(S, st, None, body, v);
    } else {
      var w := Witness(Exists(p, c), x, 0);
      var linked := Emit(st, Some(RoleFor(p, x, w)), body).value;
      HoldsEarlier(S, linked, Head(level, st, Exists(p, c), x, body).value);
      EmitMeans(S, st, Some(RoleFor(p, x, w)), body, v);
      RoleForTrue(S, v, p, x, w);
      assert TermVars(w) == TermVars(x) && linked.counter == st.counter;
      HeadMeans(level, S, linked, c, w, body, v);
    }
  }

  /** Naming a witness filler leaves it, and all it newly names, described. */
  lemma {:induction false} NamedDescribed<D(!new)>(level: nat, S: Structure<D>, st: State, e: Expr, x: Term,
      body: seq<Atom>)
    requires Named(e, x) && Head(level, st, e, x, body).Ok?
    requires Holds(S, Head(level, st, e, x, body).value)
    requires Tables(S, st, Weight(e))
    ensures Described(S, e)
    ensures AllDefined(S, Head(level, st, e, x, body).value.bodyDefs)
    ensures AllDescribed(S, Head(level, st, e, x, body).value.headDefs - st.headDefs)
    decreases Weight(e), 1, 2
  {
    hide Emit;
    var named := Emit(st, Some(HeadName(e, x)), body).value;
    if e !in named.headDefs {
      var entered := named.(headDefs := named.headDefs + {e});
      var y := entered.Next();
      var premise := [HeadName(e, y)];
      forall d: D | S.headNames(e, d) ensures Sat(S.base, e, d) {
        var v := Constantly(d);
        assert BodyTrue(S, v, premise);
        HeadMeans(level, S, entered.Bump(), e, y, premise, v);
      }
      HeadDescribes(level, S, entered.Bump(), e, y, premise);
    }
  }

  lemma {:induction false} HeadForallMeans<D(!new)>(level: nat, S: Structure<D>, st: State, p: Property, c: Expr,
      x: Term, body: seq<Atom>, v: nat -> D)
    requires Head(level, st.Bump(), c, st.Next(), body + [RoleFor(p, x, st.Next())]).Ok?
    requires Holds(S, Head(level, st.Bump(), c, st.Next(), body + [RoleFor(p, x, st.Next())]).value)
    requires Tables(S, st, Weight(c) - 1) && InScope(x, body, st)
    requires BodyTrue(S, v, body)
    ensures Sat(S.base, Forall(p, c), Eval(S, v, x))
    decreases Weight(c), 3, 0
  {
    hide Emit;
    var y := st.Next();
    forall d: D | Related(S.base, p, Eval(S, v, x), d) ensures Sat(S.base, c, d) {
      var w := Assign(v, st.counter + 1, d);
      BodyTrueTo(S, v, w, body, st.counter);
      EvalTo(S, v, w, x, st.counter);
      assert AtomTrue(S, w, RoleFor(p, x, y));
      HeadMeans(level, S, st.Bump(), c, y, body + [RoleFor(p, x, y)], w);
    }
  }

  lemma {:induction false} HeadNotMeans<D(!new)>(level: nat, S: Structure<D>, st: State, c: Expr, x: Term,
      body: seq<Atom>, v: nat -> D)
    requires !x.Skolem? && Head(level, st, Not(c), x, body).Ok?
    requires Holds(S, Head(level, st, Not(c), x, body).value)
    requires AllDefined(S, st.bodyDefs) && InScope(x, body, st)
    requires BodyTrue(S, v, body)
    ensures !Sat(S.base, c, Eval(S, v, x))
  {
    hide Emit;
    if Sat(S.base, c, Eval(S, v, x)) {
      var negative := Body(level, st, c, x, true).value;
      var clauses := Clauses(None, body, negative.alternatives);
      HoldsEarlier(S, negative.st, EmitAll(negative.st, clauses).value);
      var alt, w := BodyCovers(level, S, st, c, x, true, v);
      var i :| 0 <= i < |negative.alternatives| && negative.alternatives[i] == alt;
      BodyTrueTo(S, v, w, body, st.counter);
      EmitAllMeans(S, negative.st, clauses, i, w);
    }
  }

  lemma {:induction false} HeadOrMeans<D(!new)>(level: nat, S: Structure<D>, st: State, args: seq<Expr>, x: Term,
      body: seq<Atom>, v: nat -> D)
    requires !x.Skolem? && Head(level, st, Junction(Or, args), x, body).Ok?
    requires Holds(S, Head(level, st, Junction(Or, args), x, body).value)
    requires Tables(S, st, Weights(args) + 1) && InScope(x, body, st)
    requires BodyTrue(S, v, body)
    ensures Sat(S.base, Junction(Or, args), Eval(S, v, x))
    decreases Weights(args) + 1, 4, 0
  {
    hide Emit;
    hide Body;
    hide HeadOver;
    hide Normalize;
    hide NegatedOperands;
    hide Positives;
    if args == [] {
      EmitMeans(S, st, None, body, v);
    } else if |args| == 1 {
      HeadMeans(level, S, st, args[0], x, body, v);
    } else if !Sat(S.base, Junction(Or, args), Eval(S, v, x)) {
      var negatives, positives := NegatedOperands(args), Positives(args);
      var d := Eval(S, v, x);
      var conj := Junction(And, negatives);
      forall c | c in negatives ensures Sat(S.base, c, d) { assert Not(c) in args && !Sat(S.base, Not(c), d); }
      NormalizeSound(S.base, conj, d);
      var extra := Body(level, st, Normalize(conj), x, true).value;
      var target := if positives == [] then Bottom else positives[0];
      var after := HeadOver(level, extra.st, target, x, body, extra.alternatives).value;
      HoldsEarlier(S, extra.st, after);
      var alt, w := BodyCovers(level, S, st, Normalize(conj), x, true, v);
      BodyKeepsTables(level, S, st, Normalize(conj), x, Weights(args) + 1);
      BodyTrueTo(S, v, w, body, st.counter);
      EvalTo(S, v, w, x, st.counter);
      BodyScoped(level, st, Normalize(conj), x, true);
      assert target in args || target == Bottom;
      HeadOverMeans(level, S, extra.st, target, x, body, extra.alternatives, alt, w);
    }
  }

  lemma BelowLater(body: seq<Atom>, alternatives: seq<seq<Atom>>, m: nat, n: nat)
    requires m <= n && BodyBelow(body, m) && forall b | b in alternatives :: BodyBelow(b, m)
    ensures BodyBelow(body, n) && forall b | b in alternatives :: BodyBelow(b, n)
  {
    forall b, a | b in alternatives && a in b ensures AtomBelow(a, n) { assert AtomBelow(a, m); }
  }

  lemma {:induction false} HeadKeepsTables<D(!new)>(level: nat, S: Structure<D>, st: State, e: Expr, x: Term,
      body: seq<Atom>, bound: int)
    requires Head(level, st, e, x, body).Ok?
    requires Holds(S, Head(level, st, e, x, body).value)
    requires Tables(S, st, bound) && HeadBound(e, x) <= bound
    ensures Tables(S, Head(level, st, e, x, body).value, bound)
    ensures AllDescribed(S, Head(level, st, e, x, body).value.headDefs - st.headDefs)
    decreases Weight(e), if x.Skolem? then 2 else 1, 1
  {
    hide Emit;
    HeadDescribes(level, S, st, e, x, body);
  }

  lemma {:induction false} HeadOverMeans<D(!new)>(level: nat, S: Structure<D>, st: State, e: Expr, x: Term,
      body: seq<Atom>, alternatives: seq<seq<Atom>>, alt: seq<Atom>, v: nat -> D)
    requires !x.Skolem? && HeadOver(level, st, e, x, body, alternatives).Ok?
    requires Holds(S, HeadOver(level, st, e, x, body, alternatives).value)
    requires Tables(S, st, Weight(e)) && InScope(x, body, st)
    requires forall b | b in alternatives :: BodyBelow(b, st.counter)
    requires alt in alternatives && BodyTrue(S, v, body) && BodyTrue(S, v, alt)
    ensures Sat(S.base, e, Eval(S, v, x))
    decreases Weight(e), 3, |alternatives|
  {
    hide Emit;
    var first := Head(level, st, e, x, body + alternatives[0]).value;
    HoldsEarlier(S, first, HeadOver(level, st, e, x, body, alternatives).value);
    if alt == alternatives[0] {
      HeadMeans(level, S, st, e, x, body + alternatives[0], v);
    } else {
      assert alternatives == [alternatives[0]] + alternatives[1..];
      HeadKeepsTables(level, S, st, e, x, body + alternatives[0], Weight(e));
      BelowLater(body, alternatives[1..], st.counter, first.counter);
      HeadOverMeans(level, S, first, e, x, body, alternatives[1..], alt, v);
    }
  }

  lemma {:induction false} HeadEachMeans<D(!new)>(level: nat, S: Structure<D>, st: State, args: seq<Expr>, x: Term,
      body: seq<Atom>, v: nat -> D)
    requires !x.Skolem? && HeadEach(level, st, args, x, body).Ok?
    requires Holds(S, HeadEach(level, st, args, x, body).value)
    requires Tables(S, st, Weights(args)) && InScope(x, body, st)
    requires BodyTrue(S, v, body)
    ensures forall c | c in args :: Sat(S.base, c, Eval(S, v, x))
    decreases Weights(args) + 1, 3, 0
  {
    hide Emit;
    if args != [] {
      var first := Head(level, st, args[0], x, body).value;
      HoldsEarlier(S, first, HeadEach(level, st, args, x, body).value);
      HeadMeans(level, S, st, args[0], x, body, v);
      HeadKeepsTables(level, S, st, args[0], x, body, Weights(args));
      HeadEachMeans(level, S, first, args[1..], x, body, v);
      assert args == [args[0]] + args[1..];
    }
  }

  lemma DifferentMeans<D(!new)>(S: Structure<D>, st: State, terms: seq<Term>, body: seq<Atom>, i: nat, j: nat,
      v: nat -> D)
    requires EmitAll(st, Different(Combinations(terms), body)).Ok?
    requires Holds(S, EmitAll(st, Different(Combinations(terms), body)).value)
    requires i < j < |terms| && BodyTrue(S, v, body)
    ensures Eval(S, v, terms[i]) != Eval(S, v, terms[j])
  {
    hide Emit;
    var pairs := Combinations(terms);
    CombinationsAre(terms, i, j);
    var k :| 0 <= k < |pairs| && pairs[k] == (terms[i], terms[j]);
    EmitAllMeans(S, st, Different(pairs, body), k, v);
  }

  lemma HeadMinMeans<D(!new)>(level: nat, S: Structure<D>, st: State, p: Property, n: nat, x: Term, body: seq<Atom>,
      v: nat -> D)
    requires HeadMin(level, st, p, n, x, body).Ok?
    requires Holds(S, HeadMin(level, st, p, n, x, body).value)
    requires BodyTrue(S, v, body)
    ensures AtLeast(S.base, p, Eval(S, v, x), n)
  {
    hide Emit;
    hide Combinations;
    if n == 0 {
      assert Successors(S.base, p, Eval(S, v, x), 0, []);
    } else {
      var witnesses := Witnesses(Min(p, n), x, n);
      var edges := Edges(p, x, witnesses, body);
      var apart := Different(Combinations(witnesses), body);
      var linked := EmitAll(st, edges).value;
      HoldsEarlier(S, linked, EmitAll(linked, apart).value);
      var ys := seq(n, i requires 0 <= i < n => Eval(S, v, witnesses[i]));
      forall i | 0 <= i < n ensures Related(S.base, p, Eval(S, v, x), ys[i]) {
        EmitAllMeans(S, st, edges, i, v);
        assert AtomTrue(S, v, RoleFor(p, x, witnesses[i]));
      }
      forall i, j | 0 <= i < j < n ensures ys[i] != ys[j] {
        DifferentMeans(S, linked, witnesses, body, i, j, v);
      }
      assert Successors(S.base, p, Eval(S, v, x), n, ys);
    }
  }

  /** Setting a variable above the counter disturbs nothing in scope. */
  lemma FreshAssign<D>(S: Structure<D>, v: nat -> D, x: Term, body: seq<Atom>, n: nat, k: nat, d: D)
    requires TermBelow(x, n) && BodyBelow(body, n) && n < k
    ensures Eval(S, Assign(v, k, d), x) == Eval(S, v, x)
    ensures BodyTrue(S, Assign(v, k, d), body) == BodyTrue(S, v, body)
  {
    BodyTrueTo(S, v, Assign(v, k, d), body, n);
    EvalTo(S, v, Assign(v, k, d), x, n);
  }

  lemma NoSuccessorMeans<D(!new)>(S: Structure<D>, st: State, p: Property, x: Term, body: seq<Atom>, v: nat -> D, d: D)
    requires HeadMax(2, st, p, 0, x, body).Ok? && Holds(S, HeadMax(2, st, p, 0, x, body).value)
    requires InScope(x, body, st) && BodyTrue(S, v, body)
    ensures !Related(S.base, p, Eval(S, v, x), d)
  {
    hide Emit;
    if Related(S.base, p, Eval(S, v, x), d) {
      var u := Assign(v, st.counter + 1, d);
      FreshAssign(S, v, x, body, st.counter, st.counter + 1, d);
      RoleForTrue(S, u, p, x, st.Next());
      EmitMeans(S, st.Bump(), None, body + [RoleFor(p, x, st.Next())], u);
    }
  }

  lemma OneSuccessorMeans<D(!new)>(S: Structure<D>, st: State, p: Property, x: Term, body: seq<Atom>, v: nat -> D,
      a: D, b: D)
    requires HeadMax(1, st, p, 1, x, body).Ok? && Holds(S, HeadMax(1, st, p, 1, x, body).value)
    requires InScope(x, body, st) && BodyTrue(S, v, body)
    requires Related(S.base, p, Eval(S, v, x), a) && Related(S.base, p, Eval(S, v, x), b)
    ensures a == b
  {
    hide Emit;
    var y, z := st.Next(), st.Bump().Next();
    var u := Assign(v, st.counter + 1, a);
    var w := Assign(u, st.counter + 2, b);
    FreshAssign(S, v, x, body, st.counter, st.counter + 1, a);
    FreshAssign(S, u, x, body, st.counter, st.counter + 2, b);
    RoleForTrue(S, w, p, x, y);
    RoleForTrue(S, w, p, x, z);
    EmitMeans(S, st.Bump().Bump(), Some(EqAtom(y, z)), body + [RoleFor(p, x, y), RoleFor(p, x, z)], w);
  }

  lemma HeadMaxMeans<D(!new)>(level: nat, S: Structure<D>, st: State, p: Property, n: nat, x: Term, body: seq<Atom>,
      v: nat -> D)
    requires HeadMax(level, st, p, n, x, body).Ok?
    requires Holds(S, HeadMax(level, st, p, n, x, body).value)
    requires InScope(x, body, st) && BodyTrue(S, v, body)
    ensures !AtLeast(S.base, p, Eval(S, v, x), n + 1)
  {
    hide Emit;
    if AtLeast(S.base, p, Eval(S, v, x), n + 1) {
      var ys: seq<D> :| Successors(S.base, p, Eval(S, v, x), n + 1, ys);
      if n == 0 {
        NoSuccessorMeans(S, st, p, x, body, v, ys[0]);
      } else {
        OneSuccessorMeans(S, st, p, x, body, v, ys[0], ys[1]);
      }
    }
  }

  /** A consequent keeps all body definitions and completes the descriptions it starts. */
  lemma {:induction false} HeadDescribes<D(!new)>(level: nat, S: Structure<D>, st: State, e: Expr, x: Term,
      body: seq<Atom>)
    requires Head(level, st, e, x, body).Ok?
    requires Holds(S, Head(level, st, e, x, body).value)
    requires Tables(S, st, HeadBound(e, x))
    ensures AllDefined(S, Head(level, st, e, x, body).value.bodyDefs)
    ensures AllDescribed(S, Head(level, st, e, x, body).value.headDefs - st.headDefs)
    decreases Weight(e), if x.Skolem? then 2 else 1, 0
  {
    hide Emit;
    var after := Head(level, st, e, x, body).value;
    if Named(e, x) {
      NamedDescribed(level, S, st, e, x, body);
    } else {
      match e
      case Junction(And, args) => if args != [] { HeadEachDescribes(level, S, st, args, x, body); }
      case Junction(Or, args) => HeadOrDescribes(level, S, st, args, x, body);
      case Forall(p, c) =>
        var y := st.Next();
        HeadDescribes(level, S, st.Bump(), c, y, body + [RoleFor(p, x, y)]);
      case Exists(p, c) =>
        if !c.Bottom? {
          var w := Witness(e, x, 0);
          HeadDescribes(level, S, Emit(st, Some(RoleFor(p, x, w)), body).value, c, w, body);
        }
      case Not(c) =>
        HoldsEarlier(S, Body(level, st, c, x, true).value.st, after);
        BodyDefines(level, S, st, c, x, true);
        assert after.headDefs == st.headDefs;
      case _ => HeadLeafKeepsTables(level, st, e, x, body);
    }
  }

  lemma HeadLeafKeepsTables(level: nat, st: State, e: Expr, x: Term, body: seq<Atom>)
    requires !Named(e, x) && Head(level, st, e, x, body).Ok?
    requires Leaf(e)
    ensures var after := Head(level, st, e, x, body).value;
      after.bodyDefs == st.bodyDefs && after.headDefs == st.headDefs
  {
  }

  lemma {:induction false} HeadOrDescribes<D(!new)>(level: nat, S: Structure<D>, st: State, args: seq<Expr>, x: Term,
      body: seq<Atom>)
    requires !x.Skolem? && Head(level, st, Junction(Or, args), x, body).Ok?
    requires Holds(S, Head(level, st, Junction(Or, args), x, body).value)
    requires Tables(S, st, Weights(args) + 1)
    ensures AllDefined(S, Head(level, st, Junction(Or, args), x, body).value.bodyDefs)
    ensures AllDescribed(S, Head(level, st, Junction(Or, args), x, body).value.headDefs - st.headDefs)
    decreases Weights(args) + 1, 4, 0
  {
    hide Emit;
    hide Body;
    hide HeadOver;
    hide Normalize;
    hide NegatedOperands;
    hide Positives;
    if args == [] {
    } else if |args| == 1 {
      HeadDescribes(level, S, st, args[0], x, body);
    } else {
      var negatives, positives := NegatedOperands(args), Positives(args);
      var conj := Normalize(Junction(And, negatives));
      var extra := Body(level, st, conj, x, true).value;
      var target := if positives == [] then Bottom else positives[0];
      HoldsEarlier(S, extra.st, HeadOver(level, extra.st, target, x, body, extra.alternatives).value);
      BodyKeepsTables(level, S, st, conj, x, Weights(args) + 1);
      HeadOverDescribes(level, S, extra.st, target, x, body, extra.alternatives);
    }
  }

  lemma {:induction false} HeadOverDescribes<D(!new)>(level: nat, S: Structure<D>, st: State, e: Expr, x: Term,
      body: seq<Atom>, alternatives: seq<seq<Atom>>)
    requires !x.Skolem? && HeadOver(level, st, e, x, body, alternatives).Ok?
    requires Holds(S, HeadOver(level, st, e, x, body, alternatives).value)
    requires Tables(S, st, Weight(e))
    ensures AllDefined(S, HeadOver(level, st, e, x, body, alternatives).value.bodyDefs)
    ensures AllDescribed(S, HeadOver(level, st, e, x, body, alternatives).value.headDefs - st.headDefs)
    decreases Weight(e), 3, |alternatives|
  {
    hide Emit;
    if alternatives != [] {
      var first := Head(level, st, e, x, body + alternatives[0]).value;
      HoldsEarlier(S, first, HeadOver(level, st, e, x, body, alternatives).value);
      HeadKeepsTables(level, S, st, e, x, body + alternatives[0], Weight(e));
      HeadOverDescribes(level, S, first, e, x, body, alternatives[1..]);
    }
  }

  lemma {:induction false} HeadEachDescribes<D(!new)>(level: nat, S: Structure<D>, st: State, args: seq<Expr>, x: Term,
      body: seq<Atom>)
    requires !x.Skolem? && HeadEach(level, st, args, x, body).Ok?
    requires Holds(S, HeadEach(level, st, args, x, body).value)
    requires Tables(S, st, Weights(args))
    ensures AllDefined(S, HeadEach(level, st, args, x, body).value.bodyDefs)
    ensures AllDescribed(S, HeadEach(level, st, args, x, body).value.headDefs - st.headDefs)
    decreases Weights(args) + 1, 3, 0
  {
    hide Emit;
    if args != [] {
      var first := Head(level, st, args[0], x, body).value;
      HoldsEarlier(S, first, HeadEach(level, st, args, x, body).value);
      HeadKeepsTables(level, S, st, args[0], x, body, Weights(args));
      HeadEachDescribes(level, S, first, args[1..], x, body);
    }
  }
}
