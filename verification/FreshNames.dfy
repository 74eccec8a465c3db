/** Compilation does not depend on which fresh variables it draws: any starting counter gives the same program. */
module FreshNames {
  import opened Options
  import opened Expressions
  import opened Normalization
  import opened Axioms
  import opened Rules
  import opened Results
  import opened Translation

  ghost predicate Injective(f: nat -> nat) { forall i, j :: f(i) == f(j) ==> i == j }

  function MapVars(f: nat -> nat, s: seq<nat>): (r: seq<nat>)
    ensures |r| == |s|
  {
    if s == [] then [] else [f(s[0])] + MapVars(f, s[1..])
  }

  lemma {:induction false} MapVarsAppend(f: nat -> nat, s: seq<nat>, t: seq<nat>)
    ensures MapVars(f, s + t) == MapVars(f, s) + MapVars(f, t)
  {
    if s == [] {
      assert s + t == t;
    } else {
      assert (s + t)[1..] == s[1..] + t && (s + t)[0] == s[0];
      MapVarsAppend(f, s[1..], t);
    }
  }

  lemma {:induction false} MapVarsMember(f: nat -> nat, s: seq<nat>, i: nat)
    requires Injective(f)
    ensures f(i) in MapVars(f, s) <==> i in s
  {
    if s != [] {
      assert s == [s[0]] + s[1..];
      MapVarsMember(f, s[1..], i);
    }
  }

  lemma {:induction false} DistinctMap(f: nat -> nat, s: seq<nat>)
    requires Injective(f)
    ensures Distinct(MapVars(f, s)) == MapVars(f, Distinct(s))
  {
    if s != [] {
      var front, last := s[..|s| - 1], s[|s| - 1];
      assert s == front + [last];
      DistinctMap(f, front);
      MapVarsAppend(f, front, [last]);
      assert MapVars(f, [last]) == [f(last)];
      assert MapVars(f, s)[..|s| - 1] == MapVars(f, front) && MapVars(f, s)[|s| - 1] == f(last);
      MapVarsMember(f, Distinct(front), last);
      MapVarsAppend(f, Distinct(front), [last]);
    }
  }

  lemma {:induction false} IndexMap(f: nat -> nat, names: seq<nat>, i: nat)
    requires Injective(f)
    ensures IndexOf(MapVars(f, names), f(i)) == IndexOf(names, i)
  {
    if names != [] && names[0] != i {
      IndexMap(f, names[1..], i);
    }
  }

  lemma {:induction false} TermVarsMap(f: nat -> nat, t: Term)
    ensures TermVars(RenameTerm(f, t)) == MapVars(f, TermVars(t))
  {
    if t.Skolem? { TermVarsMap(f, t.arg); }
  }

  lemma AtomVarsMap(f: nat -> nat, a: Atom)
    ensures AtomVars(RenameAtom(f, a)) == MapVars(f, AtomVars(a))
  {
    TermVarsMap(f, a.t);
    if a.RoleAtom? || a.EqAtom? || a.NeqAtom? {
      TermVarsMap(f, a.s);
      MapVarsAppend(f, TermVars(a.s), TermVars(a.t));
    }
  }

  lemma {:induction false} BodyVarsMap(f: nat -> nat, body: seq<Atom>)
    ensures BodyVars(RenameBody(f, body)) == MapVars(f, BodyVars(body))
  {
    if body != [] {
      AtomVarsMap(f, body[0]);
      BodyVarsMap(f, body[1..]);
      MapVarsAppend(f, AtomVars(body[0]), BodyVars(body[1..]));
    }
  }

  lemma RuleNamesMap(f: nat -> nat, head: Option<Atom>, body: seq<Atom>)
    requires Injective(f)
    ensures RuleNames(RenameHead(f, head), RenameBody(f, body)) == MapVars(f, RuleNames(head, body))
  {
    hide Distinct;
    hide AtomVars;
    hide RenameAtom;
    if head.Some? { AtomVarsMap(f, head.value); }
    BodyVarsMap(f, body);
    MapVarsAppend(f, HeadVars(head), BodyVars(body));
    DistinctMap(f, HeadVars(head) + BodyVars(body));
  }

  /** Renaming and then numbering is numbering. */
  lemma AtomRenumber(f: nat -> nat, names: seq<nat>, a: Atom)
    requires Injective(f)
    ensures RenameAtom(Numbering(MapVars(f, names)), RenameAtom(f, a)) == RenameAtom(Numbering(names), a)
  {
    var g, h := Numbering(MapVars(f, names)), Numbering(names);
    AtomRenameTwice(g, f, a);
    forall i | i in AtomVars(a) ensures g(f(i)) == h(i) { IndexMap(f, names, i); }
    AtomRenameCong((i: nat) => g(f(i)), h, a);
  }

  lemma {:induction false} BodyRenumber(f: nat -> nat, names: seq<nat>, body: seq<Atom>)
    requires Injective(f)
    ensures RenameBody(Numbering(MapVars(f, names)), RenameBody(f, body)) == RenameBody(Numbering(names), body)
  {
    hide RenameAtom;
    hide Numbering;
    if body != [] {
      AtomRenumber(f, names, body[0]);
      BodyRenumber(f, names, body[1..]);
    }
  }

  /** Canonical rules are invariant under injective renaming of variables. */
  lemma CanonicalInvariant(f: nat -> nat, head: Option<Atom>, body: seq<Atom>)
    requires Injective(f)
    ensures Canonical(RenameHead(f, head), RenameBody(f, body)) == Canonical(head, body)
  {
    hide RuleNames;
    hide RenameAtom;
    hide Numbering;
    hide RenameBody;
    var names := RuleNames(head, body);
    RuleNamesMap(f, head, body);
    if head.Some? { AtomRenumber(f, names, head.value); }
    BodyRenumber(f, names, body);
  }

  // ----- Emission -----

  lemma TermRenameInjective(f: nat -> nat, s: Term, t: Term)
    requires Injective(f) && RenameTerm(f, s) == RenameTerm(f, t)
    ensures s == t
  {
    if s.Skolem? { TermRenameInjective(f, s.arg, t.arg); }
  }

  lemma AtomRenameInjective(f: nat -> nat, a: Atom, b: Atom)
    requires Injective(f)
    ensures RenameAtom(f, a) == RenameAtom(f, b) <==> a == b
  {
    if RenameAtom(f, a) == RenameAtom(f, b) {
      TermRenameInjective(f, a.t, b.t);
      if a.RoleAtom? || a.EqAtom? || a.NeqAtom? { TermRenameInjective(f, a.s, b.s); }
    }
  }

  lemma {:induction false} RenameBodyConcat(f: nat -> nat, a: seq<Atom>, b: seq<Atom>)
    ensures RenameBody(f, a + b) == RenameBody(f, a) + RenameBody(f, b)
  {
    hide RenameAtom;
    if a == [] {
      assert a + b == b;
    } else {
      assert (a + b)[1..] == a[1..] + b && (a + b)[0] == a[0];
      RenameBodyConcat(f, a[1..], b);
    }
  }

  lemma {:induction false} RenameBodyMember(f: nat -> nat, body: seq<Atom>, a: Atom)
    requires Injective(f)
    ensures RenameAtom(f, a) in RenameBody(f, body) <==> a in body
  {
    hide RenameAtom;
    if body != [] {
      assert body == [body[0]] + body[1..];
      AtomRenameInjective(f, a, body[0]);
      RenameBodyMember(f, body[1..], a);
    }
  }

  lemma {:induction false} DistinctRename(f: nat -> nat, body: seq<Atom>)
    requires Injective(f)
    ensures Distinct(RenameBody(f, body)) == RenameBody(f, Distinct(body))
  {
    hide RenameAtom;
    if body != [] {
      var front, last := body[..|body| - 1], body[|body| - 1];
      assert body == front + [last];
      DistinctRename(f, front);
      RenameBodyConcat(f, front, [last]);
      assert RenameBody(f, [last]) == [RenameAtom(f, last)];
      assert RenameBody(f, body)[..|body| - 1] == RenameBody(f, front) && RenameBody(f, body)[|body| - 1] ==
        RenameAtom(f, last);
      RenameBodyMember(f, Distinct(front), last);
      RenameBodyConcat(f, Distinct(front), [last]);
    }
  }

  lemma GroundUnchanged(f: nat -> nat, a: Atom)
    ensures GroundAtom(RenameAtom(f, a)) == GroundAtom(a)
    ensures GroundAtom(a) ==> RenameAtom(f, a) == a
  {
    AtomVarsMap(f, a);
    if GroundAtom(a) {
      GroundTerm(f, a.t);
      if a.RoleAtom? || a.EqAtom? || a.NeqAtom? { GroundTerm(f, a.s); }
    }
  }

  lemma {:induction false} GroundTerm(f: nat -> nat, t: Term)
    requires TermVars(t) == []
    ensures RenameTerm(f, t) == t
  {
    if t.Skolem? { GroundTerm(f, t.arg); }
  }

  ghost function At(counter: nat, r: Result<State>): Result<State> {
    if r.Ok? then Ok(r.value.(counter := counter)) else r
  }

  /** Emission ignores the counter and the choice of variables. */
  lemma EmitInvariant(f: nat -> nat, st: State, n: nat, head: Option<Atom>, raw: seq<Atom>)
    requires Injective(f)
    ensures Emit(st.(counter := n), RenameHead(f, head), RenameBody(f, raw)) == At(n, Emit(st, head, raw))
  {
    hide Canonical;
    hide RenameAtom;
    hide GroundAtom;
    hide Distinct;
    hide RenameBody;
    DistinctRename(f, raw);
    CanonicalInvariant(f, head, Distinct(raw));
    RenameEmptiness(f, Distinct(raw));
    if head.Some? { GroundUnchanged(f, head.value); }
  }

  lemma RenameEmptiness(f: nat -> nat, body: seq<Atom>)
    ensures RenameBody(f, body) == [] <==> body == []
  {
  }

  function MapRules(f: nat -> nat, rules: seq<Rule>): (r: seq<Rule>)
    ensures |r| == |rules|
  {
    if rules == [] then []
    else [Rule(RenameHead(f, rules[0].head), RenameBody(f, rules[0].body))] + MapRules(f, rules[1..])
  }

  lemma {:induction false} EmitAllInvariant(f: nat -> nat, st: State, n: nat, clauses: seq<Rule>)
    requires Injective(f)
    ensures EmitAll(st.(counter := n), MapRules(f, clauses)) == At(n, EmitAll(st, clauses))
    decreases |clauses|
  {
    hide Emit;
    hide RenameBody;
    hide RenameHead;
    if clauses != [] {
      EmitInvariant(f, st, n, clauses[0].head, clauses[0].body);
      var next := Emit(st, clauses[0].head, clauses[0].body);
      if next.Ok? { EmitAllInvariant(f, next.value, n, clauses[1..]); }
    }
  }

  // ----- Shifting the counter -----

  function Shift(k: nat): nat -> nat { (i: nat) => i + k }

  function MapBodies(f: nat -> nat, alternatives: seq<seq<Atom>>): (r: seq<seq<Atom>>)
    ensures |r| == |alternatives|
  {
    if alternatives == [] then [] else [RenameBody(f, alternatives[0])] + MapBodies(f, alternatives[1..])
  }

  function MapParts(f: nat -> nat, parts: seq<seq<seq<Atom>>>): seq<seq<seq<Atom>>> {
    if parts == [] then [] else [MapBodies(f, parts[0])] + MapParts(f, parts[1..])
  }

  lemma {:induction false} MapBodiesConcat(f: nat -> nat, a: seq<seq<Atom>>, b: seq<seq<Atom>>)
    ensures MapBodies(f, a + b) == MapBodies(f, a) + MapBodies(f, b)
  {
    hide RenameBody;
    if a == [] {
      assert a + b == b;
    } else {
      assert (a + b)[1..] == a[1..] + b && (a + b)[0] == a[0];
      MapBodiesConcat(f, a[1..], b);
    }
  }

  lemma {:induction false} PrefixedMap(f: nat -> nat, first: seq<Atom>, alternatives: seq<seq<Atom>>)
    ensures Prefixed(RenameBody(f, first), MapBodies(f, alternatives)) == MapBodies(f, Prefixed(first, alternatives))
  {
    hide RenameBody;
    if alternatives != [] {
      RenameBodyConcat(f, first, alternatives[0]);
      PrefixedMap(f, first, alternatives[1..]);
    }
  }

  lemma {:induction false} CrossMap(f: nat -> nat, left: seq<seq<Atom>>, right: seq<seq<Atom>>)
    ensures Cross(MapBodies(f, left), MapBodies(f, right)) == MapBodies(f, Cross(left, right))
  {
    hide RenameBody;
    hide Prefixed;
    if left != [] {
      PrefixedMap(f, left[0], right);
      CrossMap(f, left[1..], right);
      MapBodiesConcat(f, Prefixed(left[0], right), Cross(left[1..], right));
    }
  }

  lemma {:induction false} ProductMap(f: nat -> nat, parts: seq<seq<seq<Atom>>>)
    ensures Product(MapParts(f, parts)) == MapBodies(f, Product(parts))
  {
    hide Cross;
    if parts == [] {
      assert MapBodies(f, [[]]) == [[]];
    } else {
      assert MapParts(f, parts)[1..] == MapParts(f, parts[1..]);
      ProductMap(f, parts[1..]);
      CrossMap(f, parts[0], Product(parts[1..]));
    }
  }

  lemma {:induction false} ClausesMap(f: nat -> nat, head: Option<Atom>, prefix: seq<Atom>,
      alternatives: seq<seq<Atom>>)
    ensures Clauses(RenameHead(f, head), RenameBody(f, prefix), MapBodies(f, alternatives)) ==
      MapRules(f, Clauses(head, prefix, alternatives))
  {
    hide RenameBody;
    hide RenameHead;
    if alternatives != [] {
      RenameBodyConcat(f, prefix, alternatives[0]);
      ClausesMap(f, head, prefix, alternatives[1..]);
    }
  }

  lemma {:induction false} EnumeratedMap(f: nat -> nat, items: seq<Node>, x: Term)
    ensures Enumerated(items, RenameTerm(f, x)) == MapBodies(f, Enumerated(items, x))
  {
    if items != [] {
      BodyOfTwo(f, TopAtom(x), EqAtom(x, Const(items[0])));
      EnumeratedMap(f, items[1..], x);
    }
  }

  lemma BodyOfOne(f: nat -> nat, a: Atom)
    ensures RenameBody(f, [a]) == [RenameAtom(f, a)]
  {
  }

  lemma BodyOfTwo(f: nat -> nat, a: Atom, b: Atom)
    ensures RenameBody(f, [a, b]) == [RenameAtom(f, a), RenameAtom(f, b)]
  {
    assert [a, b][1..] == [b];
    BodyOfOne(f, b);
  }

  lemma OneMap(f: nat -> nat, a: Atom)
    ensures MapBodies(f, [[a]]) == [[RenameAtom(f, a)]]
  {
    BodyOfOne(f, a);
  }

  ghost function Shifted(k: nat, st: State): State { st.(counter := st.counter + k) }

  ghost function ShiftedState(k: nat, r: Result<State>): Result<State> {
    if r.Ok? then Ok(Shifted(k, r.value)) else r
  }

  ghost function ShiftedBodies(k: nat, r: Result<Bodies>): Result<Bodies> {
    if r.Ok? then Ok(Bodies(Shifted(k, r.value.st), MapBodies(Shift(k), r.value.alternatives))) else r
  }

  ghost function ShiftedParts(k: nat, r: Result<Parts>): Result<Parts> {
    if r.Ok? then Ok(Parts(Shifted(k, r.value.st), MapParts(Shift(k), r.value.parts))) else r
  }

  lemma {:induction false} BodyShift(level: nat, k: nat, st: State, e: Expr, x: Term, factor: bool)
    ensures Body(level, Shifted(k, st), e, RenameTerm(Shift(k), x), factor) ==
      ShiftedBodies(k, Body(level, st, e, x, factor))
    decreases Weight(e), if factor then 2 else 0
  {
    hide Grows;
    hide SameTables;
    hide BodyReference;
    hide BodyParts;
    hide BodyUnion;
    hide MapBodies;
    hide Product;
    var f := Shift(k);
    if factor && Factored(e) {
      ReferenceShift(level, k, st, e, x);
    } else {
      match e
      case Class(c) => OneMap(f, ClassAtom(c, x));
      case Top => OneMap(f, TopAtom(x));
      case Bottom => EmptyMap(f);
      case Junction(And, args) =>
        if args == [] {
          BodyShift(level, k, st, Top, x, true);
        } else {
          PartsShift(level, k, st, args, x);
          var parts := BodyParts(level, st, args, x);
          if parts.Ok? { ProductMap(f, parts.value.parts); }
        }
      case Junction(Or, args) => UnionShift(level, k, st, args, x);
      case Value(p, a) => OneMap(f, RoleFor(p, x, Const(a)));
      case Exists(p, c) => ExistsShift(level, k, st, p, c, x);
      case OneOf(items) => EnumeratedMap(f, items, x);
      case Min(p, n) =>
        OneMap(f, TopAtom(x));
        OneMap(f, RoleFor(p, x, st.Next()));
      case _ =>
    }
  }

  lemma ExistsIs(level: nat, st: State, p: Property, c: Expr, x: Term)
    ensures Body(level, st, Exists(p, c), x, false) ==
      var inner := Body(level, st.Bump(), c, st.Next(), true);
      if inner.Ok? then Ok(Bodies(inner.value.st, Prefixed([RoleFor(p, x, st.Next())], inner.value.alternatives))) else
        inner
  {
    hide Prefixed;
    hide Grows;
  }

  lemma {:induction false} ExistsShift(level: nat, k: nat, st: State, p: Property, c: Expr, x: Term)
    ensures Body(level, Shifted(k, st), Exists(p, c), RenameTerm(Shift(k), x), false) ==
      ShiftedBodies(k, Body(level, st, Exists(p, c), x, false))
    decreases Weight(c), 3
  {
    hide Body;
    hide MapBodies;
    hide RenameBody;
    hide Prefixed;
    hide Grows;
    var f, y := Shift(k), st.Next();
    ExistsIs(level, st, p, c, x);
    ExistsIs(level, Shifted(k, st), p, c, RenameTerm(f, x));
    ShiftedNext(k, st);
    BodyShift(level, k, st.Bump(), c, y, true);
    var inner := Body(level, st.Bump(), c, y, true);
    BodyOfOne(f, RoleFor(p, x, y));
    if inner.Ok? { PrefixedMap(f, [RoleFor(p, x, y)], inner.value.alternatives); }
  }

  lemma EmptyMap(f: nat -> nat)
    ensures MapBodies(f, []) == []
  {
  }

  lemma {:induction false} ReferenceShift(level: nat, k: nat, st: State, e: Expr, x: Term)
    ensures BodyReference(level, Shifted(k, st), e, RenameTerm(Shift(k), x)) ==
      ShiftedBodies(k, BodyReference(level, st, e, x))
    decreases Weight(e), 1
  {
    hide Grows;
    hide SameTables;
    hide Body;
    hide EmitAll;
    hide Clauses;
    hide MapBodies;
    var f := Shift(k);
    OneMap(f, BodyName(e, x));
    if e !in st.bodyDefs {
      var entered := st.(bodyDefs := st.bodyDefs + {e});
      var y := entered.Next();
      BodyShift(level, k, entered.Bump(), e, y, false);
      var inner := Body(level, entered.Bump(), e, y, false);
      if inner.Ok? {
        var clauses := Clauses(Some(BodyName(e, y)), [], inner.value.alternatives);
        ClausesMap(f, Some(BodyName(e, y)), [], inner.value.alternatives);
        EmitAllShift(k, inner.value.st, clauses);
      }
    }
  }

  lemma {:induction false} PartsShift(level: nat, k: nat, st: State, args: seq<Expr>, x: Term)
    ensures BodyParts(level, Shifted(k, st), args, RenameTerm(Shift(k), x)) ==
      ShiftedParts(k, BodyParts(level, st, args, x))
    decreases Weights(args) + 1, 0
  {
    hide Grows;
    hide SameTables;
    hide Body;
    hide BodyReference;
    hide MapBodies;
    if args != [] {
      if args[0].OneOf? {
        ReferenceShift(level, k, st, args[0], x);
      } else {
        BodyShift(level, k, st, args[0], x, true);
      }
      var first := if args[0].OneOf? then BodyReference(level, st, args[0], x) else Body(level, st, args[0], x, true);
      if first.Ok? {
        PartsShift(level, k, first.value.st, args[1..], x);
        var rest := BodyParts(level, first.value.st, args[1..], x);
        if rest.Ok? { assert ([first.value.alternatives] + rest.value.parts)[1..] == rest.value.parts; }
      }
    }
  }

  lemma {:induction false} UnionShift(level: nat, k: nat, st: State, args: seq<Expr>, x: Term)
    ensures BodyUnion(level, Shifted(k, st), args, RenameTerm(Shift(k), x)) ==
      ShiftedBodies(k, BodyUnion(level, st, args, x))
    decreases Weights(args) + 1, 0
  {
    hide Grows;
    hide SameTables;
    hide Body;
    hide MapBodies;
    if args == [] {
      EmptyMap(Shift(k));
    } else {
      BodyShift(level, k, st, args[0], x, true);
      var first := Body(level, st, args[0], x, true);
      if first.Ok? {
        UnionShift(level, k, first.value.st, args[1..], x);
        var rest := BodyUnion(level, first.value.st, args[1..], x);
        if rest.Ok? { MapBodiesConcat(Shift(k), first.value.alternatives, rest.value.alternatives); }
      }
    }
  }

  // ----- Consequents -----

  lemma ShiftInjective(k: nat)
    ensures Injective(Shift(k))
  {
    assert forall i: nat :: Shift(k)(i) == i + k;
  }

  lemma EmitShift(k: nat, st: State, head: Option<Atom>, raw: seq<Atom>)
    ensures Emit(Shifted(k, st), RenameHead(Shift(k), head), RenameBody(Shift(k), raw)) ==
      ShiftedState(k, Emit(st, head, raw))
  {
    hide Emit;
    hide RenameBody;
    hide RenameHead;
    hide Grows;
    hide SameTables;
    hide Injective;
    ShiftInjective(k);
    EmitInvariant(Shift(k), st, st.counter + k, head, raw);
  }

  lemma EmitAllShift(k: nat, st: State, clauses: seq<Rule>)
    ensures EmitAll(Shifted(k, st), MapRules(Shift(k), clauses)) == ShiftedState(k, EmitAll(st, clauses))
  {
    hide *;
    ShiftInjective(k);
    EmitAllInvariant(Shift(k), st, st.counter + k, clauses);
    ShiftedIs(k, st);
    ShiftedResultIs(k, st.counter, EmitAll(st, clauses));
  }

  lemma ShiftedIs(k: nat, st: State)
    ensures Shifted(k, st) == st.(counter := st.counter + k)
  {
  }

  lemma ShiftedResultIs(k: nat, n: nat, r: Result<State>)
    requires r.Ok? ==> r.value.counter == n
    ensures ShiftedState(k, r) == At(n + k, r)
  {
  }

  lemma {:induction false} HeadShift(level: nat, k: nat, st: State, e: Expr, x: Term, body: seq<Atom>)
    ensures Head(level, Shifted(k, st), e, RenameTerm(Shift(k), x), RenameBody(Shift(k), body)) ==
      ShiftedState(k, Head(level, st, e, x, body))
    decreases Weight(e), if x.Skolem? then 2 else 1, 0
  {
    hide Grows;
    hide SameTables;
    hide Emit;
    hide RenameBody;
    hide HeadMin;
    hide HeadMax;
    hide HeadEach;
    hide HeadOver;
    hide Body;
    hide Normalize;
    var f := Shift(k);
    if Named(e, x) {
      EmitShift(k, st, Some(HeadName(e, x)), body);
      var named := Emit(st, Some(HeadName(e, x)), body);
      if named.Ok? && e !in named.value.headDefs {
        var entered := named.value.(headDefs := named.value.headDefs + {e});
        var y := entered.Next();
        BodyOfOne(f, HeadName(e, y));
        HeadShift(level, k, entered.Bump(), e, y, [HeadName(e, y)]);
      }
    } else {
      match e
      case Class(c) => EmitShift(k, st, Some(ClassAtom(c, x)), body);
      case Top => EmitShift(k, st, Some(TopAtom(x)), body);
      case Bottom => EmitShift(k, st, None, body);
      case Junction(And, args) =>
        if args == [] { EmitShift(k, st, Some(TopAtom(x)), body); } else { HeadEachShift(level, k, st, args, x, body); }
      case Junction(Or, args) => HeadOrShift(level, k, st, args, x, body);
      case Value(p, a) => EmitShift(k, st, Some(RoleFor(p, x, Const(a))), body);
      case Forall(p, c) => HeadForallShift(level, k, st, p, c, x, body);
      case Exists(p, c) => HeadExistsShift(level, k, st, p, c, x, body);
      case OneOf(items) =>
        EmitShift(k, st, None, body);
        if |items| == 1 { EmitShift(k, st, Some(EqAtom(x, Const(items[0]))), body); }
      case Not(c) => HeadNotShift(level, k, st, c, x, body);
      case Min(p, n) => HeadMinShift(level, k, st, p, n, x, body);
      case Max(p, n) => HeadMaxShift(level, k, st, p, n, x, body);
      case Exact(p, n) =>
        HeadMinShift(level, k, st, p, n, x, body);
        var atLeast := HeadMin(level, st, p, n, x, body);
        if atLeast.Ok? { HeadMaxShift(level, k, atLeast.value, p, n, x, body); }
    }
  }

  lemma HeadForallIs(level: nat, st: State, p: Property, c: Expr, x: Term, body: seq<Atom>)
    requires !x.Skolem?
    ensures Head(level, st, Forall(p, c), x, body) ==
      Head(level, st.Bump(), c, st.Next(), body + [RoleFor(p, x, st.Next())])
  {
  }

  lemma ShiftedNext(k: nat, st: State)
    ensures Shifted(k, st).Bump() == Shifted(k, st.Bump())
    ensures Shifted(k, st).Next() == RenameTerm(Shift(k), st.Next())
  {
  }

  lemma RenamePlain(f: nat -> nat, x: Term)
    ensures RenameTerm(f, x).Skolem? == x.Skolem?
  {
  }

  lemma ExtendedBody(f: nat -> nat, p: Property, x: Term, y: Term, body: seq<Atom>)
    ensures RenameBody(f, body + [RoleFor(p, x, y)]) == RenameBody(f, body) +
      [RoleFor(p, RenameTerm(f, x), RenameTerm(f, y))]
  {
    BodyOfOne(f, RoleFor(p, x, y));
    RenameBodyConcat(f, body, [RoleFor(p, x, y)]);
  }

  lemma {:induction false} HeadForallShift(level: nat, k: nat, st: State, p: Property, c: Expr, x: Term,
      body: seq<Atom>)
    requires !x.Skolem?
    ensures Head(level, Shifted(k, st), Forall(p, c), RenameTerm(Shift(k), x), RenameBody(Shift(k), body)) ==
      ShiftedState(k, Head(level, st, Forall(p, c), x, body))
    decreases Weight(c), 3, 0
  {
    hide *;
    var f := Shift(k);
    RenamePlain(f, x);
    HeadForallIs(level, st, p, c, x, body);
    HeadForallIs(level, Shifted(k, st), p, c, RenameTerm(f, x), RenameBody(f, body));
    ShiftedNext(k, st);
    ExtendedBody(f, p, x, st.Next(), body);
    NextPlain(st);
    HeadShift(level, k, st.Bump(), c, st.Next(), body + [RoleFor(p, x, st.Next())]);
  }

  lemma NextPlain(st: State)
    ensures st.Next().Var?
  {
  }

  lemma {:induction false} HeadExistsShift(level: nat, k: nat, st: State, p: Property, c: Expr, x: Term,
      body: seq<Atom>)
    requires !x.Skolem?
    ensures Head(level, Shifted(k, st), Exists(p, c), RenameTerm(Shift(k), x), RenameBody(Shift(k), body)) ==
      ShiftedState(k, Head(level, st, Exists(p, c), x, body))
    decreases Weight(c), 3, 0
  {
    hide Grows;
    hide SameTables;
    hide Emit;
    hide RenameBody;
    var w := Witness(Exists(p, c), x, 0);
    EmitShift(k, st, None, body);
    EmitShift(k, st, Some(RoleFor(p, x, w)), body);
    var linked := Emit(st, Some(RoleFor(p, x, w)), body);
    if linked.Ok? { HeadShift(level, k, linked.value, c, w, body); }
  }

  lemma HeadNotShift(level: nat, k: nat, st: State, c: Expr, x: Term, body: seq<Atom>)
    requires !x.Skolem?
    ensures Head(level, Shifted(k, st), Not(c), RenameTerm(Shift(k), x), RenameBody(Shift(k), body)) ==
      ShiftedState(k, Head(level, st, Not(c), x, body))
  {
    hide Grows;
    hide SameTables;
    hide EmitAll;
    hide RenameBody;
    hide Body;
    hide Clauses;
    BodyShift(level, k, st, c, x, true);
    var negative := Body(level, st, c, x, true);
    if negative.Ok? {
      ClausesMap(Shift(k), None, body, negative.value.alternatives);
      EmitAllShift(k, negative.value.st, Clauses(None, body, negative.value.alternatives));
    }
  }

  lemma {:induction false} HeadOrShift(level: nat, k: nat, st: State, args: seq<Expr>, x: Term, body: seq<Atom>)
    requires !x.Skolem?
    ensures Head(level, Shifted(k, st), Junction(Or, args), RenameTerm(Shift(k), x), RenameBody(Shift(k), body)) ==
      ShiftedState(k, Head(level, st, Junction(Or, args), x, body))
    decreases Weights(args) + 1, 4, 0
  {
    hide Grows;
    hide SameTables;
    hide Emit;
    hide RenameBody;
    hide Body;
    hide HeadOver;
    hide Normalize;
    hide NegatedOperands;
    hide Positives;
    if args == [] {
      EmitShift(k, st, None, body);
    } else if |args| == 1 {
      HeadShift(level, k, st, args[0], x, body);
    } else {
      var positives := Positives(args);
      var conj := Normalize(Junction(And, NegatedOperands(args)));
      BodyShift(level, k, st, conj, x, true);
      var extra := Body(level, st, conj, x, true);
      if extra.Ok? && |positives| <= 1 {
        HeadOverShift(level, k, extra.value.st, if positives == [] then Bottom else positives[0], x, body,
          extra.value.alternatives);
      }
    }
  }

  lemma {:induction false} HeadOverShift(level: nat, k: nat, st: State, e: Expr, x: Term, body: seq<Atom>,
      alternatives: seq<seq<Atom>>)
    ensures HeadOver(level, Shifted(k, st), e, RenameTerm(Shift(k), x), RenameBody(Shift(k), body),
      MapBodies(Shift(k), alternatives))
      == ShiftedState(k, HeadOver(level, st, e, x, body, alternatives))
    decreases Weight(e), 3, |alternatives|
  {
    hide Grows;
    hide SameTables;
    hide Head;
    hide RenameBody;
    if alternatives != [] {
      RenameBodyConcat(Shift(k), body, alternatives[0]);
      HeadShift(level, k, st, e, x, body + alternatives[0]);
      var first := Head(level, st, e, x, body + alternatives[0]);
      if first.Ok? { HeadOverShift(level, k, first.value, e, x, body, alternatives[1..]); }
    }
  }

  lemma {:induction false} HeadEachShift(level: nat, k: nat, st: State, args: seq<Expr>, x: Term, body: seq<Atom>)
    ensures HeadEach(level, Shifted(k, st), args, RenameTerm(Shift(k), x), RenameBody(Shift(k), body)) ==
      ShiftedState(k, HeadEach(level, st, args, x, body))
    decreases Weights(args) + 1, 3, 0
  {
    hide Grows;
    hide SameTables;
    hide Head;
    hide RenameBody;
    if args != [] {
      HeadShift(level, k, st, args[0], x, body);
      var first := Head(level, st, args[0], x, body);
      if first.Ok? { HeadEachShift(level, k, first.value, args[1..], x, body); }
    }
  }

  function MapTerms(f: nat -> nat, terms: seq<Term>): (r: seq<Term>)
    ensures |r| == |terms|
    ensures forall i | 0 <= i < |terms| :: r[i] == RenameTerm(f, terms[i])
  {
    if terms == [] then [] else [RenameTerm(f, terms[0])] + MapTerms(f, terms[1..])
  }

  lemma {:induction false} EdgesMap(f: nat -> nat, p: Property, x: Term, witnesses: seq<Term>, body: seq<Atom>)
    ensures Edges(p, RenameTerm(f, x), MapTerms(f, witnesses), RenameBody(f, body)) ==
      MapRules(f, Edges(p, x, witnesses, body))
  {
    hide RenameBody;
    if witnesses != [] {
      assert MapTerms(f, witnesses)[1..] == MapTerms(f, witnesses[1..]);
      EdgesMap(f, p, x, witnesses[1..], body);
    }
  }

  lemma {:induction false} DifferentConcat(a: seq<(Term, Term)>, b: seq<(Term, Term)>, body: seq<Atom>)
    ensures Different(a + b, body) == Different(a, body) + Different(b, body)
  {
    if a == [] {
      assert a + b == b;
    } else {
      assert (a + b)[1..] == a[1..] + b && (a + b)[0] == a[0];
      DifferentConcat(a[1..], b, body);
    }
  }

  lemma {:induction false} MapRulesConcat(f: nat -> nat, a: seq<Rule>, b: seq<Rule>)
    ensures MapRules(f, a + b) == MapRules(f, a) + MapRules(f, b)
  {
    hide RenameBody;
    hide RenameHead;
    if a == [] {
      assert a + b == b;
    } else {
      assert (a + b)[1..] == a[1..] + b && (a + b)[0] == a[0];
      MapRulesConcat(f, a[1..], b);
    }
  }

  lemma {:induction false} DifferentPairsMap(f: nat -> nat, a: Term, others: seq<Term>, body: seq<Atom>)
    ensures Different(Pairs(RenameTerm(f, a), MapTerms(f, others)), RenameBody(f, body)) ==
      MapRules(f, Different(Pairs(a, others), body))
  {
    hide RenameBody;
    if others != [] {
      assert MapTerms(f, others)[1..] == MapTerms(f, others[1..]);
      DifferentPairsMap(f, a, others[1..], body);
      assert Pairs(a, others)[1..] == Pairs(a, others[1..]);
      assert Pairs(RenameTerm(f, a), MapTerms(f, others))[1..] == Pairs(RenameTerm(f, a), MapTerms(f, others[1..]));
    }
  }

  lemma {:induction false} DifferentMap(f: nat -> nat, terms: seq<Term>, body: seq<Atom>)
    ensures Different(Combinations(MapTerms(f, terms)), RenameBody(f, body)) ==
      MapRules(f, Different(Combinations(terms), body))
  {
    hide RenameBody;
    hide Different;
    if terms != [] {
      var a, others := terms[0], terms[1..];
      assert MapTerms(f, terms)[1..] == MapTerms(f, others);
      DifferentMap(f, others, body);
      DifferentPairsMap(f, a, others, body);
      DifferentConcat(Pairs(a, others), Combinations(others), body);
      MapRulesConcat(f, Different(Pairs(a, others), body), Different(Combinations(others), body));
      DifferentConcat(Pairs(RenameTerm(f, a), MapTerms(f, others)), Combinations(MapTerms(f, others)),
        RenameBody(f, body));
    } else {
      EmptyDifferent(f, body);
    }
  }

  lemma EmptyDifferent(f: nat -> nat, body: seq<Atom>)
    ensures Different([], RenameBody(f, body)) == MapRules(f, Different([], body))
  {
  }

  lemma WitnessesMap(f: nat -> nat, p: Property, n: nat, x: Term)
    ensures Witnesses(Min(p, n), RenameTerm(f, x), n) == MapTerms(f, Witnesses(Min(p, n), x, n))
  {
  }

  lemma HeadMinShift(level: nat, k: nat, st: State, p: Property, n: nat, x: Term, body: seq<Atom>)
    ensures HeadMin(level, Shifted(k, st), p, n, RenameTerm(Shift(k), x), RenameBody(Shift(k), body)) ==
      ShiftedState(k, HeadMin(level, st, p, n, x, body))
  {
    hide Grows;
    hide SameTables;
    hide Emit;
    hide EmitAll;
    hide RenameBody;
    hide Combinations;
    hide Edges;
    hide Different;
    hide Witnesses;
    hide MapTerms;
    hide MapRules;
    var f := Shift(k);
    EmitShift(k, st, Some(TopAtom(x)), body);
    var witnesses := Witnesses(Min(p, n), x, n);
    WitnessesMap(f, p, n, x);
    EdgesMap(f, p, x, witnesses, body);
    EmitAllShift(k, st, Edges(p, x, witnesses, body));
    var linked := EmitAll(st, Edges(p, x, witnesses, body));
    DifferentMap(f, witnesses, body);
    if linked.Ok? { EmitAllShift(k, linked.value, Different(Combinations(witnesses), body)); }
  }

  lemma HeadMaxShift(level: nat, k: nat, st: State, p: Property, n: nat, x: Term, body: seq<Atom>)
    ensures HeadMax(level, Shifted(k, st), p, n, RenameTerm(Shift(k), x), RenameBody(Shift(k), body)) ==
      ShiftedState(k, HeadMax(level, st, p, n, x, body))
  {
    hide Grows;
    hide SameTables;
    hide Emit;
    hide RenameBody;
    var f := Shift(k);
    var y, z := st.Next(), st.Bump().Next();
    BodyOfOne(f, RoleFor(p, x, y));
    BodyOfTwo(f, RoleFor(p, x, y), RoleFor(p, x, z));
    RenameBodyConcat(f, body, [RoleFor(p, x, y)]);
    RenameBodyConcat(f, body, [RoleFor(p, x, y), RoleFor(p, x, z)]);
    EmitShift(k, st.Bump(), None, body + [RoleFor(p, x, y)]);
    EmitShift(k, st.Bump().Bump(), Some(EqAtom(y, z)), body + [RoleFor(p, x, y), RoleFor(p, x, z)]);
  }

  // ----- Axioms -----

  lemma InclusionShift(level: nat, k: nat, st: State, left: Expr, right: Expr)
    ensures Inclusion(level, Shifted(k, st), left, right) == ShiftedState(k, Inclusion(level, st, left, right))
  {
    hide Grows;
    hide SameTables;
    hide Body;
    hide Head;
    hide HeadOver;
    hide RenameBody;
    hide MapBodies;
    hide Injective;
    var f := Shift(k);
    var x := st.Next();
    EmptyMapOnly(f);
    BodyShift(level, k, st.Bump(), left, x, true);
    var bodies := Body(level, st.Bump(), left, x, true);
    if bodies.Ok? {
      BodyOfOne(f, TopAtom(x));
      EmptyBody(f);
      if bodies.value.alternatives == [] {
        HeadShift(level, k, bodies.value.st, right, x, [TopAtom(x)]);
      } else {
        HeadOverShift(level, k, bodies.value.st, right, x, [], bodies.value.alternatives);
      }
    }
  }

  lemma EmptyMapOnly(f: nat -> nat)
    ensures forall alternatives :: MapBodies(f, alternatives) == [] <==> alternatives == []
  {
  }

  lemma EmptyBody(f: nat -> nat)
    ensures RenameBody(f, []) == []
  {
  }

  lemma DisjointShift(level: nat, k: nat, st: State, left: Expr, right: Expr)
    ensures Disjoint(level, Shifted(k, st), left, right) == ShiftedState(k, Disjoint(level, st, left, right))
  {
    hide Grows;
    hide SameTables;
    hide Body;
    hide EmitAll;
    hide Clauses;
    hide Cross;
    hide RenameBody;
    hide MapBodies;
    hide MapRules;
    hide BodyGrows;
    hide Disjoint;
    var f := Shift(k);
    var x := st.Next();
    EmptyBody(f);
    ShiftedNext(k, st);
    DisjointUnfolds(level, st, left, right);
    DisjointUnfolds(level, Shifted(k, st), left, right);
    BodyShift(level, k, st.Bump(), left, x, true);
    var first := Body(level, st.Bump(), left, x, true);
    if first.Ok? {
      BodyShift(level, k, first.value.st, right, x, true);
      var second := Body(level, first.value.st, right, x, true);
      if second.Ok? {
        CrossMap(f, first.value.alternatives, second.value.alternatives);
        var cross := Cross(first.value.alternatives, second.value.alternatives);
        ClausesMap(f, None, [], cross);
        EmitAllShift(k, second.value.st, Clauses(None, [], cross));
      }
    }
  }

  lemma {:induction false} DisjointPairsShift(level: nat, k: nat, st: State, pairs: seq<(Expr, Expr)>)
    ensures DisjointPairs(level, Shifted(k, st), pairs) == ShiftedState(k, DisjointPairs(level, st, pairs))
    decreases |pairs|
  {
    hide Grows;
    hide SameTables;
    hide Disjoint;
    hide Normalize;
    if pairs != [] {
      DisjointShift(level, k, st, Normalize(pairs[0].0), Normalize(pairs[0].1));
      var first := Disjoint(level, st, Normalize(pairs[0].0), Normalize(pairs[0].1));
      if first.Ok? { DisjointPairsShift(level, k, first.value, pairs[1..]); }
    }
  }

  lemma ClassAxiomShift(level: nat, k: nat, st: State, ax: Axiom)
    requires ax.AboutClasses()
    ensures CompileClassAxiom(level, Shifted(k, st), ax) == ShiftedState(k, CompileClassAxiom(level, st, ax))
  {
    hide Grows;
    hide SameTables;
    hide Inclusion;
    hide Disjoint;
    hide Normalize;
    match ax
    case SubClass(c, d) => InclusionShift(level, k, st, Normalize(c), Normalize(d));
    case EquivalentClasses(c, d) =>
      InclusionShift(level, k, st, Normalize(c), Normalize(d));
      var forward := Inclusion(level, st, Normalize(c), Normalize(d));
      if forward.Ok? { InclusionShift(level, k, forward.value, Normalize(d), Normalize(c)); }
    case DisjointClasses(c, d) => DisjointShift(level, k, st, Normalize(c), Normalize(d));
    case AllDisjoint(members) => DisjointPairsShift(level, k, st, Combinations(members));
  }

  lemma ImplicationShift(k: nat, st: State, p: Property, q: Property, i: nat, j: nat)
    ensures Implication(Shifted(k, st), p, q, Var(i + k), Var(j + k)) ==
      ShiftedState(k, Implication(st, p, q, Var(i), Var(j)))
  {
    hide Grows;
    hide SameTables;
    hide Emit;
    BodyOfOne(Shift(k), RoleFor(p, Var(i), Var(j)));
    EmitShift(k, st, Some(RoleFor(q, Var(i), Var(j))), [RoleFor(p, Var(i), Var(j))]);
  }

  lemma RoleAxiomShift(level: nat, k: nat, st: State, ax: Axiom)
    requires ax.AboutRoles()
    ensures CompileRoleAxiom(level, Shifted(k, st), ax) == ShiftedState(k, CompileRoleAxiom(level, st, ax))
  {
    hide Grows;
    hide SameTables;
    hide Implication;
    hide Head;
    hide Normalize;
    hide RenameBody;
    var n := st.counter;
    var x, y := Var(n + 1), Var(n + 2);
    var two := st.Bump().Bump();
    BodyOfOne(Shift(k), RoleFor(ax.p, x, y));
    match ax
    case SubProperty(p, q) => ImplicationShift(k, two, p, q, n + 1, n + 2);
    case EquivalentProperties(p, q) =>
      ImplicationShift(k, two, p, q, n + 1, n + 2);
      var forward := Implication(two, p, q, x, y);
      if forward.Ok? { ImplicationShift(k, forward.value, q, p, n + 1, n + 2); }
    case InverseProperties(p, q) =>
      ImplicationShift(k, two, p, q.Flip(), n + 1, n + 2);
      var forward := Implication(two, p, q.Flip(), x, y);
      if forward.Ok? { ImplicationShift(k, forward.value, q.Flip(), p, n + 1, n + 2); }
    case Domain(p, c) => HeadShift(level, k, two, Normalize(c), x, [RoleFor(p, x, y)]);
    case Range(p, c) => HeadShift(level, k, two, Normalize(c), y, [RoleFor(p, x, y)]);
  }

  lemma CharacteristicShift(level: nat, k: nat, st: State, ax: Axiom)
    requires ax.Characteristic()
    ensures CompileCharacteristic(level, Shifted(k, st), ax) == ShiftedState(k, CompileCharacteristic(level, st, ax))
  {
    hide Grows;
    hide SameTables;
    hide Emit;
    hide RenameBody;
    var f, n, p := Shift(k), st.counter, ax.p;
    var x, y, z := Var(n + 1), Var(n + 2), Var(n + 3);
    var three := st.Bump().Bump().Bump();
    match ax
    case Transitive(_) =>
      BodyOfTwo(f, RoleFor(p, x, y), RoleFor(p, y, z));
      EmitShift(k, three, Some(RoleFor(p, x, z)), [RoleFor(p, x, y), RoleFor(p, y, z)]);
    case Symmetric(_) =>
      BodyOfOne(f, RoleFor(p, x, y));
      EmitShift(k, three, Some(RoleFor(p, y, x)), [RoleFor(p, x, y)]);
    case Functional(_) =>
      BodyOfTwo(f, RoleFor(p, x, y), RoleFor(p, x, z));
      EmitShift(k, three, Some(EqAtom(y, z)), [RoleFor(p, x, y), RoleFor(p, x, z)]);
    case InverseFunctional(_) =>
      BodyOfTwo(f, RoleFor(p, y, x), RoleFor(p, z, x));
      EmitShift(k, three, Some(EqAtom(y, z)), [RoleFor(p, y, x), RoleFor(p, z, x)]);
  }

  lemma AssertionShift(level: nat, k: nat, st: State, ax: Axiom)
    requires ax.Assertion()
    ensures CompileAssertion(level, Shifted(k, st), ax) == ShiftedState(k, CompileAssertion(level, st, ax))
  {
    hide Grows;
    hide SameTables;
    hide Emit;
    hide EmitAll;
    hide Head;
    hide Normalize;
    hide RenameBody;
    hide Combinations;
    hide Different;
    var f := Shift(k);
    EmptyBody(f);
    match ax
    case ClassAssertion(a, c) => HeadShift(level, k, st, Normalize(c), Const(a), []);
    case PropertyAssertion(name, a, b) => EmitShift(k, st, Some(RoleAtom(name, Const(a), Const(b))), []);
    case SameAs(a, b) => EmitShift(k, st, Some(EqAtom(Const(a), Const(b))), []);
    case DifferentFrom(a, b) => EmitShift(k, st, Some(NeqAtom(Const(a), Const(b))), []);
    case AllDifferent(nodes) =>
      DifferentMap(f, Constants(nodes), []);
      assert MapTerms(f, Constants(nodes)) == Constants(nodes);
      EmitAllShift(k, st, Different(Combinations(Constants(nodes)), []));
    case NamedIndividual(a) => EmitShift(k, st, Some(TopAtom(Const(a))), []);
  }

  /** Starting the counter later changes nothing but the counter: same rules, facts, tables, same failure. */
  lemma {:induction false} CounterIrrelevant(level: nat, k: nat, st: State, axioms: seq<Axiom>)
    ensures CompileAxioms(level, Shifted(k, st), axioms) == ShiftedState(k, CompileAxioms(level, st, axioms))
    decreases |axioms|
  {
    hide CompileClassAxiom;
    hide CompileRoleAxiom;
    hide CompileCharacteristic;
    hide CompileAssertion;
    if axioms != [] {
      var ax := axioms[0];
      if ax.AboutClasses() {
        ClassAxiomShift(level, k, st, ax);
      } else if ax.AboutRoles() {
        RoleAxiomShift(level, k, st, ax);
      } else if ax.Characteristic() {
        CharacteristicShift(level, k, st, ax);
      } else {
        AssertionShift(level, k, st, ax);
      }
      var first := CompileAxiom(level, st, ax);
      if first.Ok? { CounterIrrelevant(level, k, first.value, axioms[1..]); }
    }
  }
}
