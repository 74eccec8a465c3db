/** The compiler as the object it is: methods that update its rules, facts, counter and definition tables. */
module Compiler {
  import opened Options
  import opened Expressions
  import opened Normalization
  import opened Axioms
  import opened Rules
  import opened Semantics
  import opened Structures
  import opened Antecedents
  import Soundness
  import Completeness
  import Acceptance
  import Budget
  import ProgramFacts
  import T = Translation
  import opened Results

  /** A method's outcome and final state are those of the specification. */
  ghost predicate Follows(r: Result<()>, after: T.State, spec: Result<T.State>) {
    match spec
    case Ok(s) => r == Ok(()) && after == s
    case Err(reason) => r == Err(reason)
  }

  ghost predicate FollowsBodies(r: Result<seq<seq<Atom>>>, after: T.State, spec: Result<T.Bodies>) {
    match spec
    case Ok(b) => r == Ok(b.alternatives) && after == b.st
    case Err(reason) => r == Err(reason)
  }

  // ----- Canonical variables through a dictionary -----

  /** The dictionary numbers the given names in order. */
  ghost predicate Numbered(variables: map<nat, nat>, names: seq<nat>) {
    && NoRepeats(names)
    && (forall i :: i in variables <==> i in names)
    && (forall k | 0 <= k < |names| :: variables[names[k]] == k + 1)
  }

  lemma NumberedIndex(variables: map<nat, nat>, names: seq<nat>, i: nat)
    requires Numbered(variables, names) && i in names
    ensures variables[i] == Numbering(names)(i)
  {
    var k := IndexOf(names, i);
  }

  lemma {:induction false} NumberedSize(variables: map<nat, nat>, names: seq<nat>)
    requires Numbered(variables, names)
    ensures |variables| == |names|
  {
    if names == [] {
      assert variables == map[];
    } else {
      var last := names[|names| - 1];
      var front := names[..|names| - 1];
      var fewer := variables - {last};
      assert names == front + [last];
      NumberedSize(fewer, front);
      assert variables.Keys == fewer.Keys + {last};
    }
  }

  lemma {:induction false} DistinctExtends(a: seq<nat>, b: seq<nat>)
    ensures Distinct(a) <= Distinct(a + b)
  {
    if b == [] {
      assert a + b == a;
    } else {
      assert (a + b)[..|a + b| - 1] == a + b[..|b| - 1];
      DistinctExtends(a, b[..|b| - 1]);
    }
  }

  lemma {:induction false} IndexInPrefix(names: seq<nat>, more: seq<nat>, i: nat)
    requires names <= more && i in names
    ensures IndexOf(names, i) == IndexOf(more, i)
  {
    if names[0] != i {
      IndexInPrefix(names[1..], more[1..], i);
    }
  }

  /** Names given to variables already seen never change. */
  lemma NumberingStable(seen: seq<nat>, later: seq<nat>, i: nat)
    requires i in seen
    ensures Numbering(Distinct(seen))(i) == Numbering(Distinct(seen + later))(i)
  {
    DistinctSpec(seen);
    DistinctExtends(seen, later);
    IndexInPrefix(Distinct(seen), Distinct(seen + later), i);
  }

  lemma AtomStable(seen: seq<nat>, later: seq<nat>, a: Atom)
    requires forall i | i in AtomVars(a) :: i in seen
    ensures RenameAtom(Numbering(Distinct(seen)), a) == RenameAtom(Numbering(Distinct(seen + later)), a)
  {
    forall i | i in AtomVars(a) ensures Numbering(Distinct(seen))(i) == Numbering(Distinct(seen + later))(i) {
      NumberingStable(seen, later, i);
    }
    AtomRenameCong(Numbering(Distinct(seen)), Numbering(Distinct(seen + later)), a);
  }

  lemma {:induction false} BodyStable(seen: seq<nat>, later: seq<nat>, body: seq<Atom>)
    requires forall i | i in BodyVars(body) :: i in seen
    ensures RenameBody(Numbering(Distinct(seen)), body) == RenameBody(Numbering(Distinct(seen + later)), body)
  {
    if body != [] {
      AtomStable(seen, later, body[0]);
      BodyStable(seen, later, body[1..]);
    }
  }

  /** One more variable, numbered next if it is new. */
  lemma NumberedMore(variables: map<nat, nat>, seen: seq<nat>, i: nat)
    requires Numbered(variables, Distinct(seen))
    ensures i in variables ==> Distinct(seen + [i]) == Distinct(seen)
    ensures i !in variables ==> Distinct(seen + [i]) == Distinct(seen) + [i]
    ensures i !in variables ==> Numbered(variables[i := |Distinct(seen)| + 1], Distinct(seen) + [i])
    ensures i in Distinct(seen + [i])
  {
    hide Distinct;
    DistinctAppend(seen, i);
    NumberedExtend(variables, Distinct(seen), i);
  }

  lemma DistinctAppend(seen: seq<nat>, i: nat)
    ensures Distinct(seen + [i]) == if i in Distinct(seen) then Distinct(seen) else Distinct(seen) + [i]
  {
    assert (seen + [i])[..|seen + [i]| - 1] == seen;
  }

  lemma NumberedExtend(variables: map<nat, nat>, names: seq<nat>, i: nat)
    requires Numbered(variables, names)
    ensures i !in variables ==> Numbered(variables[i := |names| + 1], names + [i])
  {
  }

  method CanonicalTerm(t: Term, variables: map<nat, nat>, ghost seen: seq<nat>) returns (c: Term, more: map<nat, nat>)
    requires Numbered(variables, Distinct(seen))
    ensures Numbered(more, Distinct(seen + TermVars(t)))
    ensures c == RenameTerm(Numbering(Distinct(seen + TermVars(t))), t)
    decreases t
  {
    hide Distinct;
    hide Numbering;
    match t
    case Var(i) =>
      more := variables;
      if i !in variables {
        NumberedSize(variables, Distinct(seen));
        more := variables[i := |variables| + 1];
      }
      NumberedMore(variables, seen, i);
      NumberedIndex(more, Distinct(seen + [i]), i);
      c := Var(more[i]);
    case Const(_) =>
      assert seen + [] == seen;
      c, more := t, variables;
    case Skolem(k, arg) =>
      var inner;
      inner, more := CanonicalTerm(arg, variables, seen);
      c := Skolem(k, inner);
  }

  method CanonicalAtom(a: Atom, variables: map<nat, nat>, ghost seen: seq<nat>) returns (c: Atom, more: map<nat, nat>)
    requires Numbered(variables, Distinct(seen))
    ensures Numbered(more, Distinct(seen + AtomVars(a)))
    ensures c == RenameAtom(Numbering(Distinct(seen + AtomVars(a))), a)
  {
    var t;
    match a
    case RoleAtom(name, _, _) =>
      var s;
      s, t, more := CanonicalPair(a.s, a.t, variables, seen);
      c := RoleAtom(name, s, t);
    case EqAtom(_, _) =>
      var s;
      s, t, more := CanonicalPair(a.s, a.t, variables, seen);
      c := EqAtom(s, t);
    case NeqAtom(_, _) =>
      var s;
      s, t, more := CanonicalPair(a.s, a.t, variables, seen);
      c := NeqAtom(s, t);
    case ClassAtom(name, _) => t, more := CanonicalTerm(a.t, variables, seen); c := ClassAtom(name, t);
    case TopAtom(_) => t, more := CanonicalTerm(a.t, variables, seen); c := TopAtom(t);
    case BodyName(e, _) => t, more := CanonicalTerm(a.t, variables, seen); c := BodyName(e, t);
    case HeadName(e, _) => t, more := CanonicalTerm(a.t, variables, seen); c := HeadName(e, t);
  }

  method CanonicalPair(s: Term, t: Term, variables: map<nat, nat>, ghost seen: seq<nat>)
      returns (c: Term, d: Term, more: map<nat, nat>)
    requires Numbered(variables, Distinct(seen))
    ensures Numbered(more, Distinct(seen + (TermVars(s) + TermVars(t))))
    ensures c == RenameTerm(Numbering(Distinct(seen + (TermVars(s) + TermVars(t)))), s)
    ensures d == RenameTerm(Numbering(Distinct(seen + (TermVars(s) + TermVars(t)))), t)
  {
    hide Distinct;
    hide Numbered;
    hide Numbering;
    ghost var first := seen + TermVars(s);
    ghost var both := first + TermVars(t);
    assert both == seen + (TermVars(s) + TermVars(t));
    c, more := CanonicalTerm(s, variables, seen);
    d, more := CanonicalTerm(t, more, first);
    AtomStable(first, TermVars(t), TopAtom(s));
  }

  method CanonicalBody(body: seq<Atom>, variables: map<nat, nat>, ghost first: seq<nat>) returns (c: seq<Atom>)
    requires Numbered(variables, Distinct(first))
    ensures c == RenameBody(Numbering(Distinct(first + BodyVars(body))), body)
  {
    hide *;
    var more := variables;
    ghost var seen := first;
    c := [];
    RenameEmpty(Numbering(Distinct(first)));
    assert body[..0] == [] && first + [] == first;
    for i := 0 to |body|
      invariant seen == first + BodyVars(body[..i])
      invariant Numbered(more, Distinct(seen))
      invariant c == RenameBody(Numbering(Distinct(seen)), body[..i])
    {
      var a;
      ghost var next := seen + AtomVars(body[i]);
      a, more := CanonicalAtom(body[i], more, seen);
      RenameBodyAppend(Numbering(Distinct(next)), body[..i], body[i]);
      BodyVarsAppend(body[..i], body[i]);
      BodyStable(seen, AtomVars(body[i]), body[..i]);
      assert body[..i + 1] == body[..i] + [body[i]];
      assert next == first + (BodyVars(body[..i]) + AtomVars(body[i]));
      seen := next;
      c := c + [a];
    }
    assert body[..|body|] == body;
  }

  /** Canonical renaming as the source does it: one dictionary, filled head first. */
  method CanonicalRule(head: Option<Atom>, body: seq<Atom>) returns (rule: Rule)
    ensures rule == Canonical(head, body)
  {
    hide Distinct;
    hide Numbering;
    hide RenameBody;
    hide BodyVars;
    if head.Some? {
      EmptyNumbering();
      var a, variables := CanonicalAtom(head.value, map[], []);
      assert [] + AtomVars(head.value) == AtomVars(head.value);
      var newBody := CanonicalBody(body, variables, AtomVars(head.value));
      AtomStable(AtomVars(head.value), BodyVars(body), head.value);
      rule := Rule(Some(a), newBody);
    } else {
      EmptyNumbering();
      var newBody := CanonicalBody(body, map[], []);
      rule := Rule(None, newBody);
    }
  }

  lemma EmptyNumbering()
    ensures Numbered(map[], Distinct([]))
  {
  }

  lemma RenameEmpty(f: nat -> nat)
    ensures RenameBody(f, []) == [] && BodyVars([]) == []
  {
  }

  lemma {:induction false} RenameBodyAppend(f: nat -> nat, body: seq<Atom>, a: Atom)
    ensures RenameBody(f, body + [a]) == RenameBody(f, body) + [RenameAtom(f, a)]
  {
    hide RenameAtom;
    if body == [] {
      assert [] + [a] == [a] && [a][1..] == [];
    } else {
      assert (body + [a])[1..] == body[1..] + [a] && (body + [a])[0] == body[0];
      RenameBodyAppend(f, body[1..], a);
    }
  }

  lemma {:induction false} BodyVarsAppend(body: seq<Atom>, a: Atom)
    ensures BodyVars(body + [a]) == BodyVars(body) + AtomVars(a)
  {
    hide AtomVars;
    if body == [] {
      assert [] + [a] == [a] && [a][1..] == [] && AtomVars(a) + [] == AtomVars(a);
    } else {
      assert (body + [a])[1..] == body[1..] + [a] && (body + [a])[0] == body[0];
      BodyVarsAppend(body[1..], a);
    }
  }

  // ----- The compiler -----

  class Compiler {
    const level: nat
    var rules: seq<Rule>
    var facts: set<Atom>
    var counter: nat
    var bodyDefinitions: set<Expr>
    var auxiliaryDefinitions: set<Expr>

    constructor (level: nat)
      ensures this.level == level && View() == T.INITIAL
    {
      this.level := level;
      rules, facts, counter, bodyDefinitions, auxiliaryDefinitions := [], {}, 0, {}, {};
    }

    function View(): T.State
      reads this
    {
      T.State(rules, facts, counter, bodyDefinitions, auxiliaryDefinitions)
    }

    method Fresh() returns (x: Term)
      modifies this`counter
      ensures x == old(View()).Next() && View() == old(View()).Bump()
    {
      counter := counter + 1;
      x := Var(counter);
    }

    method Emit(head: Option<Atom>, raw: seq<Atom>) returns (r: Result<()>)
      modifies this
      ensures Follows(r, View(), T.Emit(old(View()), head, raw))
      ensures r.Err? ==> View() == old(View())
    {
      var body := Distinct(raw);
      if head.Some? && body == [] && GroundAtom(head.value) {
        facts := facts + {head.value};
        return Ok(());
      }
      if |rules| >= T.MAX_COMPILED_RULES {
        return Err(OverBudget);
      }
      var rule := CanonicalRule(head, body);
      rules := rules + [rule];
      return Ok(());
    }

    method EmitAll(clauses: seq<Rule>) returns (r: Result<()>)
      modifies this
      ensures Follows(r, View(), T.EmitAll(old(View()), clauses))
    {
      hide T.Emit;
      for i := 0 to |clauses|
        invariant T.EmitAll(old(View()), clauses) == T.EmitAll(View(), clauses[i..])
      {
        assert clauses[i..][0] == clauses[i] && clauses[i..][1..] == clauses[i + 1..];
        var _ :- Emit(clauses[i].head, clauses[i].body);
      }
      r := Ok(());
    }

    // ----- Antecedents -----

    method BodyReference(e: Expr, x: Term) returns (r: Result<seq<seq<Atom>>>)
      modifies this
      ensures FollowsBodies(r, View(), T.BodyReference(level, old(View()), e, x))
      decreases Weight(e), 1
    {
      hide T.Body;
      if e !in bodyDefinitions {
        bodyDefinitions := bodyDefinitions + {e};
        var y := Fresh();
        var conjuncts :- Body(e, y, false);
        var _ :- EmitAll(T.Clauses(Some(BodyName(e, y)), [], conjuncts));
      }
      r := Ok([[BodyName(e, x)]]);
    }

    method Body(e: Expr, x: Term, factor: bool) returns (r: Result<seq<seq<Atom>>>)
      modifies this
      ensures FollowsBodies(r, View(), T.Body(level, old(View()), e, x, factor))
      decreases Weight(e), if factor then 2 else 0
    {
      hide T.BodyReference;
      hide T.BodyParts;
      hide T.BodyUnion;
      hide T.Product;
      if factor && T.Factored(e) {
        r := BodyReference(e, x);
        return;
      }
      match e
      case Class(c) => r := Ok([[ClassAtom(c, x)]]);
      case Top =>
        var _ :- T.Require(level, 1);
        r := Ok([[TopAtom(x)]]);
      case Bottom =>
        var _ :- T.Require(level, 2);
        r := Ok([]);
      case Junction(And, args) =>
        if args == [] {
          r := Body(Top, x, true);
        } else {
          var parts :- BodyParts(args, x);
          r := Ok(T.Product(parts));
        }
      case Junction(Or, args) =>
        if args == [] { var _ :- T.Require(level, 2); }
        r := BodyUnion(args, x);
      case Value(p, a) => r := Ok([[RoleFor(p, x, Const(a))]]);
      case Exists(p, c) =>
        var y := Fresh();
        var inner :- Body(c, y, true);
        r := Ok(T.Prefixed([RoleFor(p, x, y)], inner));
      case OneOf(items) =>
        var _ :- T.Require(level, 1);
        r := Ok(T.Enumerated(items, x));
      case Min(p, n) =>
        var _ :- T.Require(level, 1);
        if n == 0 {
          r := Ok([[TopAtom(x)]]);
        } else if n == 1 {
          var y := Fresh();
          r := Ok([[RoleFor(p, x, y)]]);
        } else {
          r := Err(NotHorn);
        }
      case _ => r := Err(NotHorn);
    }

    /** Prepends finished parts to the outcome for the remaining children. */
    static ghost function Resumed(done: seq<seq<seq<Atom>>>, rest: Result<T.Parts>): Result<T.Parts> {
      match rest
      case Ok(p) => Ok(T.Parts(p.st, done + p.parts))
      case Err(reason) => Err(reason)
    }

    method BodyParts(args: seq<Expr>, x: Term) returns (r: Result<seq<seq<seq<Atom>>>>)
      modifies this
      ensures match T.BodyParts(level, old(View()), args, x) {
        case Ok(p) => r == Ok(p.parts) && View() == p.st
        case Err(reason) => r == Err(reason)
      }
      decreases Weights(args) + 1, 0
    {
      hide T.Body;
      hide T.BodyReference;
      var parts: seq<seq<seq<Atom>>> := [];
      assert args[0..] == args;
      assert forall rest: seq<seq<seq<Atom>>> :: parts + rest == rest;
      for i := 0 to |args|
        invariant T.BodyParts(level, old(View()), args, x) == Resumed(parts, T.BodyParts(level, View(), args[i..], x))
      {
        WeightOfMember(args, i);
        assert args[i..][0] == args[i] && args[i..][1..] == args[i + 1..];
        var part;
        if args[i].OneOf? {
          part :- BodyReference(args[i], x);
        } else {
          part :- Body(args[i], x, true);
        }
        assert forall rest: seq<seq<seq<Atom>>> :: parts + ([part] + rest) == (parts + [part]) + rest;
        parts := parts + [part];
      }
      assert parts + [] == parts;
      r := Ok(parts);
    }

    static ghost function ResumedUnion(done: seq<seq<Atom>>, rest: Result<T.Bodies>): Result<T.Bodies> {
      match rest
      case Ok(b) => Ok(T.Bodies(b.st, done + b.alternatives))
      case Err(reason) => Err(reason)
    }

    method BodyUnion(args: seq<Expr>, x: Term) returns (r: Result<seq<seq<Atom>>>)
      modifies this
      ensures FollowsBodies(r, View(), T.BodyUnion(level, old(View()), args, x))
      decreases Weights(args) + 1, 0
    {
      hide T.Body;
      var alternatives: seq<seq<Atom>> := [];
      assert args[0..] == args;
      assert forall rest: seq<seq<Atom>> :: alternatives + rest == rest;
      for i := 0 to |args|
        invariant T.BodyUnion(level, old(View()), args, x) ==
          ResumedUnion(alternatives, T.BodyUnion(level, View(), args[i..], x))
      {
        WeightOfMember(args, i);
        assert args[i..][0] == args[i] && args[i..][1..] == args[i + 1..];
        var terms :- Body(args[i], x, true);
        assert forall rest: seq<seq<Atom>> :: alternatives + (terms + rest) == (alternatives + terms) + rest;
        alternatives := alternatives + terms;
      }
      assert alternatives + [] == alternatives;
      r := Ok(alternatives);
    }

    // ----- Consequents -----

    method HeadTop(x: Term, body: seq<Atom>) returns (r: Result<()>)
      modifies this
      ensures Follows(r, View(), T.HeadTop(level, old(View()), x, body))
    {
      hide T.Emit;
      var _ :- T.Require(level, 1);
      r := Emit(Some(TopAtom(x)), body);
    }

    method HeadBottom(body: seq<Atom>) returns (r: Result<()>)
      modifies this
      ensures Follows(r, View(), T.HeadBottom(level, old(View()), body))
    {
      hide T.Emit;
      var _ :- T.Require(level, 2);
      r := Emit(None, body);
    }

    method CardinalityMin(p: Property, n: nat, x: Term, body: seq<Atom>) returns (r: Result<()>)
      modifies this
      ensures Follows(r, View(), T.HeadMin(level, old(View()), p, n, x, body))
    {
      hide T.Emit;
      var _ :- T.Require(level, 1);
      if n == 0 {
        r := HeadTop(x, body);
        return;
      }
      var _ :- T.Require(level, 3);
      if n * (n + 1) / 2 + |rules| > T.MAX_COMPILED_RULES {
        return Err(OverBudget);
      }
      var witnesses := T.Witnesses(Expr.Min(p, n), x, n);
      var _ :- EmitAll(T.Edges(p, x, witnesses, body));
      r := EmitAll(T.Different(Combinations(witnesses), body));
    }

    method CardinalityMax(p: Property, n: nat, x: Term, body: seq<Atom>) returns (r: Result<()>)
      modifies this
      ensures Follows(r, View(), T.HeadMax(level, old(View()), p, n, x, body))
    {
      hide T.Emit;
      if n == 0 {
        var _ :- T.Require(level, 2);
        var y := Fresh();
        r := Emit(None, body + [RoleFor(p, x, y)]);
      } else if n == 1 {
        var _ :- T.Require(level, 1);
        var y := Fresh();
        var z := Fresh();
        r := Emit(Some(EqAtom(y, z)), body + [RoleFor(p, x, y), RoleFor(p, x, z)]);
      } else {
        r := Err(NotHorn);
      }
    }

    method Head(e: Expr, x: Term, body: seq<Atom>) returns (r: Result<()>)
      modifies this
      ensures Follows(r, View(), T.Head(level, old(View()), e, x, body))
      decreases Weight(e), if x.Skolem? then 2 else 1, 0
    {
      hide T.Emit;
      hide T.HeadMin;
      hide T.HeadMax;
      hide T.HeadTop;
      hide T.HeadBottom;
      hide T.HeadEach;
      if T.Named(e, x) {
        var _ :- Emit(Some(HeadName(e, x)), body);
        if e !in auxiliaryDefinitions {
          auxiliaryDefinitions := auxiliaryDefinitions + {e};
          var y := Fresh();
          r := Head(e, y, [HeadName(e, y)]);
        } else {
          r := Ok(());
        }
        return;
      }
      match e
      case Class(c) => r := Emit(Some(ClassAtom(c, x)), body);
      case Top => r := HeadTop(x, body);
      case Bottom => r := HeadBottom(body);
      case Junction(And, args) =>
        if args == [] { r := HeadTop(x, body); } else { r := HeadEach(args, x, body); }
      case Value(p, a) => r := Emit(Some(RoleFor(p, x, Const(a))), body);
      case Forall(p, c) =>
        var y := Fresh();
        r := Head(c, y, body + [RoleFor(p, x, y)]);
      case Exists(p, c) =>
        if c.Bottom? {
          r := HeadBottom(body);
        } else {
          var _ :- T.Require(level, 3);
          var w := T.Witness(e, x, 0);
          var _ :- Emit(Some(RoleFor(p, x, w)), body);
          r := Head(c, w, body);
        }
      case OneOf(items) =>
        if items == [] {
          r := HeadBottom(body);
        } else {
          var _ :- T.Require(level, 1);
          if |items| != 1 { return Err(NotHorn); }
          r := Emit(Some(EqAtom(x, Const(items[0]))), body);
        }
      case Not(c) => r := HeadNot(c, x, body);
      case Min(p, n) => r := CardinalityMin(p, n, x, body);
      case Max(p, n) => r := CardinalityMax(p, n, x, body);
      case Exact(p, n) =>
        var _ :- CardinalityMin(p, n, x, body);
        r := CardinalityMax(p, n, x, body);
      case Junction(Or, args) => r := HeadOr(args, x, body);
    }

    method HeadNot(c: Expr, x: Term, body: seq<Atom>) returns (r: Result<()>)
      requires !x.Skolem?
      modifies this
      ensures Follows(r, View(), T.Head(level, old(View()), Not(c), x, body))
    {
      hide T.Emit;
      hide T.Body;
      var _ :- T.Require(level, 2);
      var negative :- Body(c, x, true);
      r := EmitAll(T.Clauses(None, body, negative));
    }

    method HeadOr(args: seq<Expr>, x: Term, body: seq<Atom>) returns (r: Result<()>)
      requires !x.Skolem?
      modifies this
      ensures Follows(r, View(), T.Head(level, old(View()), Junction(Or, args), x, body))
      decreases Weights(args) + 1, 4, 0
    {
      hide T.Emit;
      hide T.Body;
      hide T.HeadBottom;
      hide T.HeadOver;
      hide Normalize;
      if args == [] {
        r := HeadBottom(body);
      } else if |args| == 1 {
        r := Head(args[0], x, body);
      } else {
        var negatives, positives := T.NegatedOperands(args), T.Positives(args);
        if negatives == [] || |positives| > 1 { return Err(NotHorn); }
        var _ :- T.Require(level, 2);
        var extra :- Body(Normalize(Junction(And, negatives)), x, true);
        r := HeadOver(if positives == [] then Bottom else positives[0], x, body, extra);
      }
    }

    method HeadEach(args: seq<Expr>, x: Term, body: seq<Atom>) returns (r: Result<()>)
      modifies this
      ensures Follows(r, View(), T.HeadEach(level, old(View()), args, x, body))
      decreases Weights(args) + 1, 3, 0
    {
      hide T.Head;
      for i := 0 to |args|
        invariant T.HeadEach(level, old(View()), args, x, body) == T.HeadEach(level, View(), args[i..], x, body)
      {
        WeightOfMember(args, i);
        assert args[i..][0] == args[i] && args[i..][1..] == args[i + 1..];
        var _ :- Head(args[i], x, body);
      }
      r := Ok(());
    }

    method HeadOver(e: Expr, x: Term, body: seq<Atom>, alternatives: seq<seq<Atom>>) returns (r: Result<()>)
      modifies this
      ensures Follows(r, View(), T.HeadOver(level, old(View()), e, x, body, alternatives))
      decreases Weight(e), 3, 0
    {
      hide T.Head;
      for i := 0 to |alternatives|
        invariant T.HeadOver(level, old(View()), e, x, body, alternatives) ==
          T.HeadOver(level, View(), e, x, body, alternatives[i..])
      {
        assert alternatives[i..][0] == alternatives[i] && alternatives[i..][1..] == alternatives[i + 1..];
        var _ :- Head(e, x, body + alternatives[i]);
      }
      r := Ok(());
    }

    // ----- Axioms -----

    /** The head is checked even when the antecedent is empty; that trial leaves only the counter behind. */
    method Inclusion(left: Expr, right: Expr) returns (r: Result<()>)
      modifies this
      ensures Follows(r, View(), T.Inclusion(level, old(View()), left, right))
    {
      hide T.Body;
      hide T.Head;
      hide T.HeadOver;
      var x := Fresh();
      var bodies :- Body(left, x, true);
      if bodies == [] {
        var priorRules, priorFacts := |rules|, facts;
        var priorHeads, priorBodies := auxiliaryDefinitions, bodyDefinitions;
        var _ :- Head(right, x, [TopAtom(x)]);
        rules := rules[..priorRules];
        facts := priorFacts;
        auxiliaryDefinitions, bodyDefinitions := priorHeads, priorBodies;
        r := Ok(());
      } else {
        r := HeadOver(right, x, [], bodies);
      }
    }

    method Disjoint(left: Expr, right: Expr) returns (r: Result<()>)
      modifies this
      ensures Follows(r, View(), T.Disjoint(level, old(View()), left, right))
    {
      hide T.Body;
      var _ :- T.Require(level, 2);
      var x := Fresh();
      var first :- Body(left, x, true);
      var second :- Body(right, x, true);
      r := EmitAll(T.Clauses(None, [], T.Cross(first, second)));
    }

    method DisjointPairs(pairs: seq<(Expr, Expr)>) returns (r: Result<()>)
      modifies this
      ensures Follows(r, View(), T.DisjointPairs(level, old(View()), pairs))
    {
      hide T.Disjoint;
      for i := 0 to |pairs|
        invariant T.DisjointPairs(level, old(View()), pairs) == T.DisjointPairs(level, View(), pairs[i..])
      {
        assert pairs[i..][0] == pairs[i] && pairs[i..][1..] == pairs[i + 1..];
        var _ :- Disjoint(Normalize(pairs[i].0), Normalize(pairs[i].1));
      }
      r := Ok(());
    }

    method ClassAxiom(ax: Axiom) returns (r: Result<()>)
      requires ax.AboutClasses()
      modifies this
      ensures Follows(r, View(), T.CompileClassAxiom(level, old(View()), ax))
    {
      hide T.Inclusion;
      hide T.Disjoint;
      match ax
      case SubClass(c, d) => r := Inclusion(Normalize(c), Normalize(d));
      case EquivalentClasses(c, d) =>
        var _ :- Inclusion(Normalize(c), Normalize(d));
        r := Inclusion(Normalize(d), Normalize(c));
      case DisjointClasses(c, d) => r := Disjoint(Normalize(c), Normalize(d));
      case AllDisjoint(members) =>
        var _ :- T.Require(level, 2);
        r := DisjointPairs(Combinations(members));
    }

    method RoleAxiom(ax: Axiom) returns (r: Result<()>)
      requires ax.AboutRoles()
      modifies this
      ensures Follows(r, View(), T.CompileRoleAxiom(level, old(View()), ax))
    {
      hide T.Emit;
      hide T.Head;
      var x := Fresh();
      var y := Fresh();
      match ax
      case SubProperty(p, q) => r := Emit(Some(RoleFor(q, x, y)), [RoleFor(p, x, y)]);
      case EquivalentProperties(p, q) =>
        var _ :- Emit(Some(RoleFor(q, x, y)), [RoleFor(p, x, y)]);
        r := Emit(Some(RoleFor(p, x, y)), [RoleFor(q, x, y)]);
      case InverseProperties(p, q) =>
        var _ :- Emit(Some(RoleFor(q.Flip(), x, y)), [RoleFor(p, x, y)]);
        r := Emit(Some(RoleFor(p, x, y)), [RoleFor(q.Flip(), x, y)]);
      case Domain(p, c) => r := Head(Normalize(c), x, [RoleFor(p, x, y)]);
      case Range(p, c) => r := Head(Normalize(c), y, [RoleFor(p, x, y)]);
    }

    method Characteristic(ax: Axiom) returns (r: Result<()>)
      requires ax.Characteristic()
      modifies this
      ensures Follows(r, View(), T.CompileCharacteristic(level, old(View()), ax))
    {
      hide T.Emit;
      var x := Fresh();
      var y := Fresh();
      var z := Fresh();
      match ax
      case Transitive(p) => r := Emit(Some(RoleFor(p, x, z)), [RoleFor(p, x, y), RoleFor(p, y, z)]);
      case Symmetric(p) => r := Emit(Some(RoleFor(p, y, x)), [RoleFor(p, x, y)]);
      case Functional(p) =>
        var _ :- T.Require(level, 1);
        r := Emit(Some(EqAtom(y, z)), [RoleFor(p, x, y), RoleFor(p, x, z)]);
      case InverseFunctional(p) =>
        var _ :- T.Require(level, 1);
        r := Emit(Some(EqAtom(y, z)), [RoleFor(p, y, x), RoleFor(p, z, x)]);
    }

    method Assertion(ax: Axiom) returns (r: Result<()>)
      requires ax.Assertion()
      modifies this
      ensures Follows(r, View(), T.CompileAssertion(level, old(View()), ax))
    {
      hide T.Emit;
      hide T.Head;
      match ax
      case ClassAssertion(a, c) => r := Head(Normalize(c), Const(a), []);
      case PropertyAssertion(name, a, b) => r := Emit(Some(RoleAtom(name, Const(a), Const(b))), []);
      case SameAs(a, b) =>
        var _ :- T.Require(level, 1);
        r := Emit(Some(EqAtom(Const(a), Const(b))), []);
      case DifferentFrom(a, b) =>
        var _ :- T.Require(level, 2);
        r := Emit(Some(NeqAtom(Const(a), Const(b))), []);
      case AllDifferent(nodes) =>
        var _ :- T.Require(level, 2);
        r := EmitAll(T.Different(Combinations(T.Constants(nodes)), []));
      case NamedIndividual(a) => r := Emit(Some(TopAtom(Const(a))), []);
    }

    method CompileAxiom(ax: Axiom) returns (r: Result<()>)
      modifies this
      ensures Follows(r, View(), T.CompileAxiom(level, old(View()), ax))
    {
      hide T.CompileClassAxiom;
      hide T.CompileRoleAxiom;
      hide T.CompileCharacteristic;
      hide T.CompileAssertion;
      if ax.AboutClasses() {
        r := ClassAxiom(ax);
      } else if ax.AboutRoles() {
        r := RoleAxiom(ax);
      } else if ax.Characteristic() {
        r := Characteristic(ax);
      } else {
        r := Assertion(ax);
      }
    }
  }

  /** One fresh compiler, every axiom in turn, and repeated rules dropped at the end. */
  method CompileAll<D(!new)>(level: nat, axioms: seq<Axiom>) returns (r: Result<T.Program>)
    ensures r == T.Compile(level, axioms)
    // its models
    ensures r.Ok? ==> forall S: Structure<D> | Satisfies(S, r.value.rules, r.value.facts) :: AxiomsTrue(S.base, axioms)
    ensures r.Ok? ==> forall I: Interp<D> | AxiomsTrue(I, axioms) ::
      exists S: Structure<D> :: S.base == I && Satisfies(S, r.value.rules, r.value.facts)
    // its rules
    ensures r.Ok? ==> NoRepeats(r.value.rules) && |r.value.rules| <= 100_000
    // its facts
    ensures r.Ok? ==> forall a :: TopAtom(Const(a)) in r.value.facts <==>
      || NamedIndividual(a) in axioms
      || exists c :: ClassAssertion(a, c) in axioms && Normalize(c) == Top
    ensures r.Ok? ==> forall a, c | ClassAssertion(a, c) in axioms && Normalize(c).Class? ::
      ClassAtom(Normalize(c).name, Const(a)) in r.value.facts
    ensures r.Ok? ==> forall p, a, b | PropertyAssertion(p, a, b) in axioms ::
      RoleAtom(p, Const(a), Const(b)) in r.value.facts
    ensures r.Ok? ==> forall a, b | SameAs(a, b) in axioms :: EqAtom(Const(a), Const(b)) in r.value.facts
    ensures r.Ok? ==> forall a, b | DifferentFrom(a, b) in axioms :: NeqAtom(Const(a), Const(b)) in r.value.facts
    ensures r.Ok? ==> forall ns, i, j | AllDifferent(ns) in axioms && 0 <= i < j < |ns| ::
      NeqAtom(Const(ns[i]), Const(ns[j])) in r.value.facts
    // its failures
    ensures r.Ok? ==> forall ax | ax in axioms :: Acceptance.LegalAxiom(level, ax)
    ensures r.Err? ==>
      (exists ax | ax in axioms :: !Acceptance.LegalAxiom(level, ax)) || Budget.RuleCost(axioms) > 100_000
  {
    r := RunAll(level, axioms);
    hide *;
    CompileJudged(level, axioms);
    if r.Ok? {
      CompiledMeans<D>(level, axioms, r.value);
      CompiledRules(level, axioms, r.value);
      CompiledFacts(level, axioms, r.value);
    }
  }

  method RunAll(level: nat, axioms: seq<Axiom>) returns (r: Result<T.Program>)
    ensures r == T.Compile(level, axioms)
  {
    hide T.CompileAxiom;
    var compiler := new Compiler(level);
    for i := 0 to |axioms|
      invariant fresh(compiler) && compiler.level == level
      invariant T.CompileAxioms(level, T.INITIAL, axioms) == T.CompileAxioms(level, compiler.View(), axioms[i..])
    {
      assert axioms[i..][0] == axioms[i] && axioms[i..][1..] == axioms[i + 1..];
      var _ :- compiler.CompileAxiom(axioms[i]);
    }
    r := Ok(T.Program(Distinct(compiler.rules), compiler.facts));
    assert T.CompileAxioms(level, T.INITIAL, axioms) == Ok(compiler.View());
  }

  lemma CompileJudged(level: nat, axioms: seq<Axiom>)
    ensures T.Compile(level, axioms).Ok? ==> forall ax | ax in axioms :: Acceptance.LegalAxiom(level, ax)
    ensures T.Compile(level, axioms).Err? ==>
      (exists ax | ax in axioms :: !Acceptance.LegalAxiom(level, ax)) || Budget.RuleCost(axioms) > 100_000
  {
    hide T.Compile;
    hide Acceptance.LegalAxiom;
    hide Budget.RuleCost;
    Acceptance.AcceptedLanguage(level, axioms);
    Budget.CompileWithin(level, axioms);
  }

  lemma CompiledRules(level: nat, axioms: seq<Axiom>, program: T.Program)
    requires T.Compile(level, axioms) == Ok(program)
    ensures NoRepeats(program.rules) && |program.rules| <= 100_000
  {
    hide T.CompileAxioms;
    hide NoRepeats;
    Budget.CompileWithin(level, axioms);
    DistinctSpec(T.CompileAxioms(level, T.INITIAL, axioms).value.rules);
  }

  lemma CompiledFacts(level: nat, axioms: seq<Axiom>, program: T.Program)
    requires T.Compile(level, axioms) == Ok(program)
    ensures forall a :: TopAtom(Const(a)) in program.facts <==>
      || NamedIndividual(a) in axioms
      || exists c :: ClassAssertion(a, c) in axioms && Normalize(c) == Top
    ensures forall a, c | ClassAssertion(a, c) in axioms && Normalize(c).Class? ::
      ClassAtom(Normalize(c).name, Const(a)) in program.facts
    ensures forall p, a, b | PropertyAssertion(p, a, b) in axioms :: RoleAtom(p, Const(a), Const(b)) in program.facts
    ensures forall a, b | SameAs(a, b) in axioms :: EqAtom(Const(a), Const(b)) in program.facts
    ensures forall a, b | DifferentFrom(a, b) in axioms :: NeqAtom(Const(a), Const(b)) in program.facts
    ensures forall ns, i, j | AllDifferent(ns) in axioms && 0 <= i < j < |ns| ::
      NeqAtom(Const(ns[i]), Const(ns[j])) in program.facts
  {
    hide *;
    forall a ensures TopAtom(Const(a)) in program.facts <==>
        || NamedIndividual(a) in axioms
        || exists c :: ClassAssertion(a, c) in axioms && Normalize(c) == Top
    {
      ProgramFacts.DomainFacts(level, axioms, a);
    }
    AssertedFacts(level, axioms, program);
  }

  lemma AxiomRecorded(level: nat, axioms: seq<Axiom>, program: T.Program, ax: Axiom)
    requires T.Compile(level, axioms) == Ok(program) && ax in axioms
    ensures ProgramFacts.Recorded(program.facts, ax)
  {
    hide T.CompileAxioms;
    hide ProgramFacts.Recorded;
    var i :| 0 <= i < |axioms| && axioms[i] == ax;
    ProgramFacts.AxiomsRecorded(level, T.INITIAL, axioms, i);
  }

  lemma AssertedFacts(level: nat, axioms: seq<Axiom>, program: T.Program)
    requires T.Compile(level, axioms) == Ok(program)
    ensures forall a, c | ClassAssertion(a, c) in axioms && Normalize(c).Class? ::
      ClassAtom(Normalize(c).name, Const(a)) in program.facts
    ensures forall p, a, b | PropertyAssertion(p, a, b) in axioms :: RoleAtom(p, Const(a), Const(b)) in program.facts
    ensures forall a, b | SameAs(a, b) in axioms :: EqAtom(Const(a), Const(b)) in program.facts
    ensures forall a, b | DifferentFrom(a, b) in axioms :: NeqAtom(Const(a), Const(b)) in program.facts
    ensures forall ns, i, j | AllDifferent(ns) in axioms && 0 <= i < j < |ns| ::
      NeqAtom(Const(ns[i]), Const(ns[j])) in program.facts
  {
    hide T.CompileAxioms;
    hide Normalize;
    hide T.Compile;
    forall ax | ax in axioms ensures ProgramFacts.Recorded(program.facts, ax) {
      AxiomRecorded(level, axioms, program, ax);
    }
  }

  /** The program's models satisfy the axioms, and every model of the axioms expands to one of the program. */
  lemma CompiledMeans<D(!new)>(level: nat, axioms: seq<Axiom>, program: T.Program)
    requires T.Compile(level, axioms) == Ok(program)
    ensures forall S: Structure<D> | Satisfies(S, program.rules, program.facts) :: AxiomsTrue(S.base, axioms)
    ensures forall I: Interp<D> | AxiomsTrue(I, axioms) ::
      exists S: Structure<D> :: S.base == I && Satisfies(S, program.rules, program.facts)
  {
    hide T.Compile;
    hide AxiomsTrue;
    hide Satisfies;
    forall S: Structure<D> | Satisfies(S, program.rules, program.facts) ensures AxiomsTrue(S.base, axioms) {
      Soundness.CompileSound(level, axioms, S);
    }
    forall I: Interp<D> | AxiomsTrue(I, axioms)
      ensures exists S: Structure<D> :: S.base == I && Satisfies(S, program.rules, program.facts)
    {
      Completeness.CompileComplete(level, axioms, I);
      var S := Completeness.Expansion(I);
      assert S.base == I && Satisfies(S, program.rules, program.facts);
    }
  }
}
