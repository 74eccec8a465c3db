/** Naming subexpressions keeps antecedent rules linear in the size of the antecedent. */
module Factoring {
  import opened Options
  import opened Expressions
  import opened Normalization
  import opened Axioms
  import opened Rules
  import opened Results
  import opened Translation

  /** Nodes of an expression, enumeration items included. */
  function Size(e: Expr): (n: nat)
    ensures n >= 1
    decreases e, 1
  {
    match e
    case Not(c) => 1 + Size(c)
    case Junction(_, args) => 1 + Sizes(args)
    case Exists(_, c) => 1 + Size(c)
    case Forall(_, c) => 1 + Size(c)
    case OneOf(items) => 1 + |items|
    case _ => 1
  }

  function Sizes(es: seq<Expr>): (n: nat)
    decreases es, 0
  {
    if es == [] then 0 else Size(es[0]) + Sizes(es[1..])
  }

  /** How many alternatives a factored antecedent can have. */
  function Width(e: Expr): nat { if e.OneOf? then |e.items| else 1 }

  lemma {:induction false} EmitAllCount(st: State, clauses: seq<Rule>)
    requires EmitAll(st, clauses).Ok?
    ensures |EmitAll(st, clauses).value.rules| <= |st.rules| + |clauses|
    decreases |clauses|
  {
    if clauses != [] {
      EmitAllCount(Emit(st, clauses[0].head, clauses[0].body).value, clauses[1..]);
    }
  }

  /** Rules emitted for an antecedent: fewer than twice its size. */
  lemma {:induction false} BodyLinear(level: nat, st: State, e: Expr, x: Term)
    requires Body(level, st, e, x, true).Ok?
    ensures |Body(level, st, e, x, true).value.st.rules| <= |st.rules| + (if e.OneOf? then 0 else 2 * Size(e) - 1)
    ensures |Body(level, st, e, x, true).value.alternatives| <= Width(e)
    decreases Weight(e), 2
  {
    hide BodyReference;
    if Factored(e) { ReferenceLinear(level, st, e, x); }
  }

  lemma {:induction false} ReferenceLinear(level: nat, st: State, e: Expr, x: Term)
    requires (Factored(e) || e.OneOf?) && BodyReference(level, st, e, x).Ok?
    ensures |BodyReference(level, st, e, x).value.st.rules| <= |st.rules| + 2 * Size(e) - 1
    decreases Weight(e), 1
  {
    hide Body;
    hide EmitAll;
    if e !in st.bodyDefs {
      var entered := st.(bodyDefs := st.bodyDefs + {e});
      var y := entered.Next();
      var inner := Body(level, entered.Bump(), e, y, false).value;
      EmitAllCount(inner.st, Clauses(Some(BodyName(e, y)), [], inner.alternatives));
      DefinitionLinear(level, entered.Bump(), e, y);
    }
  }

  /** Rules of the parts plus alternatives of the whole. */
  lemma {:induction false} DefinitionLinear(level: nat, st: State, e: Expr, y: Term)
    requires (Factored(e) || e.OneOf?) && Body(level, st, e, y, false).Ok?
    ensures var r := Body(level, st, e, y, false).value; |r.st.rules| + |r.alternatives| <= |st.rules| + 2 * Size(e) - 1
    decreases Weight(e), 0
  {
    hide BodyParts;
    hide BodyUnion;
    hide Product;
    match e
    case Junction(And, args) =>
      if args == [] { BodyLinear(level, st, Top, y); } else { PartsLinear(level, st, args, y); }
    case Junction(Or, args) => UnionLinear(level, st, args, y);
    case Exists(p, c) => BodyLinear(level, st.Bump(), c, st.Next());
    case OneOf(items) =>
  }

  lemma {:induction false} PartsLinear(level: nat, st: State, args: seq<Expr>, x: Term)
    requires BodyParts(level, st, args, x).Ok?
    ensures |BodyParts(level, st, args, x).value.st.rules| <= |st.rules| + 2 * Sizes(args)
    ensures |Product(BodyParts(level, st, args, x).value.parts)| <= 1
    decreases Weights(args) + 1, 0
  {
    hide Body;
    hide BodyReference;
    if args != [] {
      var first := (if args[0].OneOf? then BodyReference(level, st, args[0], x) else
        Body(level, st, args[0], x, true)).value;
      var rest := BodyParts(level, first.st, args[1..], x).value;
      if args[0].OneOf? { ReferenceLinear(level, st, args[0], x); } else { BodyLinear(level, st, args[0], x); }
      PartsLinear(level, first.st, args[1..], x);
      assert BodyParts(level, st, args, x).value.parts[1..] == rest.parts;
      AtMostOne(|first.alternatives|, |Product(rest.parts)|);
    }
  }

  lemma AtMostOne(a: nat, b: nat)
    requires a <= 1 && b <= 1
    ensures a * b <= 1
  {
  }

  lemma {:induction false} UnionLinear(level: nat, st: State, args: seq<Expr>, x: Term)
    requires BodyUnion(level, st, args, x).Ok?
    ensures var r := BodyUnion(level, st, args, x).value;
      |r.st.rules| + |r.alternatives| <= |st.rules| + 2 * Sizes(args)
    decreases Weights(args) + 1, 0
  {
    hide Body;
    if args != [] {
      BodyLinear(level, st, args[0], x);
      UnionLinear(level, Body(level, st, args[0], x, true).value.st, args[1..], x);
    }
  }

  // ----- Conjunctions of binary alternatives -----

  /** A union of two named classes or an enumeration of two individuals. */
  predicate Binary(u: Expr) {
    match u
    case Junction(Or, args) => |args| == 2 && args[0].Class? && args[1].Class? && args[0] != args[1]
    case OneOf(items) => |items| == 2 && items[0] != items[1]
    case _ => false
  }

  /** Enumerations need L1; unions do not. */
  predicate Suits(level: nat, us: seq<Expr>) { forall u | u in us :: u.OneOf? ==> level >= 1 }

  predicate AllBinary(us: seq<Expr>) { forall u | u in us :: Binary(u) }

  function Choice(u: Expr, second: bool, x: Term): seq<Atom>
    requires Binary(u)
  {
    match u
    case Junction(_, args) => [ClassAtom(args[if second then 1 else 0].name, x)]
    case OneOf(items) => [TopAtom(x), EqAtom(x, Const(items[if second then 1 else 0]))]
  }

  /** The two rules that define a binary alternative. */
  function ChoiceRules(u: Expr): (r: seq<Rule>)
    requires Binary(u)
    ensures |r| == 2
  {
    [Rule(Some(BodyName(u, Var(1))), Choice(u, false, Var(1))),
      Rule(Some(BodyName(u, Var(1))), Choice(u, true, Var(1)))]
  }

  function AllChoiceRules(us: seq<Expr>): (r: seq<Rule>)
    requires AllBinary(us)
    ensures |r| == 2 * |us|
  {
    if us == [] then [] else assert us[0] in us; ChoiceRules(us[0]) + AllChoiceRules(us[1..])
  }

  function References(us: seq<Expr>, x: Term): (r: seq<Atom>)
    ensures |r| == |us|
  {
    if us == [] then [] else [BodyName(us[0], x)] + References(us[1..], x)
  }

  /** A rule over one variable is canonical once that variable is numbered one. */
  lemma {:induction false} OneVariable(names: seq<nat>, k: nat)
    requires names != [] && forall i | i in names :: i == k
    ensures Distinct(names) == [k]
  {
    var front := names[..|names| - 1];
    assert names == front + [names[|names| - 1]];
    assert names[|names| - 1] in names;
    assert forall i | i in front :: i in names;
    if front != [] {
      OneVariable(front, k);
    }
  }

  lemma {:induction false} BodyOverOne(body: seq<Atom>, k: nat)
    requires forall a | a in body :: forall i | i in AtomVars(a) :: i == k
    ensures forall i | i in BodyVars(body) :: i == k
  {
    if body != [] {
      assert body[0] in body;
      BodyOverOne(body[1..], k);
    }
  }

  lemma CanonicalOne(head: Atom, body: seq<Atom>, k: nat)
    requires AtomVars(head) == [k]
    requires forall a | a in body :: forall i | i in AtomVars(a) :: i == k
    ensures Canonical(Some(head), body) ==
      Rule(Some(RenameAtom(Numbering([k]), head)), RenameBody(Numbering([k]), body))
  {
    BodyOverOne(body, k);
    OneVariable(AtomVars(head) + BodyVars(body), k);
  }

  lemma ChoiceVars(u: Expr, second: bool, k: nat)
    requires Binary(u)
    ensures forall a | a in Choice(u, second, Var(k)) :: forall i | i in AtomVars(a) :: i == k
    ensures NoRepeats(Choice(u, second, Var(k)))
  {
  }

  lemma ChoiceRenamed(u: Expr, second: bool, k: nat)
    requires Binary(u)
    ensures RenameBody(Numbering([k]), Choice(u, second, Var(k))) == Choice(u, second, Var(1))
  {
    var f := Numbering([k]);
    var c := Choice(u, second, Var(k));
    assert f(k) == 1;
    if u.OneOf? {
      assert c[1..] == [c[1]];
      assert RenameBody(f, [c[1]]) == [RenameAtom(f, c[1])];
    }
  }

  lemma ChoiceCanonical(u: Expr, second: bool, k: nat)
    requires Binary(u)
    ensures Distinct(Choice(u, second, Var(k))) == Choice(u, second, Var(k))
    ensures Canonical(Some(BodyName(u, Var(k))), Choice(u, second, Var(k))) ==
      Rule(Some(BodyName(u, Var(1))), Choice(u, second, Var(1)))
  {
    hide Choice;
    hide Canonical;
    hide RenameBody;
    ChoiceVars(u, second, k);
    DistinctIsIdentity(Choice(u, second, Var(k)));
    CanonicalOne(BodyName(u, Var(k)), Choice(u, second, Var(k)), k);
    ChoiceRenamed(u, second, k);
  }

  lemma EmitChoice(st: State, u: Expr, second: bool, k: nat)
    requires Binary(u) && |st.rules| < MAX_COMPILED_RULES
    ensures Emit(st, Some(BodyName(u, Var(k))), Choice(u, second, Var(k))) ==
      Ok(st.(rules := st.rules + [Rule(Some(BodyName(u, Var(1))), Choice(u, second, Var(1)))]))
  {
    ChoiceCanonical(u, second, k);
  }

  /** What both branches of a binary alternative translate to, before naming. */
  lemma ChoiceBody(level: nat, st: State, u: Expr, x: Term)
    requires Binary(u) && (u.OneOf? ==> level >= 1)
    ensures Body(level, st, u, x, false) == Ok(Bodies(st, [Choice(u, false, x), Choice(u, true, x)]))
  {
    hide BodyUnion;
    if u.Junction? {
      var a, b := u.args[0], u.args[1];
      assert u.args == [a, b];
      TwoClasses(level, st, a, b, x);
    } else {
      assert Enumerated(u.items, x) == [Choice(u, false, x), Choice(u, true, x)];
    }
  }

  lemma TwoClasses(level: nat, st: State, a: Expr, b: Expr, x: Term)
    requires a.Class? && b.Class?
    ensures BodyUnion(level, st, [a, b], x) == Ok(Bodies(st, [[ClassAtom(a.name, x)], [ClassAtom(b.name, x)]]))
  {
    hide Body;
    ClassBody(level, st, a, x);
    ClassBody(level, st, b, x);
    var one := [[ClassAtom(b.name, x)]];
    assert [b][1..] == [] && [a, b][1..] == [b];
    assert BodyUnion(level, st, [], x) == Ok(Bodies(st, []));
    assert one + [] == one;
    assert BodyUnion(level, st, [b], x) == Ok(Bodies(st, one));
    assert [[ClassAtom(a.name, x)]] + one == [[ClassAtom(a.name, x)], [ClassAtom(b.name, x)]];
  }

  lemma ClassBody(level: nat, st: State, c: Expr, x: Term)
    requires c.Class?
    ensures Body(level, st, c, x, true) == Ok(Bodies(st, [[ClassAtom(c.name, x)]]))
  {
  }

  /** The definition of a binary alternative emits exactly its two rules. */
  lemma ChoiceDefine(st: State, u: Expr, k: nat)
    requires Binary(u) && |st.rules| + 2 <= MAX_COMPILED_RULES
    ensures Define(Bodies(st, [Choice(u, false, Var(k)), Choice(u, true, Var(k))]), u, Var(k)) ==
      Ok(st.(rules := st.rules + ChoiceRules(u)))
  {
    hide Choice;
    hide Emit;
    hide EmitAll;
    var y := Var(k);
    var first, second := Choice(u, false, y), Choice(u, true, y);
    var clauses := Clauses(Some(BodyName(u, y)), [], [first, second]);
    assert clauses[0] == Rule(Some(BodyName(u, y)), [] + first) && clauses[1] ==
      Rule(Some(BodyName(u, y)), [] + second);
    assert [] + first == first && [] + second == second;
    EmitChoice(st, u, false, k);
    var middle := st.(rules := st.rules + [ChoiceRules(u)[0]]);
    EmitChoice(middle, u, true, k);
    EmitTwo(st, clauses);
    assert middle.rules + [ChoiceRules(u)[1]] == st.rules + ChoiceRules(u);
  }

  /** A new binary alternative costs exactly its two rules. */
  lemma ChoiceReference(level: nat, st: State, u: Expr, x: Term)
    requires Binary(u) && (u.OneOf? ==> level >= 1) && u !in st.bodyDefs
    requires |st.rules| + 2 <= MAX_COMPILED_RULES
    ensures BodyReference(level, st, u, x) == Ok(Bodies(
      State(st.rules + ChoiceRules(u), st.facts, st.counter + 1, st.bodyDefs + {u}, st.headDefs),
      [[BodyName(u, x)]]))
  {
    hide Body;
    hide Choice;
    hide ChoiceRules;
    hide Define;
    hide Binary;
    var start := st.(bodyDefs := st.bodyDefs + {u}).Bump();
    ChoiceBody(level, start, u, Var(st.counter + 1));
    ChoiceDefine(start, u, st.counter + 1);
  }

  lemma EmitTwo(st: State, clauses: seq<Rule>)
    requires |clauses| == 2 && Emit(st, clauses[0].head, clauses[0].body).Ok?
    ensures EmitAll(st, clauses) ==
      Emit(Emit(st, clauses[0].head, clauses[0].body).value, clauses[1].head, clauses[1].body)
  {
    hide Emit;
    var next := Emit(st, clauses[0].head, clauses[0].body).value;
    assert clauses[1..] == [clauses[1]] && clauses[1..][1..] == [];
    var last := Emit(next, clauses[1].head, clauses[1].body);
    if last.Ok? { assert EmitAll(last.value, []) == Ok(last.value); }
  }

  ghost predicate Fresh(st: State, us: seq<Expr>) { forall u | u in us :: u !in st.bodyDefs }

  lemma {:induction false} ChoiceParts(level: nat, st: State, us: seq<Expr>, x: Term)
    requires AllBinary(us) && NoRepeats(us) && Fresh(st, us) && Suits(level, us)
    requires |st.rules| + 2 * |us| <= MAX_COMPILED_RULES
    ensures var r := BodyParts(level, st, us, x);
      && r.Ok? && r.value.st.rules == st.rules + AllChoiceRules(us) && r.value.st.facts == st.facts
      && r.value.st.bodyDefs == st.bodyDefs + (set u | u in us) && Product(r.value.parts) == [References(us, x)]
    decreases |us|
  {
    hide Body;
    hide BodyReference;
    hide ChoiceRules;
    if us == [] {
      assert st.rules + [] == st.rules;
    } else {
      var u, rest := us[0], us[1..];
      assert u in us && us == [u] + rest;
      ChoiceReference(level, st, u, x);
      var first := State(st.rules + ChoiceRules(u), st.facts, st.counter + 1, st.bodyDefs + {u}, st.headDefs);
      if !u.OneOf? { UnionReference(level, st, u, x); }
      assert Fresh(first, rest) by {
        forall w | w in rest ensures w != u {
          var i :| 0 <= i < |rest| && rest[i] == w;
          assert us[i + 1] == w;
        }
      }
      ChoiceParts(level, first, rest, x);
      var tail := BodyParts(level, first, rest, x).value;
      assert (st.rules + ChoiceRules(u)) + AllChoiceRules(rest) == st.rules + (ChoiceRules(u) + AllChoiceRules(rest));
      assert ([[[BodyName(u, x)]]] + tail.parts)[1..] == tail.parts;
      assert Prefixed([BodyName(u, x)], [References(rest, x)]) == [References(us, x)];
      assert Cross([[BodyName(u, x)]], [References(rest, x)]) == [References(us, x)];
    }
  }

  /** A union inside a conjunction is named; so is an enumeration. */
  lemma UnionReference(level: nat, st: State, u: Expr, x: Term)
    requires Binary(u) && !u.OneOf?
    ensures Body(level, st, u, x, true) == BodyReference(level, st, u, x)
  {
    hide BodyReference;
  }

  // ----- The whole axiom -----

  function Pow2(n: nat): nat { if n == 0 then 1 else 2 * Pow2(n - 1) }

  /** The alternatives before any naming. */
  function Undistributed(us: seq<Expr>, x: Term): (r: seq<seq<seq<Atom>>>)
    requires AllBinary(us)
    ensures |r| == |us|
  {
    if us == [] then [] else
    assert us[0] in us;
    [[Choice(us[0], false, x), Choice(us[0], true, x)]] + Undistributed(us[1..], x)
  }

  lemma ChoicesDiffer(u: Expr, x: Term)
    requires Binary(u)
    ensures |Choice(u, false, x)| == |Choice(u, true, x)| && Choice(u, false, x) != Choice(u, true, x)
  {
    var k := if u.OneOf? then 1 else 0;
    assert Choice(u, false, x)[k] != Choice(u, true, x)[k];
  }

  lemma JoinedApart(a: seq<Atom>, b: seq<Atom>, s: seq<Atom>, t: seq<Atom>)
    requires |a| == |b| && (a != b || s != t)
    ensures a + s != b + t
  {
    assert (a + s)[..|a|] == a && (b + t)[..|b|] == b;
    assert (a + s)[|a|..] == s && (b + t)[|b|..] == t;
  }

  /** Two different beginnings of one length give different terms, whatever follows. */
  lemma PrefixesDistinct(a: seq<Atom>, b: seq<Atom>, rest: seq<seq<Atom>>, p: seq<seq<Atom>>, q: seq<seq<Atom>>)
    requires |a| == |b| && a != b && NoRepeats(rest) && |p| == |q| == |rest|
    requires forall i | 0 <= i < |rest| :: p[i] == a + rest[i] && q[i] == b + rest[i]
    ensures NoRepeats(p + q)
  {
    var n := |rest|;
    forall i, j | 0 <= i < j < 2 * n ensures (p + q)[i] != (p + q)[j] {
      if j < n {
        JoinedApart(a, a, rest[i], rest[j]);
      } else if i < n {
        JoinedApart(a, b, rest[i], rest[j - n]);
      } else {
        JoinedApart(b, b, rest[i - n], rest[j - n]);
      }
    }
  }

  lemma CrossOfTwo(a: seq<Atom>, b: seq<Atom>, rest: seq<seq<Atom>>)
    ensures Cross([a, b], rest) == Prefixed(a, rest) + Prefixed(b, rest)
  {
    hide Prefixed;
    assert [a, b][1..] == [b] && [b][1..] == [];
    assert Cross([b], rest) == Prefixed(b, rest) + [];
  }

  lemma CrossDistinct(a: seq<Atom>, b: seq<Atom>, rest: seq<seq<Atom>>)
    requires |a| == |b| && a != b && NoRepeats(rest)
    ensures |Cross([a, b], rest)| == 2 * |rest| && NoRepeats(Cross([a, b], rest))
  {
    hide *;
    CrossOfTwo(a, b, rest);
    PrefixesDistinct(a, b, rest, Prefixed(a, rest), Prefixed(b, rest));
  }

  /** Distributing the conjunction over its alternatives doubles the terms at every conjunct, and repeats none. */
  lemma {:induction false} DistributionDoubles(us: seq<Expr>, x: Term)
    requires AllBinary(us)
    ensures |Product(Undistributed(us, x))| == Pow2(|us|) && NoRepeats(Product(Undistributed(us, x)))
  {
    hide Choice;
    hide Cross;
    hide NoRepeats;
    if us == [] {
      OneTerm();
    } else {
      assert us[0] in us;
      DistributionDoubles(us[1..], x);
      assert Undistributed(us, x)[1..] == Undistributed(us[1..], x);
      ChoicesDiffer(us[0], x);
      CrossDistinct(Choice(us[0], false, x), Choice(us[0], true, x), Product(Undistributed(us[1..], x)));
    }
  }

  lemma OneTerm()
    ensures |Product([])| == 1 && NoRepeats(Product([]))
  {
  }

  lemma BinaryNormal(u: Expr)
    requires Binary(u)
    ensures Normal(u) && !(u.Junction? && u.junctor == And) && !u.Not?
  {
  }

  lemma ConjunctionNormal(us: seq<Expr>)
    requires |us| >= 2 && AllBinary(us) && NoRepeats(us)
    ensures Normalize(Junction(And, us)) == Junction(And, us)
  {
    forall u | u in us ensures Normal(u) && u != Top && u != Bottom && !(u.Junction? && u.junctor == And) && !u.Not? {
      BinaryNormal(u);
    }
    NormalUnchanged(Junction(And, us));
  }

  lemma {:induction false} NamedVars(us: seq<Expr>, k: nat)
    ensures forall a | a in References(us, Var(k)) :: AtomVars(a) == [k]
    ensures RenameBody(Numbering([k]), References(us, Var(k))) == References(us, Var(1))
  {
    if us != [] { NamedVars(us[1..], k); }
  }

  lemma {:induction false} NamedDistinct(us: seq<Expr>, x: Term)
    requires NoRepeats(us)
    ensures NoRepeats(References(us, x))
    ensures forall i | 0 <= i < |us| :: References(us, x)[i] == BodyName(us[i], x)
  {
    if us != [] {
      forall i, j | 0 <= i < j < |us[1..]| ensures us[1..][i] != us[1..][j] { }
      NamedDistinct(us[1..], x);
    }
  }

  /** The rules for a conjunction of binary alternatives included in a named class. */
  function ConjunctionRules(us: seq<Expr>, name: string): (r: seq<Rule>)
    requires AllBinary(us)
    ensures |r| == 2 * |us| + 2
  {
    var conj := Junction(And, us);
    AllChoiceRules(us)
    + [Rule(Some(BodyName(conj, Var(1))), References(us, Var(1)))]
    + [Rule(Some(ClassAtom(name, Var(1))), [BodyName(conj, Var(1))])]
  }

  lemma EmitOne(st: State, head: Atom, raw: seq<Atom>, k: nat, rule: Rule)
    requires |st.rules| < MAX_COMPILED_RULES && AtomVars(head) == [k] && NoRepeats(raw)
    requires forall a | a in raw :: AtomVars(a) == [k]
    requires rule == Rule(Some(RenameAtom(Numbering([k]), head)), RenameBody(Numbering([k]), raw))
    ensures Emit(st, Some(head), raw) == Ok(st.(rules := st.rules + [rule]))
  {
    DistinctIsIdentity(raw);
    CanonicalOne(head, raw, k);
  }

  lemma ConjunctionDefine(st: State, us: seq<Expr>, k: nat)
    requires NoRepeats(us) && |st.rules| < MAX_COMPILED_RULES
    ensures Define(Bodies(st, [References(us, Var(k))]), Junction(And, us), Var(k))
      == Ok(st.(rules := st.rules + [Rule(Some(BodyName(Junction(And, us), Var(1))), References(us, Var(1)))]))
  {
    hide Emit;
    var conj := Junction(And, us);
    var named := References(us, Var(k));
    var clauses := Clauses(Some(BodyName(conj, Var(k))), [], [named]);
    assert clauses[0] == Rule(Some(BodyName(conj, Var(k))), [] + named) && [] + named == named;
    NamedVars(us, k);
    NamedDistinct(us, Var(k));
    var rule := Rule(Some(BodyName(conj, Var(1))), References(us, Var(1)));
    EmitOne(st, BodyName(conj, Var(k)), named, k, rule);
    var last := st.(rules := st.rules + [rule]);
    assert clauses[1..] == [];
    assert EmitAll(last, []) == Ok(last);
  }

  lemma ConjunctionBody(level: nat, us: seq<Expr>)
    requires |us| >= 2 && AllBinary(us) && NoRepeats(us) && Suits(level, us) && 2 * |us| + 2 <= MAX_COMPILED_RULES
    ensures var conj := Junction(And, us);
      var r := Body(level, INITIAL.Bump(), conj, Var(1), true);
      && r.Ok? && r.value.alternatives == [[BodyName(conj, Var(1))]] && r.value.st.facts == {}
      && r.value.st.rules == AllChoiceRules(us) + [Rule(Some(BodyName(conj, Var(1))), References(us, Var(1)))]
  {
    hide BodyParts;
    hide Define;
    hide Product;
    var conj := Junction(And, us);
    var start := State([], {}, 2, {conj}, {});
    assert Fresh(start, us) by {
      forall u | u in us ensures u != conj { BinaryNormal(u); }
    }
    ChoiceParts(level, start, us, Var(2));
    var parts := BodyParts(level, start, us, Var(2)).value;
    assert Body(level, start, conj, Var(2), false) == Ok(Bodies(parts.st, Product(parts.parts)));
    ConjunctionDefine(parts.st, us, 2);
    assert [] + AllChoiceRules(us) == AllChoiceRules(us);
    assert INITIAL.Bump().(bodyDefs := {} + {conj}).Bump() == start;
    assert BodyReference(level, INITIAL.Bump(), conj, Var(1)).Ok?;
  }

  lemma ConjunctionRulesDistinct(us: seq<Expr>, name: string)
    requires AllBinary(us) && NoRepeats(us)
    ensures NoRepeats(ConjunctionRules(us, name))
  {
    var conj := Junction(And, us);
    var rules := AllChoiceRules(us);
    ChoiceRulesDistinct(us);
    forall i | 0 <= i < |rules|
      ensures rules[i].head != Some(BodyName(conj, Var(1))) && rules[i].head != Some(ClassAtom(name, Var(1)))
    {
      ChoiceHead(us, i);
      assert us[i / 2] in us;
      BinaryNormal(us[i / 2]);
    }
  }

  lemma {:induction false} ChoiceHead(us: seq<Expr>, i: nat)
    requires AllBinary(us) && i < 2 * |us|
    ensures us[i / 2] in us && AllChoiceRules(us)[i] == ChoiceRules(us[i / 2])[i % 2]
  {
    assert us[0] in us;
    hide Binary;
    hide ChoiceRules;
    if i >= 2 {
      ChoiceHead(us[1..], i - 2);
      assert (i - 2) / 2 == i / 2 - 1 && (i - 2) % 2 == i % 2;
    }
  }

  lemma ChoiceRulesDistinct(us: seq<Expr>)
    requires AllBinary(us) && NoRepeats(us)
    ensures NoRepeats(AllChoiceRules(us))
  {
    var rules := AllChoiceRules(us);
    forall i, j | 0 <= i < j < |rules| ensures rules[i] != rules[j] {
      ChoiceHead(us, i);
      ChoiceHead(us, j);
      if i / 2 == j / 2 {
        BothDiffer(us[i / 2]);
      } else {
        assert us[i / 2] != us[j / 2];
      }
    }
  }

  lemma BothDiffer(u: Expr)
    requires Binary(u)
    ensures ChoiceRules(u)[0] != ChoiceRules(u)[1]
  {
    if u.OneOf? { assert Choice(u, false, Var(1))[1] != Choice(u, true, Var(1))[1]; }
    if u.Junction? { assert Choice(u, false, Var(1))[0] != Choice(u, true, Var(1))[0]; }
  }

  /** n distinct binary alternatives compile to exactly 2n + 2 rules, where plain distribution has 2^n terms. */
  lemma FactoredConjunction(level: nat, us: seq<Expr>, name: string)
    requires |us| >= 2 && AllBinary(us) && NoRepeats(us) && Suits(level, us) && 2 * |us| + 2 <= MAX_COMPILED_RULES
    ensures Compile(level, [SubClass(Junction(And, us), Class(name))]) == Ok(Program(ConjunctionRules(us, name), {}))
    ensures |ConjunctionRules(us, name)| == 2 * |us| + 2
    ensures |Product(Undistributed(us, Var(1)))| == Pow2(|us|) && NoRepeats(Product(Undistributed(us, Var(1))))
  {
    hide Normalize;
    hide ConjunctionRules;
    hide Inclusion;
    hide CompileAxioms;
    DistributionDoubles(us, Var(1));
    ConjunctionNormal(us);
    ClassNormal(name);
    ConjunctionInclusion(level, us, name);
    ConjunctionRulesDistinct(us, name);
    DistinctIsIdentity(ConjunctionRules(us, name));
    OneAxiom(level, SubClass(Junction(And, us), Class(name)));
  }

  lemma ClassNormal(name: string)
    ensures Normalize(Class(name)) == Class(name)
  {
  }

  lemma OneAxiom(level: nat, ax: Axiom)
    ensures CompileAxioms(level, INITIAL, [ax]) == CompileAxiom(level, INITIAL, ax)
  {
    hide CompileAxiom;
    var first := CompileAxiom(level, INITIAL, ax);
    if first.Ok? { assert CompileAxioms(level, first.value, []) == Ok(first.value); }
    assert [ax][1..] == [];
  }

  lemma SingleHead(level: nat, st: State, name: string, raw: seq<Atom>, last: State)
    requires Emit(st, Some(ClassAtom(name, Var(1))), raw) == Ok(last)
    ensures HeadOver(level, st, Class(name), Var(1), [], [raw]) == Ok(last)
  {
    hide Emit;
    assert [] + raw == raw && [raw][1..] == [];
    assert Head(level, st, Class(name), Var(1), raw) == Ok(last);
    assert HeadOver(level, last, Class(name), Var(1), [], []) == Ok(last);
  }

  lemma ConjunctionInclusion(level: nat, us: seq<Expr>, name: string)
    requires |us| >= 2 && AllBinary(us) && NoRepeats(us) && Suits(level, us) && 2 * |us| + 2 <= MAX_COMPILED_RULES
    ensures var r := Inclusion(level, INITIAL, Junction(And, us), Class(name));
      r.Ok? && r.value.rules == ConjunctionRules(us, name) && r.value.facts == {}
  {
    hide Body;
    hide Emit;
    hide HeadOver;
    var conj := Junction(And, us);
    ConjunctionBody(level, us);
    var bodies := Body(level, INITIAL.Bump(), conj, Var(1), true).value;
    var raw := [BodyName(conj, Var(1))];
    assert [] + raw == raw && bodies.alternatives == [raw];
    var rule := Rule(Some(ClassAtom(name, Var(1))), raw);
    EmitOne(bodies.st, ClassAtom(name, Var(1)), raw, 1, rule);
    var last := bodies.st.(rules := bodies.st.rules + [rule]);
    SingleHead(level, bodies.st, name, raw, last);
  }
}
