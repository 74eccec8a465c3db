/** A higher profile gives the same program for everything a lower profile accepts. */
module Levels {
  import opened Options
  import opened Expressions
  import opened Normalization
  import opened Axioms
  import opened Rules
  import opened Results
  import opened Translation

  /** Whatever the lower profile accepted, the higher one repeats. */
  ghost predicate Repeats<T(!new)>(low: Result<T>, high: Result<T>) { low.Ok? ==> high == low }

  lemma {:induction false} BodyRepeats(low: nat, high: nat, st: State, e: Expr, x: Term, factor: bool)
    requires low <= high
    ensures Repeats(Body(low, st, e, x, factor), Body(high, st, e, x, factor))
    decreases Weight(e), if factor then 2 else 0
  {
    hide BodyReference;
    hide BodyParts;
    hide BodyUnion;
    hide Product;
    if factor && Factored(e) {
      ReferenceRepeats(low, high, st, e, x);
    } else {
      match e
      case Junction(And, args) =>
        if args == [] { BodyRepeats(low, high, st, Top, x, true); } else { PartsRepeat(low, high, st, args, x); }
      case Junction(Or, args) => UnionRepeats(low, high, st, args, x);
      case Exists(p, c) => BodyRepeats(low, high, st.Bump(), c, st.Next(), true);
      case _ =>
    }
  }

  lemma {:induction false} ReferenceRepeats(low: nat, high: nat, st: State, e: Expr, x: Term)
    requires low <= high
    ensures Repeats(BodyReference(low, st, e, x), BodyReference(high, st, e, x))
    decreases Weight(e), 1
  {
    hide Body;
    hide Define;
    var entered := st.(bodyDefs := st.bodyDefs + {e});
    BodyRepeats(low, high, entered.Bump(), e, entered.Next(), false);
  }

  lemma {:induction false} PartsRepeat(low: nat, high: nat, st: State, args: seq<Expr>, x: Term)
    requires low <= high
    ensures Repeats(BodyParts(low, st, args, x), BodyParts(high, st, args, x))
    decreases Weights(args) + 1, 0
  {
    hide Body;
    hide BodyReference;
    if args != [] {
      if args[0].OneOf? {
        ReferenceRepeats(low, high, st, args[0], x);
      } else {
        BodyRepeats(low, high, st, args[0], x, true);
      }
      var first := if args[0].OneOf? then BodyReference(low, st, args[0], x) else Body(low, st, args[0], x, true);
      if first.Ok? { PartsRepeat(low, high, first.value.st, args[1..], x); }
    }
  }

  lemma {:induction false} UnionRepeats(low: nat, high: nat, st: State, args: seq<Expr>, x: Term)
    requires low <= high
    ensures Repeats(BodyUnion(low, st, args, x), BodyUnion(high, st, args, x))
    decreases Weights(args) + 1, 0
  {
    hide Body;
    if args != [] {
      BodyRepeats(low, high, st, args[0], x, true);
      var first := Body(low, st, args[0], x, true);
      if first.Ok? { UnionRepeats(low, high, first.value.st, args[1..], x); }
    }
  }

  lemma {:induction false} HeadRepeats(low: nat, high: nat, st: State, e: Expr, x: Term, body: seq<Atom>)
    requires low <= high
    ensures Repeats(Head(low, st, e, x, body), Head(high, st, e, x, body))
    decreases Weight(e), if x.Skolem? then 2 else 1, 0
  {
    hide Emit;
    hide EmitAll;
    hide Body;
    hide HeadEach;
    hide HeadOver;
    hide Normalize;
    if Named(e, x) {
      var named := Emit(st, Some(HeadName(e, x)), body);
      if named.Ok? && e !in named.value.headDefs {
        var entered := named.value.(headDefs := named.value.headDefs + {e});
        HeadRepeats(low, high, entered.Bump(), e, entered.Next(), [HeadName(e, entered.Next())]);
      }
    } else {
      match e
      case Junction(And, args) => if args != [] { HeadEachRepeats(low, high, st, args, x, body); }
      case Junction(Or, args) => HeadOrRepeats(low, high, st, args, x, body);
      case Forall(p, c) => HeadRepeats(low, high, st.Bump(), c, st.Next(), body + [RoleFor(p, x, st.Next())]);
      case Exists(p, c) =>
        var w := Witness(e, x, 0);
        var linked := Emit(st, Some(RoleFor(p, x, w)), body);
        if linked.Ok? { HeadRepeats(low, high, linked.value, c, w, body); }
      case Not(c) => BodyRepeats(low, high, st, c, x, true);
      case _ =>
    }
  }

  lemma {:induction false} HeadOrRepeats(low: nat, high: nat, st: State, args: seq<Expr>, x: Term, body: seq<Atom>)
    requires low <= high && !x.Skolem?
    ensures Repeats(Head(low, st, Junction(Or, args), x, body), Head(high, st, Junction(Or, args), x, body))
    decreases Weights(args) + 1, 4, 0
  {
    hide Emit;
    hide Body;
    hide HeadOver;
    hide Normalize;
    hide NegatedOperands;
    hide Positives;
    if |args| == 1 {
      HeadRepeats(low, high, st, args[0], x, body);
    } else if |args| > 1 && |Positives(args)| <= 1 {
      var positives := Positives(args);
      var condition := Normalize(Junction(And, NegatedOperands(args)));
      BodyRepeats(low, high, st, condition, x, true);
      var extra := Body(low, st, condition, x, true);
      if extra.Ok? {
        HeadOverRepeats(low, high, extra.value.st, if positives == [] then Bottom else positives[0], x, body,
          extra.value.alternatives);
      }
    }
  }

  lemma {:induction false} HeadOverRepeats(low: nat, high: nat, st: State, e: Expr, x: Term, body: seq<Atom>,
      alternatives: seq<seq<Atom>>)
    requires low <= high
    ensures Repeats(HeadOver(low, st, e, x, body, alternatives), HeadOver(high, st, e, x, body, alternatives))
    decreases Weight(e), 3, |alternatives|
  {
    hide Head;
    if alternatives != [] {
      HeadRepeats(low, high, st, e, x, body + alternatives[0]);
      var first := Head(low, st, e, x, body + alternatives[0]);
      if first.Ok? { HeadOverRepeats(low, high, first.value, e, x, body, alternatives[1..]); }
    }
  }

  lemma {:induction false} HeadEachRepeats(low: nat, high: nat, st: State, args: seq<Expr>, x: Term, body: seq<Atom>)
    requires low <= high
    ensures Repeats(HeadEach(low, st, args, x, body), HeadEach(high, st, args, x, body))
    decreases Weights(args) + 1, 3, 0
  {
    hide Head;
    if args != [] {
      HeadRepeats(low, high, st, args[0], x, body);
      var first := Head(low, st, args[0], x, body);
      if first.Ok? { HeadEachRepeats(low, high, first.value, args[1..], x, body); }
    }
  }

  lemma InclusionRepeats(low: nat, high: nat, st: State, left: Expr, right: Expr)
    requires low <= high
    ensures Repeats(Inclusion(low, st, left, right), Inclusion(high, st, left, right))
  {
    hide Body;
    hide Head;
    hide HeadOver;
    var x := st.Next();
    BodyRepeats(low, high, st.Bump(), left, x, true);
    var bodies := Body(low, st.Bump(), left, x, true);
    if bodies.Ok? {
      HeadRepeats(low, high, bodies.value.st, right, x, [TopAtom(x)]);
      HeadOverRepeats(low, high, bodies.value.st, right, x, [], bodies.value.alternatives);
    }
  }

  lemma DisjointRepeats(low: nat, high: nat, st: State, left: Expr, right: Expr)
    requires low <= high
    ensures Repeats(Disjoint(low, st, left, right), Disjoint(high, st, left, right))
  {
    hide Body;
    hide Grows;
    hide Cross;
    hide Clauses;
    hide EmitAll;
    var x := st.Next();
    BodyRepeats(low, high, st.Bump(), left, x, true);
    var first := Body(low, st.Bump(), left, x, true);
    if first.Ok? { BodyRepeats(low, high, first.value.st, right, x, true); }
  }

  lemma {:induction false} DisjointPairsRepeat(low: nat, high: nat, st: State, pairs: seq<(Expr, Expr)>)
    requires low <= high
    ensures Repeats(DisjointPairs(low, st, pairs), DisjointPairs(high, st, pairs))
    decreases |pairs|
  {
    hide Disjoint;
    hide Normalize;
    if pairs != [] {
      var c, d := Normalize(pairs[0].0), Normalize(pairs[0].1);
      DisjointRepeats(low, high, st, c, d);
      var first := Disjoint(low, st, c, d);
      if first.Ok? { DisjointPairsRepeat(low, high, first.value, pairs[1..]); }
    }
  }

  lemma ClassAxiomRepeats(low: nat, high: nat, st: State, ax: Axiom)
    requires low <= high && ax.AboutClasses()
    ensures Repeats(CompileClassAxiom(low, st, ax), CompileClassAxiom(high, st, ax))
  {
    hide Inclusion;
    hide Disjoint;
    hide DisjointPairs;
    hide Normalize;
    match ax
    case SubClass(c, d) => InclusionRepeats(low, high, st, Normalize(c), Normalize(d));
    case EquivalentClasses(c, d) =>
      InclusionRepeats(low, high, st, Normalize(c), Normalize(d));
      var forward := Inclusion(low, st, Normalize(c), Normalize(d));
      if forward.Ok? { InclusionRepeats(low, high, forward.value, Normalize(d), Normalize(c)); }
    case DisjointClasses(c, d) => DisjointRepeats(low, high, st, Normalize(c), Normalize(d));
    case AllDisjoint(members) => DisjointPairsRepeat(low, high, st, Combinations(members));
  }

  lemma CompileAxiomRepeats(low: nat, high: nat, st: State, ax: Axiom)
    requires low <= high
    ensures Repeats(CompileAxiom(low, st, ax), CompileAxiom(high, st, ax))
  {
    hide Emit;
    hide EmitAll;
    hide Head;
    hide Normalize;
    hide CompileClassAxiom;
    var x, y := st.Next(), st.Bump().Next();
    var two := st.Bump().Bump();
    if ax.AboutClasses() {
      ClassAxiomRepeats(low, high, st, ax);
    } else if ax.ClassAssertion? {
      HeadRepeats(low, high, st, Normalize(ax.class_), Const(ax.subject), []);
    } else if ax.Domain? {
      HeadRepeats(low, high, two, Normalize(ax.class_), x, [RoleFor(ax.p, x, y)]);
    } else if ax.Range? {
      HeadRepeats(low, high, two, Normalize(ax.class_), y, [RoleFor(ax.p, x, y)]);
    }
  }

  /** Everything accepted at a lower profile compiles to the same state at a higher one. */
  lemma {:induction false} CompileRepeats(low: nat, high: nat, st: State, axioms: seq<Axiom>)
    requires low <= high
    ensures Repeats(CompileAxioms(low, st, axioms), CompileAxioms(high, st, axioms))
    decreases |axioms|
  {
    hide CompileAxiom;
    if axioms != [] {
      CompileAxiomRepeats(low, high, st, axioms[0]);
      var first := CompileAxiom(low, st, axioms[0]);
      if first.Ok? { CompileRepeats(low, high, first.value, axioms[1..]); }
    }
  }
}
