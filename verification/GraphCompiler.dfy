/** Compiling a graph: its nodes and triples are read one after another and compiled on the way. */
module GraphCompiler {
  import opened Options
  import opened Expressions
  import opened Semantics
  import opened Axioms
  import opened Parsing
  import opened GraphAxioms
  import opened Structures
  import opened Antecedents
  import opened Results
  import T = Translation
  import C = Compiler
  import Acceptance
  import Budget
  import Completeness
  import ProgramFacts

  // ----- Statements in turn -----

  function CheckedAll(nodes: seq<Node>): seq<Statement> {
    if nodes == [] then [] else [Checked(nodes[0])] + CheckedAll(nodes[1..])
  }

  function Definitions(nodes: seq<Node>): seq<Statement> {
    if nodes == [] then [] else (if nodes[0].Iri? then [Definition(nodes[0])] else []) + Definitions(nodes[1..])
  }

  function StatedAll(triples: seq<Triple>): seq<Statement> {
    if triples == [] then [] else [Stated(triples[0])] + StatedAll(triples[1..])
  }

  /** Every expression node is checked, then the named ones define classes, then the triples speak. */
  function Statements(nodes: seq<Node>, triples: seq<Triple>): seq<Statement> {
    CheckedAll(nodes) + Definitions(nodes) + StatedAll(triples)
  }

  lemma {:induction false} SayAllSplit(g: Graph, a: seq<Statement>, b: seq<Statement>, axioms: seq<Axiom>)
    returns (x: seq<Axiom>, y: seq<Axiom>)
    requires SayAll(g, a + b, axioms)
    ensures SayAll(g, a, x) && SayAll(g, b, y) && axioms == x + y
    decreases |a|
  {
    hide Says;
    if a == [] {
      assert a + b == b;
      x, y := [], axioms;
    } else {
      assert (a + b)[0] == a[0] && (a + b)[1..] == a[1..] + b;
      var first, rest :| Says(g, a[0], first) && SayAll(g, a[1..] + b, rest) && axioms == first + rest;
      var x', y' := SayAllSplit(g, a[1..], b, rest);
      x, y := first + x', y';
      assert first + (x' + y') == (first + x') + y';
    }
  }

  lemma {:induction false} SayAllJoin(g: Graph, a: seq<Statement>, b: seq<Statement>, x: seq<Axiom>, y: seq<Axiom>)
    requires SayAll(g, a, x) && SayAll(g, b, y)
    ensures SayAll(g, a + b, x + y)
    decreases |a|
  {
    hide Says;
    if a == [] {
      assert a + b == b && x + y == y;
    } else {
      assert (a + b)[0] == a[0] && (a + b)[1..] == a[1..] + b;
      var first, rest :| Says(g, a[0], first) && SayAll(g, a[1..], rest) && x == first + rest;
      SayAllJoin(g, a[1..], b, rest, y);
      assert first + (rest + y) == x + y;
    }
  }

  lemma SayOne(g: Graph, st: Statement, axioms: seq<Axiom>)
    ensures SayAll(g, [st], axioms) <==> Says(g, st, axioms)
  {
    hide Says;
    assert [st][1..] == [];
    if Says(g, st, axioms) { assert axioms == axioms + [] && SayAll(g, [st][1..], []); }
    if SayAll(g, [st], axioms) {
      var first, rest :| Says(g, st, first) && SayAll(g, [st][1..], rest) && axioms == first + rest;
      assert axioms == first;
    }
  }

  lemma {:induction false} CompileAppend(level: nat, st: T.State, a: seq<Axiom>, b: seq<Axiom>)
    ensures T.CompileAxioms(level, st, a + b) ==
      match T.CompileAxioms(level, st, a) case Ok(next) => T.CompileAxioms(level, next, b) case Err(e) => Err(e)
    decreases |a|
  {
    hide T.CompileAxiom;
    if a == [] {
      assert a + b == b;
    } else {
      assert (a + b)[0] == a[0] && (a + b)[1..] == a[1..] + b;
      var first := T.CompileAxiom(level, st, a[0]);
      if first.Ok? { CompileAppend(level, first.value, a[1..], b); }
    }
  }

  /** The state reached by the statements so far. */
  ghost predicate Reached(g: Graph, level: nat, statements: seq<Statement>, axioms: seq<Axiom>, st: T.State) {
    SayAll(g, statements, axioms) && T.CompileAxioms(level, T.INITIAL, axioms) == Ok(st)
  }

  lemma ReachedMore(g: Graph, level: nat, before: seq<Statement>, axioms: seq<Axiom>, st: T.State, next: Statement,
      said: seq<Axiom>, after: Result<T.State>)
    requires Reached(g, level, before, axioms, st) && Says(g, next, said) && after == T.CompileAxioms(level, st, said)
    ensures after.Ok? ==> Reached(g, level, before + [next], axioms + said, after.value)
    ensures after.Err? ==> SayAll(g, before + [next], axioms + said)
    ensures after.Err? ==> T.CompileAxioms(level, T.INITIAL, axioms + said).Err?
  {
    hide Says;
    hide T.CompileAxioms;
    SayOne(g, next, said);
    SayAllJoin(g, before, [next], axioms, said);
    CompileAppend(level, T.INITIAL, axioms, said);
  }

  /** A statement that says nothing leaves the graph without a reading. */
  lemma Unreadable(g: Graph, before: seq<Statement>, next: Statement, after: seq<Statement>)
    requires forall said :: !Says(g, next, said)
    ensures forall axioms :: !SayAll(g, before + [next] + after, axioms)
  {
    hide Says;
    forall axioms ensures !SayAll(g, before + [next] + after, axioms) {
      if SayAll(g, before + [next] + after, axioms) {
        var x, _ := SayAllSplit(g, before + [next], after, axioms);
        var _, said := SayAllSplit(g, before, [next], x);
        SayOne(g, next, said);
      }
    }
  }

  lemma Uncompiled(g: Graph, level: nat, before: seq<Statement>, x: seq<Axiom>, after: seq<Statement>)
    requires SayAll(g, before, x) && T.CompileAxioms(level, T.INITIAL, x).Err?
    ensures forall axioms | SayAll(g, before + after, axioms) :: T.Compile(level, axioms).Err?
  {
    hide Says;
    hide T.CompileAxioms;
    forall axioms | SayAll(g, before + after, axioms) ensures T.Compile(level, axioms).Err? {
      var y, z := SayAllSplit(g, before, after, axioms);
      SayAllUnique(g, before, x, y);
      CompileAppend(level, T.INITIAL, y, z);
    }
  }

  method CompileSaid(compiler: C.Compiler, said: seq<Axiom>) returns (r: Result<()>)
    modifies compiler
    ensures C.Follows(r, compiler.View(), T.CompileAxioms(compiler.level, old(compiler.View()), said))
  {
    hide T.CompileAxiom;
    for i := 0 to |said|
      invariant T.CompileAxioms(compiler.level, old(compiler.View()), said) ==
        T.CompileAxioms(compiler.level, compiler.View(), said[i..])
    {
      assert said[i..][0] == said[i] && said[i..][1..] == said[i + 1..];
      var _ :- compiler.CompileAxiom(said[i]);
    }
    r := Ok(());
  }

  /** Reads and compiles the statements in turn; it fails exactly when they have no reading or their reading does not
      compile. */
  method CompileStatements(level: nat, g: Graph, nodes: seq<Node>, triples: seq<Triple>)
    returns (r: Option<T.Program>)
    ensures r.Some? ==> exists axioms ::
      SayAll(g, Statements(nodes, triples), axioms) && T.Compile(level, axioms) == Ok(r.value)
    ensures r.None? ==> forall axioms | SayAll(g, Statements(nodes, triples), axioms) :: T.Compile(level, axioms).Err?
  {
    hide Says;
    hide SayAll;
    hide Reached;
    hide T.CompileAxioms;
    var statements := Statements(nodes, triples);
    var parser := new Parser(g);
    var compiler := new C.Compiler(level);
    ghost var axioms: seq<Axiom> := [];
    ReachedNothing(g, level);
    for i := 0 to |statements|
      invariant fresh(parser) && fresh(compiler) && parser.Valid() && parser.graph == g && compiler.level == level
      invariant Reached(g, level, statements[..i], axioms, compiler.View())
    {
      var next := statements[i];
      assert statements == statements[..i] + [next] + statements[i + 1..];
      assert statements[..i + 1] == statements[..i] + [next];
      var said := Read(parser, next);
      if said.None? {
        Unreadable(g, statements[..i], next, statements[i + 1..]);
        return None;
      }
      ghost var before := compiler.View();
      var outcome := CompileSaid(compiler, said.value);
      ReachedMore(g, level, statements[..i], axioms, before, next, said.value,
        T.CompileAxioms(level, before, said.value));
      if outcome.Err? {
        Uncompiled(g, level, statements[..i + 1], axioms + said.value, statements[i + 1..]);
        return None;
      }
      axioms := axioms + said.value;
    }
    assert statements[..|statements|] == statements;
    r := Some(T.Program(Distinct(compiler.rules), compiler.facts));
    ReachedAll(g, level, statements, axioms, compiler.View());
  }

  lemma ReachedNothing(g: Graph, level: nat)
    ensures Reached(g, level, [], [], T.INITIAL)
  {
  }

  lemma ReachedAll(g: Graph, level: nat, statements: seq<Statement>, axioms: seq<Axiom>, st: T.State)
    requires Reached(g, level, statements, axioms, st)
    ensures SayAll(g, statements, axioms) && T.Compile(level, axioms) == Ok(T.Program(Distinct(st.rules), st.facts))
  {
    hide T.CompileAxioms;
  }

  // ----- What the graph means -----

  /** Everything that the triples say is true, and every named node is equivalent to its expression. */
  ghost predicate GraphTrue<D(!new)>(I: Interp<D>, g: Graph, nodes: seq<Node>, triples: seq<Triple>) {
    && (forall t | t in triples :: TripleTrue(I, g, t))
    && forall n | n in nodes && n.Iri? :: NodeTrue(I, g, n)
  }

  ghost predicate NodeTrue<D(!new)>(I: Interp<D>, g: Graph, n: Node) {
    forall c, d, a: D | Meets(g, n, false, c) && Meets(g, n, true, d) :: Sat(I, c, a) <==> Sat(I, d, a)
  }

  /** The axiom is stated by a triple, or is the equivalence of a named node with its expression. */
  ghost predicate StatedIn(g: Graph, nodes: seq<Node>, triples: seq<Triple>, ax: Axiom) {
    || (exists t, said | t in triples && TripleSays(g, t, said) :: ax in said)
    || exists n, c, d | n in nodes && n.Iri? && Meets(g, n, false, c) && Meets(g, n, true, d) ::
         ax == EquivalentClasses(c, d)
  }

  lemma {:induction false} CheckedIs(nodes: seq<Node>, st: Statement)
    ensures st in CheckedAll(nodes) <==> st.Checked? && st.node in nodes
  {
    if nodes != [] { CheckedIs(nodes[1..], st); }
  }

  lemma {:induction false} DefinitionsAre(nodes: seq<Node>, st: Statement)
    ensures st in Definitions(nodes) <==> st.Definition? && st.node.Iri? && st.node in nodes
  {
    if nodes != [] { DefinitionsAre(nodes[1..], st); }
  }

  lemma {:induction false} StatedIs(triples: seq<Triple>, st: Statement)
    ensures st in StatedAll(triples) <==> st.Stated? && st.triple in triples
  {
    if triples != [] { StatedIs(triples[1..], st); }
  }

  /** The statements are the checks of all nodes, the definitions of the named ones, and all triples. */
  lemma StatementsAre(nodes: seq<Node>, triples: seq<Triple>, st: Statement)
    ensures st in Statements(nodes, triples) <==>
      match st
      case Checked(n) => n in nodes
      case Definition(n) => n in nodes && n.Iri?
      case Stated(t) => t in triples
  {
    CheckedIs(nodes, st);
    DefinitionsAre(nodes, st);
    StatedIs(triples, st);
  }

  lemma {:induction false} SaidBy(g: Graph, statements: seq<Statement>, axioms: seq<Axiom>)
    requires SayAll(g, statements, axioms)
    ensures forall st | st in statements :: exists said :: Says(g, st, said) && forall ax | ax in said :: ax in axioms
    ensures forall ax | ax in axioms :: exists st, said | st in statements && Says(g, st, said) :: ax in said
    decreases |statements|
  {
    hide Says;
    if statements != [] {
      var first, rest :| Says(g, statements[0], first) && SayAll(g, statements[1..], rest) && axioms == first + rest;
      SaidBy(g, statements[1..], rest);
      assert statements == [statements[0]] + statements[1..];
      forall st | st in statements ensures exists said :: Says(g, st, said) && forall ax | ax in said :: ax in axioms {
        if st == statements[0] {
          assert forall ax | ax in first :: ax in axioms;
        } else {
          assert st in statements[1..];
          var said :| Says(g, st, said) && forall ax | ax in said :: ax in rest;
          assert forall ax | ax in said :: ax in axioms;
        }
      }
      forall ax | ax in axioms ensures exists st, said | st in statements && Says(g, st, said) :: ax in said {
        if ax !in first {
          assert ax in rest;
          var st, said :| st in statements[1..] && Says(g, st, said) && ax in said;
          assert st in statements;
        }
      }
    }
  }

  lemma {:induction false} AllSaid(g: Graph, statements: seq<Statement>) returns (axioms: seq<Axiom>)
    requires forall st | st in statements :: exists said :: Says(g, st, said)
    ensures SayAll(g, statements, axioms)
    decreases |statements|
  {
    hide Says;
    axioms := [];
    if statements != [] {
      assert statements[0] in statements && forall st | st in statements[1..] :: st in statements;
      var first :| Says(g, statements[0], first);
      var rest := AllSaid(g, statements[1..]);
      axioms := first + rest;
    }
  }

  /** When a statement says something. */
  lemma SaysSomething(g: Graph, st: Statement)
    ensures (exists said :: Says(g, st, said)) <==>
      match st
      case Checked(n) => exists e :: Meets(g, n, true, e)
      case Definition(n) => (exists c :: Meets(g, n, false, c)) && exists d :: Meets(g, n, true, d)
      case Stated(t) => Readable(g, t)
  {
    hide Meets;
    hide Readable;
    hide TripleSays;
    match st
    case Checked(n) =>
      MeetsNothing(g, n, true);
      hide Meaningless;
      if !Meaningless(g, n, true) { assert Says(g, st, []); }
    case Definition(n) =>
      if (exists c :: Meets(g, n, false, c)) && exists d :: Meets(g, n, true, d) {
        var c :| Meets(g, n, false, c);
        var d :| Meets(g, n, true, d);
        assert Says(g, st, [EquivalentClasses(c, d)]);
      }
    case Stated(t) =>
      ReadableSays(g, t);
      if exists said :: TripleSays(g, t, said) {
        var said :| TripleSays(g, t, said);
        assert Says(g, st, said);
      }
  }

  lemma StatementRead(g: Graph, statements: seq<Statement>, axioms: seq<Axiom>, st: Statement)
    requires SayAll(g, statements, axioms) && st in statements
    ensures exists said :: Says(g, st, said)
  {
    hide Says;
    SaidBy(g, statements, axioms);
    var said :| Says(g, st, said) && forall ax | ax in said :: ax in axioms;
  }

  /** Whatever was read in turn was read of every node and triple. */
  lemma EverythingRead(g: Graph, nodes: seq<Node>, triples: seq<Triple>, axioms: seq<Axiom>)
    requires SayAll(g, Statements(nodes, triples), axioms)
    ensures forall n | n in nodes :: exists e :: Meets(g, n, true, e)
    ensures forall n | n in nodes && n.Iri? :: exists e :: Meets(g, n, false, e)
    ensures forall t | t in triples :: Readable(g, t)
  {
    hide Says;
    hide SayAll;
    hide Statements;
    hide Meets;
    hide Readable;
    var statements := Statements(nodes, triples);
    forall st | st in statements ensures exists said :: Says(g, st, said) { StatementRead(g, statements, axioms, st); }
    forall n | n in nodes ensures exists e :: Meets(g, n, true, e) {
      StatementsAre(nodes, triples, Checked(n));
      SaysSomething(g, Checked(n));
    }
    forall n | n in nodes && n.Iri? ensures exists e :: Meets(g, n, false, e) {
      StatementsAre(nodes, triples, Definition(n));
      SaysSomething(g, Definition(n));
    }
    forall t | t in triples ensures Readable(g, t) {
      StatementsAre(nodes, triples, Stated(t));
      SaysSomething(g, Stated(t));
    }
  }

  /** What can be read of every node and triple can be read in turn. */
  lemma ReadInTurn(g: Graph, nodes: seq<Node>, triples: seq<Triple>) returns (axioms: seq<Axiom>)
    requires forall n | n in nodes :: exists e :: Meets(g, n, true, e)
    requires forall n | n in nodes && n.Iri? :: exists e :: Meets(g, n, false, e)
    requires forall t | t in triples :: Readable(g, t)
    ensures SayAll(g, Statements(nodes, triples), axioms)
  {
    hide Says;
    hide SayAll;
    hide Statements;
    hide Meets;
    hide Readable;
    forall st | st in Statements(nodes, triples) ensures exists said :: Says(g, st, said) {
      StatementsAre(nodes, triples, st);
      SaysSomething(g, st);
    }
    axioms := AllSaid(g, Statements(nodes, triples));
  }

  /** The axioms read in turn are those that the graph states. */
  lemma AxiomsStated(g: Graph, nodes: seq<Node>, triples: seq<Triple>, axioms: seq<Axiom>, ax: Axiom)
    requires SayAll(g, Statements(nodes, triples), axioms)
    ensures ax in axioms <==> StatedIn(g, nodes, triples, ax)
  {
    hide SayAll;
    hide Statements;
    hide Meets;
    hide Meaningless;
    hide TripleSays;
    var statements := Statements(nodes, triples);
    SaidBy(g, statements, axioms);
    if ax in axioms {
      var st, said :| st in statements && Says(g, st, said) && ax in said;
      StatementsAre(nodes, triples, st);
      StatementStates(g, nodes, triples, st, said, ax);
    }
    if StatedIn(g, nodes, triples, ax) {
      var st, said := StatedStatement(g, nodes, triples, ax);
      StatementsAre(nodes, triples, st);
      hide Says;
      var other :| Says(g, st, other) && forall b | b in other :: b in axioms;
      SaysUnique(g, st, said, other);
    }
  }

  lemma StatementStates(g: Graph, nodes: seq<Node>, triples: seq<Triple>, st: Statement, said: seq<Axiom>, ax: Axiom)
    requires Says(g, st, said) && ax in said
    requires match st
      case Checked(n) => n in nodes
      case Definition(n) => n in nodes && n.Iri?
      case Stated(t) => t in triples
    ensures StatedIn(g, nodes, triples, ax)
  {
    hide Meets;
    hide Meaningless;
    hide TripleSays;
  }

  lemma StatedStatement(g: Graph, nodes: seq<Node>, triples: seq<Triple>, ax: Axiom)
    returns (st: Statement, said: seq<Axiom>)
    requires StatedIn(g, nodes, triples, ax)
    ensures Says(g, st, said) && ax in said
    ensures match st
      case Checked(n) => n in nodes
      case Definition(n) => n in nodes && n.Iri?
      case Stated(t) => t in triples
  {
    hide Meets;
    hide TripleSays;
    if t, s :| t in triples && TripleSays(g, t, s) && ax in s {
      st, said := Stated(t), s;
    } else {
      var n, c, d :|
        n in nodes && n.Iri? && Meets(g, n, false, c) && Meets(g, n, true, d) && ax == EquivalentClasses(c, d);
      st, said := Definition(n), [ax];
    }
  }

  /** A statement's axioms are true exactly where what it says of the graph is. */
  lemma StatementTrue<D(!new)>(I: Interp<D>, g: Graph, st: Statement, said: seq<Axiom>)
    requires Says(g, st, said)
    ensures AxiomsTrue(I, said) <==>
      match st
      case Checked(_) => true
      case Definition(n) => NodeTrue(I, g, n)
      case Stated(t) => TripleTrue(I, g, t)
  {
    hide Meets;
    hide Meaningless;
    hide TripleSays;
    hide TripleTrue;
    hide Sat;
    match st
    case Checked(_) =>
    case Definition(n) =>
      var c, d :| Meets(g, n, false, c) && Meets(g, n, true, d) && said == [EquivalentClasses(c, d)];
      forall e | Meets(g, n, false, e) ensures e == c { MeetsUnique(g, n, false, e, c); }
      forall e | Meets(g, n, true, e) ensures e == d { MeetsUnique(g, n, true, e, d); }
      assert EquivalentClasses(c, d) in said;
    case Stated(t) => TripleMeans(I, g, t, said);
  }

  lemma {:induction false} SaidTrue<D(!new)>(I: Interp<D>, g: Graph, statements: seq<Statement>, axioms: seq<Axiom>)
    requires SayAll(g, statements, axioms)
    ensures AxiomsTrue(I, axioms) <==> forall st, said | st in statements && Says(g, st, said) :: AxiomsTrue(I, said)
    decreases |statements|
  {
    hide Says;
    hide AxiomTrue;
    if statements != [] {
      var first, rest :| Says(g, statements[0], first) && SayAll(g, statements[1..], rest) && axioms == first + rest;
      SaidTrue(I, g, statements[1..], rest);
      assert AxiomsTrue(I, axioms) <==> AxiomsTrue(I, first) && AxiomsTrue(I, rest);
      forall said | Says(g, statements[0], said) ensures said == first { SaysUnique(g, statements[0], said, first); }
      assert forall st | st in statements :: st == statements[0] || st in statements[1..];
    }
  }

  /** The axioms read in turn are true exactly where the graph is. */
  lemma GraphMeans<D(!new)>(I: Interp<D>, g: Graph, nodes: seq<Node>, triples: seq<Triple>, axioms: seq<Axiom>)
    requires SayAll(g, Statements(nodes, triples), axioms)
    ensures AxiomsTrue(I, axioms) <==> GraphTrue(I, g, nodes, triples)
  {
    hide Says;
    hide SayAll;
    hide Statements;
    hide AxiomsTrue;
    hide TripleTrue;
    hide NodeTrue;
    var statements := Statements(nodes, triples);
    SaidTrue(I, g, statements, axioms);
    if AxiomsTrue(I, axioms) {
      forall t | t in triples ensures TripleTrue(I, g, t) {
        StatementsAre(nodes, triples, Stated(t));
        StatementRead(g, statements, axioms, Stated(t));
        var said :| Says(g, Stated(t), said);
        StatementTrue(I, g, Stated(t), said);
      }
      forall n | n in nodes && n.Iri? ensures NodeTrue(I, g, n) {
        StatementsAre(nodes, triples, Definition(n));
        StatementRead(g, statements, axioms, Definition(n));
        var said :| Says(g, Definition(n), said);
        StatementTrue(I, g, Definition(n), said);
      }
    }
    if GraphTrue(I, g, nodes, triples) {
      forall st, said | st in statements && Says(g, st, said) ensures AxiomsTrue(I, said) {
        StatementsAre(nodes, triples, st);
        StatementTrue(I, g, st, said);
      }
    }
  }

  /** What follows from everything the graph says is what follows from the compiled program. */
  lemma GraphConsequences<D(!new)>(level: nat, g: Graph, nodes: seq<Node>, triples: seq<Triple>, axioms: seq<Axiom>,
      phi: Interp<D> -> bool)
    requires SayAll(g, Statements(nodes, triples), axioms) && T.Compile(level, axioms).Ok?
    ensures var program := T.Compile(level, axioms).value;
      (forall I: Interp<D> | GraphTrue(I, g, nodes, triples) :: phi(I)) <==>
      (forall S: Structure<D> | Satisfies(S, program.rules, program.facts) :: phi(S.base))
  {
    hide T.Compile;
    hide SayAll;
    hide AxiomsTrue;
    hide GraphTrue;
    hide Satisfies;
    Completeness.ConsequencesPreserved(level, axioms, phi);
    forall I: Interp<D> ensures AxiomsTrue(I, axioms) <==> GraphTrue(I, g, nodes, triples) {
      GraphMeans(I, g, nodes, triples, axioms);
    }
  }

  // ----- The whole compilation -----

  /** Compiles what the nodes and the triples of a graph say. */
  method CompileGraph<D(!new)>(level: nat, g: Graph, nodes: seq<Node>, triples: seq<Triple>)
    returns (r: Option<T.Program>)
    // what was read
    ensures r.Some? ==> forall n | n in nodes :: exists e :: Meets(g, n, true, e)
    ensures r.Some? ==> forall n | n in nodes && n.Iri? :: exists e :: Meets(g, n, false, e)
    ensures r.Some? ==> forall t | t in triples :: Readable(g, t)
    // what the program means
    ensures r.Some? ==> forall S: Structure<D> | Satisfies(S, r.value.rules, r.value.facts) ::
      GraphTrue(S.base, g, nodes, triples)
    ensures r.Some? ==> forall S: Structure<D>, t, said
      | Satisfies(S, r.value.rules, r.value.facts) && t in triples && TripleSays(g, t, said) :: AxiomsTrue(S.base, said)
    ensures r.Some? ==> forall I: Interp<D> | GraphTrue(I, g, nodes, triples) ::
      exists S: Structure<D> :: S.base == I && Satisfies(S, r.value.rules, r.value.facts)
    // what it records
    ensures r.Some? ==> forall ax | StatedIn(g, nodes, triples, ax) :: ProgramFacts.Recorded(r.value.facts, ax)
    // when it fails
    ensures r.Some? ==> forall ax | StatedIn(g, nodes, triples, ax) :: Acceptance.LegalAxiom(level, ax)
    ensures r.None? ==>
      || (exists n | n in nodes :: forall e :: !Meets(g, n, true, e))
      || (exists n | n in nodes && n.Iri? :: forall e :: !Meets(g, n, false, e))
      || (exists t | t in triples :: !Readable(g, t))
      || (exists ax :: StatedIn(g, nodes, triples, ax) && !Acceptance.LegalAxiom(level, ax))
      || exists axioms :: SayAll(g, Statements(nodes, triples), axioms) && Budget.RuleCost(axioms) > 100_000
  {
    r := CompileStatements(level, g, nodes, triples);
    hide *;
    if r.Some? {
      ghost var axioms :| SayAll(g, Statements(nodes, triples), axioms) && T.Compile(level, axioms) == Ok(r.value);
      EverythingRead(g, nodes, triples, axioms);
      ProgramMeans<D>(level, g, nodes, triples, axioms, r.value);
      ProgramRecords(level, g, nodes, triples, axioms, r.value);
    } else {
      WhyNot(level, g, nodes, triples);
    }
  }

  lemma ProgramMeans<D(!new)>(level: nat, g: Graph, nodes: seq<Node>, triples: seq<Triple>, axioms: seq<Axiom>,
      program: T.Program)
    requires SayAll(g, Statements(nodes, triples), axioms) && T.Compile(level, axioms) == Ok(program)
    ensures forall S: Structure<D> | Satisfies(S, program.rules, program.facts) :: GraphTrue(S.base, g, nodes, triples)
    ensures forall S: Structure<D>, t, said
      | Satisfies(S, program.rules, program.facts) && t in triples && TripleSays(g, t, said) :: AxiomsTrue(S.base, said)
    ensures forall I: Interp<D> | GraphTrue(I, g, nodes, triples) ::
      exists S: Structure<D> :: S.base == I && Satisfies(S, program.rules, program.facts)
  {
    hide *;
    C.CompiledMeans<D>(level, axioms, program);
    forall I: Interp<D> ensures AxiomsTrue(I, axioms) <==> GraphTrue(I, g, nodes, triples) {
      GraphMeans(I, g, nodes, triples, axioms);
    }
    forall S: Structure<D>, t, said
      | Satisfies(S, program.rules, program.facts) && t in triples && TripleSays(g, t, said)
      ensures AxiomsTrue(S.base, said)
    {
      TripleHolds(S.base, g, nodes, triples, t, said);
    }
  }

  lemma TripleHolds<D(!new)>(I: Interp<D>, g: Graph, nodes: seq<Node>, triples: seq<Triple>, t: Triple,
      said: seq<Axiom>)
    requires GraphTrue(I, g, nodes, triples) && t in triples && TripleSays(g, t, said)
    ensures AxiomsTrue(I, said)
  {
    hide TripleTrue;
    hide TripleSays;
    hide AxiomsTrue;
    TripleMeans(I, g, t, said);
  }

  lemma ProgramRecords(level: nat, g: Graph, nodes: seq<Node>, triples: seq<Triple>, axioms: seq<Axiom>,
      program: T.Program)
    requires SayAll(g, Statements(nodes, triples), axioms) && T.Compile(level, axioms) == Ok(program)
    ensures forall ax | StatedIn(g, nodes, triples, ax) :: ProgramFacts.Recorded(program.facts, ax)
    ensures forall ax | StatedIn(g, nodes, triples, ax) :: Acceptance.LegalAxiom(level, ax)
  {
    hide *;
    C.CompileJudged(level, axioms);
    forall ax | StatedIn(g, nodes, triples, ax)
      ensures ProgramFacts.Recorded(program.facts, ax) && Acceptance.LegalAxiom(level, ax)
    {
      AxiomsStated(g, nodes, triples, axioms, ax);
      C.AxiomRecorded(level, axioms, program, ax);
    }
  }

  lemma WhyNot(level: nat, g: Graph, nodes: seq<Node>, triples: seq<Triple>)
    requires forall axioms | SayAll(g, Statements(nodes, triples), axioms) :: T.Compile(level, axioms).Err?
    ensures
      || (exists n | n in nodes :: forall e :: !Meets(g, n, true, e))
      || (exists n | n in nodes && n.Iri? :: forall e :: !Meets(g, n, false, e))
      || (exists t | t in triples :: !Readable(g, t))
      || (exists ax :: StatedIn(g, nodes, triples, ax) && !Acceptance.LegalAxiom(level, ax))
      || exists axioms :: SayAll(g, Statements(nodes, triples), axioms) && Budget.RuleCost(axioms) > 100_000
  {
    hide *;
    if (forall n | n in nodes :: exists e :: Meets(g, n, true, e))
      && (forall n | n in nodes && n.Iri? :: exists e :: Meets(g, n, false, e))
      && (forall t | t in triples :: Readable(g, t))
    {
      var axioms := ReadInTurn(g, nodes, triples);
      C.CompileJudged(level, axioms);
      if Budget.RuleCost(axioms) <= 100_000 {
        var ax :| ax in axioms && !Acceptance.LegalAxiom(level, ax);
        AxiomsStated(g, nodes, triples, axioms, ax);
      }
    }
  }
}
