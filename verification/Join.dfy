/** A conjunctive query answered by nested loops over the facts, one atom after another. */
module Join {
  import opened Options
  import opened Expressions
  import opened Horn

  type Row = seq<string>

  function Shorter(args: seq<Term>, row: Row): nat { if |args| <= |row| then |args| else |row| }

  /** The binding makes the atom's terms the row's values, as far as both go. */
  ghost predicate Agrees(b: Binding, args: seq<Term>, row: Row) {
    forall i | 0 <= i < Shorter(args, row) ::
      match args[i] case Var(v) => v in b && b[v] == row[i] case Const(c) => c == row[i]
  }

  /** The variables that a row gives values to. */
  function Touched(args: seq<Term>, row: Row): set<string> {
    set i | 0 <= i < Shorter(args, row) && args[i].Var? :: args[i].name
  }

  ghost predicate Extends(b: Binding, c: Binding) { forall v | v in b :: v in c && c[v] == b[v] }

  /** `c` is `b` with the values that the row gives, and nothing else. */
  ghost predicate Extension(b: Binding, args: seq<Term>, row: Row, c: Binding) {
    Extends(b, c) && Agrees(c, args, row) && c.Keys == b.Keys + Touched(args, row)
  }

  lemma ExtensionUnique(b: Binding, args: seq<Term>, row: Row, c: Binding, d: Binding)
    requires Extension(b, args, row, c) && Extension(b, args, row, d)
    ensures c == d
  {
    forall v | v in c ensures v in d && c[v] == d[v] {
      if v !in b {
        var i :| 0 <= i < Shorter(args, row) && args[i].Var? && args[i].name == v;
      }
    }
    assert c.Keys == d.Keys;
  }

  /** Extends a binding by one row; it fails exactly when no binding extends this one and agrees with the row. */
  method ExtendBinding(binding: Binding, args: seq<Term>, row: Row) returns (ok: bool, extended: Binding)
    ensures ok ==> Extension(binding, args, row, extended)
    ensures !ok ==> forall c | Extends(binding, c) :: !Agrees(c, args, row)
  {
    extended := binding;
    for i := 0 to Shorter(args, row)
      invariant Extends(binding, extended)
      invariant extended.Keys == binding.Keys + set k | 0 <= k < i && args[k].Var? :: args[k].name
      invariant forall k | 0 <= k < i ::
        match args[k] case Var(v) => v in extended && extended[v] == row[k] case Const(c) => c == row[k]
      invariant forall c | Extends(binding, c) && Agrees(c, args, row) :: Extends(extended, c)
    {
      match args[i] {
        case Var(v) =>
          if v in extended && extended[v] != row[i] { return false, extended; }
          extended := extended[v := row[i]];
        case Const(c) =>
          if c != row[i] { return false, extended; }
      }
    }
    ok := true;
  }

  // ----- What the whole body asks -----

  /** The variables that rows, one for each atom, give values to. */
  function BoundBy(body: seq<Atom>, rows: seq<Row>): set<string>
    requires |rows| == |body|
  {
    if body == [] then {} else
    BoundBy(body[..|body| - 1], rows[..|rows| - 1]) + Touched(body[|body| - 1].args, rows[|rows| - 1])
  }

  /** One fact for each atom, and the binding that they give together. */
  ghost predicate Justified(facts: set<Fact>, body: seq<Atom>, rows: seq<Row>, b: Binding) {
    && |rows| == |body|
    && (forall i | 0 <= i < |body| :: Fact(body[i].predicate_, rows[i]) in facts && Agrees(b, body[i].args, rows[i]))
    && b.Keys == BoundBy(body, rows)
  }

  lemma BoundByAppend(body: seq<Atom>, rows: seq<Row>, a: Atom, row: Row)
    requires |rows| == |body|
    ensures BoundBy(body + [a], rows + [row]) == BoundBy(body, rows) + Touched(a.args, row)
  {
    assert (body + [a])[..|body|] == body && (rows + [row])[..|rows|] == rows;
  }

  lemma AgreesExtended(b: Binding, c: Binding, args: seq<Term>, row: Row)
    requires Extends(b, c) && Agrees(b, args, row)
    ensures Agrees(c, args, row)
  {
  }

  lemma JustifiedAppend(facts: set<Fact>, body: seq<Atom>, rows: seq<Row>, b: Binding, a: Atom, row: Row, c: Binding)
    requires Justified(facts, body, rows, b) && Fact(a.predicate_, row) in facts && Extension(b, a.args, row, c)
    ensures Justified(facts, body + [a], rows + [row], c)
  {
    BoundByAppend(body, rows, a, row);
    hide BoundBy;
    hide Touched;
    forall i | 0 <= i < |body| ensures Agrees(c, body[i].args, rows[i]) {
      AgreesExtended(b, c, body[i].args, rows[i]);
    }
    hide Agrees;
  }

  function Restricted(b: Binding, names: set<string>): Binding { map v | v in b && v in names :: b[v] }

  lemma {:induction false} BoundByContains(body: seq<Atom>, rows: seq<Row>, i: nat)
    requires |rows| == |body| && i < |body|
    ensures Touched(body[i].args, rows[i]) <= BoundBy(body, rows)
    decreases |body|
  {
    if i < |body| - 1 { BoundByContains(body[..|body| - 1], rows[..|rows| - 1], i); }
  }

  lemma AgreesRestricted(b: Binding, names: set<string>, args: seq<Term>, row: Row)
    requires Agrees(b, args, row) && Touched(args, row) <= names
    ensures Agrees(Restricted(b, names), args, row)
  {
    forall i | 0 <= i < Shorter(args, row) && args[i].Var? ensures args[i].name in names {
      assert args[i].name in Touched(args, row);
    }
  }

  lemma JustifiedFront(facts: set<Fact>, body: seq<Atom>, a: Atom, rows: seq<Row>, row: Row, c: Binding)
    returns (b: Binding)
    requires |rows| == |body| && Justified(facts, body + [a], rows + [row], c)
    ensures Justified(facts, body, rows, b) && Extension(b, a.args, row, c) && Fact(a.predicate_, row) in facts
  {
    BoundByAppend(body, rows, a, row);
    b := Restricted(c, BoundBy(body, rows));
    forall i | 0 <= i < |body| ensures Fact(body[i].predicate_, rows[i]) in facts && Agrees(b, body[i].args, rows[i]) {
      assert (body + [a])[i] == body[i] && (rows + [row])[i] == rows[i];
      BoundByContains(body, rows, i);
      AgreesRestricted(c, BoundBy(body, rows), body[i].args, rows[i]);
    }
    assert (body + [a])[|body|] == a && (rows + [row])[|rows|] == row;
    hide BoundBy;
    hide Agrees;
  }

  // ----- The nested loops -----

  /** The bindings answer the choices of rows, one for one. */
  ghost predicate OneEach(facts: set<Fact>, body: seq<Atom>, bindings: seq<Binding>, choices: seq<seq<Row>>) {
    && |choices| == |bindings| && NoRepeats(choices)
    && (forall i | 0 <= i < |bindings| :: Justified(facts, body, choices[i], bindings[i]))
    && forall rows, b | Justified(facts, body, rows, b) :: rows in choices
  }

  lemma JustifiedUnique(facts: set<Fact>, body: seq<Atom>, rows: seq<Row>, b: Binding, c: Binding)
    requires Justified(facts, body, rows, b) && Justified(facts, body, rows, c)
    ensures b == c
  {
    forall v | v in b ensures v in c && b[v] == c[v] {
      BoundFrom(body, rows, v);
      var i, k :| 0 <= i < |body| && 0 <= k < Shorter(body[i].args, rows[i]) && body[i].args[k] == Var(v);
      assert Agrees(b, body[i].args, rows[i]) && Agrees(c, body[i].args, rows[i]);
    }
    assert b.Keys == c.Keys;
  }

  lemma {:induction false} BoundFrom(body: seq<Atom>, rows: seq<Row>, v: string)
    requires |rows| == |body| && v in BoundBy(body, rows)
    ensures exists i, k :: 0 <= i < |body| && 0 <= k < Shorter(body[i].args, rows[i]) && body[i].args[k] == Var(v)
    decreases |body|
  {
    var n := |body| - 1;
    if v in BoundBy(body[..n], rows[..n]) {
      BoundFrom(body[..n], rows[..n], v);
      var i, k :| 0 <= i < n && 0 <= k < Shorter(body[..n][i].args, rows[..n][i]) && body[..n][i].args[k] == Var(v);
      assert body[i].args[k] == Var(v);
    } else {
      var k :| 0 <= k < Shorter(body[n].args, rows[n]) && body[n].args[k].Var? && body[n].args[k].name == v;
      assert body[n].args[k] == Var(v);
    }
  }

  type Relations = map<string, seq<Row>>

  function Rows(relations: Relations, p: string): seq<Row> { if p in relations then relations[p] else [] }

  ghost predicate Indexed(relations: Relations, facts: set<Fact>) {
    && (forall p, row :: row in Rows(relations, p) <==> Fact(p, row) in facts)
    && forall p :: NoRepeats(Rows(relations, p))
  }

  method Index(facts: set<Fact>) returns (relations: Relations)
    ensures Indexed(relations, facts)
  {
    relations := map[];
    var rest := facts;
    while rest != {}
      invariant rest <= facts && Indexed(relations, facts - rest)
      decreases |rest|
    {
      var f :| f in rest;
      IndexOne(relations, facts - rest, f);
      assert facts - (rest - {f}) == (facts - rest) + {f};
      relations := relations[f.predicate_ := Rows(relations, f.predicate_) + [f.args]];
      rest := rest - {f};
    }
    assert facts - rest == facts;
  }

  lemma IndexOne(relations: Relations, facts: set<Fact>, f: Fact)
    requires Indexed(relations, facts) && f !in facts
    ensures Indexed(relations[f.predicate_ := Rows(relations, f.predicate_) + [f.args]], facts + {f})
  {
    var more := relations[f.predicate_ := Rows(relations, f.predicate_) + [f.args]];
    forall p, row ensures row in Rows(more, p) <==> Fact(p, row) in facts + {f} {
      assert row in Rows(relations, p) <==> Fact(p, row) in facts;
    }
    assert f == Fact(f.predicate_, f.args);
    assert f.args !in Rows(relations, f.predicate_);
    forall p ensures NoRepeats(Rows(more, p)) { assert NoRepeats(Rows(relations, p)); }
  }

  /** The rows that extend a binding, in order, and what they extend it to. */
  ghost predicate ExtendedBy(binding: Binding, args: seq<Term>, rows: seq<Row>, used: seq<Row>,
      extended: seq<Binding>) {
    && |used| == |extended| && NoRepeats(used)
    && (forall k | 0 <= k < |used| :: used[k] in rows && Extension(binding, args, used[k], extended[k]))
    && forall row, c | row in rows && Extension(binding, args, row, c) :: row in used
  }

  method ExtendByRows(binding: Binding, args: seq<Term>, rows: seq<Row>) returns (extended: seq<Binding>)
    requires NoRepeats(rows)
    ensures exists used :: ExtendedBy(binding, args, rows, used, extended)
  {
    hide Extension;
    extended := [];
    ghost var used: seq<Row> := [];
    for j := 0 to |rows|
      invariant ExtendedBy(binding, args, rows[..j], used, extended)
    {
      var ok, next := ExtendBinding(binding, args, rows[j]);
      assert rows[..j + 1] == rows[..j] + [rows[j]];
      ExtendedStep(binding, args, rows[..j], rows[j], used, extended, ok, next);
      if ok {
        extended := extended + [next];
        used := used + [rows[j]];
      }
    }
    assert rows[..|rows|] == rows;
  }

  lemma ExtendedStep(binding: Binding, args: seq<Term>, rows: seq<Row>, row: Row, used: seq<Row>,
      extended: seq<Binding>, ok: bool, next: Binding)
    requires ExtendedBy(binding, args, rows, used, extended) && row !in rows
    requires ok ==> Extension(binding, args, row, next)
    requires !ok ==> forall c | Extends(binding, c) :: !Agrees(c, args, row)
    ensures ok ==> ExtendedBy(binding, args, rows + [row], used + [row], extended + [next])
    ensures !ok ==> ExtendedBy(binding, args, rows + [row], used, extended)
  {
    if !ok {
      forall c ensures !Extension(binding, args, row, c) { }
    }
    hide Extension;
  }

  function Suffixed(choice: seq<Row>, used: seq<Row>): (r: seq<seq<Row>>)
    ensures |r| == |used| && forall k | 0 <= k < |r| :: r[k] == choice + [used[k]]
  {
    seq(|used|, k requires 0 <= k < |used| => choice + [used[k]])
  }

  /** One more atom: every choice for the atoms before, followed by every row that still agrees. */
  ghost predicate Spread(facts: set<Fact>, body: seq<Atom>, a: Atom, choices: seq<seq<Row>>, next: seq<seq<Row>>,
      following: seq<Binding>) {
    && |next| == |following| && NoRepeats(next)
    && (forall k | 0 <= k < |next| ::
      Justified(facts, body + [a], next[k], following[k]) && next[k][..|body|] in choices)
    && forall c, row, b | Justified(facts, body + [a], c + [row], b) && c in choices :: c + [row] in next
  }

  lemma SpreadStep(facts: set<Fact>, body: seq<Atom>, a: Atom, choices: seq<seq<Row>>, next: seq<seq<Row>>,
      following: seq<Binding>,
                   choice: seq<Row>, binding: Binding, rows: seq<Row>, used: seq<Row>, extended: seq<Binding>)
    requires Spread(facts, body, a, choices, next, following) && choice !in choices
    requires Justified(facts, body, choice, binding)
    requires forall row :: row in rows <==> Fact(a.predicate_, row) in facts
    requires ExtendedBy(binding, a.args, rows, used, extended)
    ensures Spread(facts, body, a, choices + [choice], next + Suffixed(choice, used), following + extended)
  {
    hide Extension;
    hide NoRepeats;
    var more := next + Suffixed(choice, used);
    assert |choice| == |body|;
    hide Justified;
    SuffixedJustified(facts, body, a, choice, binding, rows, used, extended);
    forall k | 0 <= k < |more|
      ensures Justified(facts, body + [a], more[k], (following + extended)[k])
      ensures more[k][..|body|] in choices + [choice]
    {
      if k >= |next| {
        assert more[k] == Suffixed(choice, used)[k - |next|] && (following + extended)[k] == extended[k - |next|];
      }
    }
    forall c, row, b | Justified(facts, body + [a], c + [row], b) && c in choices + [choice] ensures c + [row] in more {
      if c !in choices {
        SpreadCovers(facts, body, a, choice, binding, rows, used, extended, row, b);
      } else {
        assert c + [row] in next;
      }
    }
    SuffixedApart(choices, next, choice, used, |body|);
  }

  lemma SuffixedJustified(facts: set<Fact>, body: seq<Atom>, a: Atom, choice: seq<Row>, binding: Binding,
      rows: seq<Row>, used: seq<Row>, extended: seq<Binding>)
    requires Justified(facts, body, choice, binding) && |choice| == |body|
    requires forall row :: row in rows <==> Fact(a.predicate_, row) in facts
    requires ExtendedBy(binding, a.args, rows, used, extended)
    ensures forall k | 0 <= k < |used| ::
      Justified(facts, body + [a], Suffixed(choice, used)[k], extended[k]) && Suffixed(choice, used)[k][..|body|] ==
      choice
  {
    hide Justified;
    hide Extension;
    forall k | 0 <= k < |used|
      ensures Justified(facts, body + [a], Suffixed(choice, used)[k], extended[k])
      ensures Suffixed(choice, used)[k][..|body|] == choice
    {
      JustifiedAppend(facts, body, choice, binding, a, used[k], extended[k]);
    }
  }

  lemma SpreadCovers(facts: set<Fact>, body: seq<Atom>, a: Atom, choice: seq<Row>, binding: Binding, rows: seq<Row>,
      used: seq<Row>, extended: seq<Binding>, row: Row, b: Binding)
    requires Justified(facts, body, choice, binding)
    requires forall r :: r in rows <==> Fact(a.predicate_, r) in facts
    requires ExtendedBy(binding, a.args, rows, used, extended)
    requires |choice| == |body| && Justified(facts, body + [a], choice + [row], b)
    ensures choice + [row] in Suffixed(choice, used)
  {
    hide Justified;
    hide Extension;
    var before := JustifiedFront(facts, body, a, choice, row, b);
    JustifiedUnique(facts, body, choice, before, binding);
    var k :| 0 <= k < |used| && used[k] == row;
    assert Suffixed(choice, used)[k] == choice + [row];
  }

  lemma SuffixedApart(choices: seq<seq<Row>>, next: seq<seq<Row>>, choice: seq<Row>, used: seq<Row>, n: nat)
    requires NoRepeats(next) && NoRepeats(used) && |choice| == n && choice !in choices
    requires forall k | 0 <= k < |next| :: |next[k]| > n && next[k][..n] in choices
    ensures NoRepeats(next + Suffixed(choice, used))
  {
    var more := next + Suffixed(choice, used);
    forall i, j | 0 <= i < j < |more| ensures more[i] != more[j] {
      if j >= |next| {
        assert more[j] == choice + [used[j - |next|]] && more[j][..n] == choice;
        if i >= |next| {
          assert more[i] == choice + [used[i - |next|]] && more[i][n] == used[i - |next|] && more[j][n] ==
            used[j - |next|];
        } else {
          assert more[i][..n] in choices;
        }
      }
    }
  }

  method JoinAtom(facts: set<Fact>, ghost body: seq<Atom>, a: Atom, rows: seq<Row>, bindings: seq<Binding>,
      ghost choices: seq<seq<Row>>)
    returns (following: seq<Binding>)
    requires OneEach(facts, body, bindings, choices) && NoRepeats(rows)
    requires forall row :: row in rows <==> Fact(a.predicate_, row) in facts
    ensures exists next :: OneEach(facts, body + [a], following, next)
  {
    hide Justified;
    hide Extension;
    hide ExtendedBy;
    following := [];
    ghost var next: seq<seq<Row>> := [];
    for i := 0 to |bindings|
      invariant Spread(facts, body, a, choices[..i], next, following)
    {
      hide Spread;
      var extended := ExtendByRows(bindings[i], a.args, rows);
      ghost var used :| ExtendedBy(bindings[i], a.args, rows, used, extended);
      assert choices[..i + 1] == choices[..i] + [choices[i]];
      SpreadStep(facts, body, a, choices[..i], next, following, choices[i], bindings[i], rows, used, extended);
      following := following + extended;
      next := next + Suffixed(choices[i], used);
    }
    assert choices[..|bindings|] == choices;
    SpreadAll(facts, body, a, bindings, choices, next, following);
  }

  lemma SpreadAll(facts: set<Fact>, body: seq<Atom>, a: Atom, bindings: seq<Binding>, choices: seq<seq<Row>>,
      next: seq<seq<Row>>, following: seq<Binding>)
    requires OneEach(facts, body, bindings, choices) && Spread(facts, body, a, choices, next, following)
    ensures OneEach(facts, body + [a], following, next)
  {
    forall rows, b | Justified(facts, body + [a], rows, b) ensures rows in next {
      var c := rows[..|body|];
      assert rows == c + [rows[|body|]];
      var before := JustifiedFront(facts, body, a, c, rows[|body|], b);
      assert c in choices;
    }
  }

  predicate Covers(b: Binding, variables: seq<string>) { forall v | v in variables :: v in b }

  /** One answer for each choice of facts, in some order. */
  ghost predicate Answers(facts: set<Fact>, body: seq<Atom>, variables: seq<string>, answers: seq<seq<string>>) {
    exists bindings, choices :: OneEach(facts, body, bindings, choices) && ProjectedTo(bindings, variables, answers)
  }

  /** What the control may return: the answers, or an error when a binding found leaves a variable unbound. */
  ghost predicate Returned(facts: set<Fact>, variables: seq<string>, body: seq<Atom>, r: Option<seq<seq<string>>>) {
    match r
    case Some(answers) => Answers(facts, body, variables, answers)
    case None => exists rows, b :: Justified(facts, body, rows, b) && exists v :: v in variables && v !in b
  }

  /** The bindings found atom by atom. */
  method FindBindings(facts: set<Fact>, body: seq<Atom>) returns (bindings: seq<Binding>)
    ensures exists choices :: OneEach(facts, body, bindings, choices)
  {
    var relations := Index(facts);
    bindings := [map[]];
    ghost var choices: seq<seq<Row>> := [[]];
    for k := 0 to |body|
      invariant OneEach(facts, body[..k], bindings, choices)
    {
      hide OneEach;
      assert body[..k + 1] == body[..k] + [body[k]];
      bindings := JoinAtom(facts, body[..k], body[k], Rows(relations, body[k].predicate_), bindings, choices);
      choices :| OneEach(facts, body[..k] + [body[k]], bindings, choices);
    }
    assert body[..|body|] == body;
  }

  /** The answers in the order found; a variable left unbound by some binding is an error. */
  method IndependentControl(facts: set<Fact>, variables: seq<string>, body: seq<Atom>)
    returns (r: Option<seq<seq<string>>>)
    ensures Returned(facts, variables, body, r)
  {
    hide *;
    var bindings := FindBindings(facts, body);
    ghost var choices :| OneEach(facts, body, bindings, choices);
    var answers: seq<seq<string>> := [];
    NothingProjected(bindings, variables);
    for i := 0 to |bindings|
      invariant ProjectedTo(bindings[..i], variables, answers)
    {
      if !Covers(bindings[i], variables) {
        ReturnsError(facts, variables, body, bindings, choices, i);
        return None;
      }
      ProjectedMore(bindings[..i], bindings[i], variables, answers);
      assert bindings[..i + 1] == bindings[..i] + [bindings[i]];
      answers := answers + [Project(bindings[i], variables)];
    }
    assert bindings[..|bindings|] == bindings;
    ReturnsAnswers(facts, variables, body, bindings, choices, answers);
    r := Some(answers);
  }

  function Project(b: Binding, variables: seq<string>): seq<string>
    requires Covers(b, variables)
  {
    Values(variables, b)
  }

  ghost predicate ProjectedTo(bindings: seq<Binding>, variables: seq<string>, answers: seq<seq<string>>) {
    && |answers| == |bindings|
    && forall i | 0 <= i < |bindings| :: Covers(bindings[i], variables) && answers[i] == Values(variables, bindings[i])
  }

  lemma NothingProjected(bindings: seq<Binding>, variables: seq<string>)
    ensures ProjectedTo(bindings[..0], variables, [])
  {
  }

  lemma ProjectedMore(bindings: seq<Binding>, b: Binding, variables: seq<string>, answers: seq<seq<string>>)
    requires ProjectedTo(bindings, variables, answers) && Covers(b, variables)
    ensures ProjectedTo(bindings + [b], variables, answers + [Project(b, variables)])
  {
    hide Values;
  }

  lemma ReturnsError(facts: set<Fact>, variables: seq<string>, body: seq<Atom>, bindings: seq<Binding>,
                     choices: seq<seq<Row>>, i: nat)
    requires OneEach(facts, body, bindings, choices) && i < |bindings| && !Covers(bindings[i], variables)
    ensures Returned(facts, variables, body, None)
  {
    hide Justified;
    hide NoRepeats;
    assert Justified(facts, body, choices[i], bindings[i]);
  }

  lemma ReturnsAnswers(facts: set<Fact>, variables: seq<string>, body: seq<Atom>, bindings: seq<Binding>,
                       choices: seq<seq<Row>>, answers: seq<seq<string>>)
    requires OneEach(facts, body, bindings, choices) && ProjectedTo(bindings, variables, answers)
    ensures Returned(facts, variables, body, Some(answers))
  {
    hide OneEach;
    hide ProjectedTo;
  }

  // ----- What the answers are -----

  ghost predicate Answer(facts: set<Fact>, body: seq<Atom>, variables: seq<string>, t: seq<string>) {
    exists rows, b :: Justified(facts, body, rows, b) && Covers(b, variables) && Values(variables, b) == t
  }

  lemma AnswersAre(facts: set<Fact>, body: seq<Atom>, variables: seq<string>, answers: seq<seq<string>>, t: seq<string>)
    requires Answers(facts, body, variables, answers)
    ensures t in answers <==> Answer(facts, body, variables, t)
  {
    var bindings, choices :| OneEach(facts, body, bindings, choices) && ProjectedTo(bindings, variables, answers);
    hide Values;
    if t in answers {
      var i :| 0 <= i < |answers| && answers[i] == t;
      assert Justified(facts, body, choices[i], bindings[i]);
    }
    if Answer(facts, body, variables, t) {
      var rows, b :| Justified(facts, body, rows, b) && Covers(b, variables) && Values(variables, b) == t;
      var i :| 0 <= i < |choices| && choices[i] == rows;
      JustifiedUnique(facts, body, rows, b, bindings[i]);
      assert answers[i] == t;
    }
  }

  // ----- When the bindings found are the satisfying ones -----

  ghost predicate Found(facts: set<Fact>, body: seq<Atom>, b: Binding) {
    exists rows :: Justified(facts, body, rows, b)
  }

  ghost predicate Satisfies(facts: set<Fact>, body: seq<Atom>, b: Binding) {
    (forall v :: v in b <==> v in BodyNames(body)) && forall a | a in body :: Ground(b, a) in facts
  }

  /** No fact about the predicate is too short, and every fact cut to the arity is a fact. */
  ghost predicate Fit(facts: set<Fact>, p: string, n: nat) {
    forall f | f in facts && f.predicate_ == p :: |f.args| >= n && Fact(p, f.args[..n]) in facts
  }

  ghost predicate AllFit(facts: set<Fact>, body: seq<Atom>) {
    forall a | a in body :: Fit(facts, a.predicate_, |a.args|)
  }

  /** Every atom is about the predicate at this arity. */
  ghost predicate Over(body: seq<Atom>, p: string, n: nat) {
    forall a | a in body :: a.predicate_ == p && |a.args| == n
  }

  /** Where the facts fit every atom, a binding is found exactly when it satisfies every atom. */
  lemma FoundIsSatisfying(facts: set<Fact>, body: seq<Atom>, b: Binding)
    requires AllFit(facts, body)
    ensures Found(facts, body, b) <==> Satisfies(facts, body, b)
  {
    if Found(facts, body, b) {
      var rows :| Justified(facts, body, rows, b);
      CutJustified(facts, body, rows, b);
      JustifiedSatisfies(facts, body, Cut(body, rows), b);
    }
    if Satisfies(facts, body, b) {
      SatisfiesJustified(facts, body, b);
    }
  }

  /** Fitting is exact: it holds of a predicate at an arity when, for every body about them, found is satisfying. */
  lemma FitIsExact(facts: set<Fact>, p: string, n: nat)
    ensures Fit(facts, p, n) <==>
            forall body, b | Over(body, p, n) :: Found(facts, body, b) <==> Satisfies(facts, body, b)
  {
    hide Found;
    hide Satisfies;
    if Fit(facts, p, n) {
      forall body, b | Over(body, p, n) ensures Found(facts, body, b) <==> Satisfies(facts, body, b) {
        FoundIsSatisfying(facts, body, b);
      }
    } else {
      var f :| f in facts && f.predicate_ == p && !(|f.args| >= n && Fact(p, f.args[..n]) in facts);
      var b := Misfit(facts, p, n, f);
      assert Over([Atom(p, Variables(n))], p, n);
    }
  }

  function Name(i: nat): string { seq(i, _ => 'x') }

  /** As many different variables as asked for. */
  function Variables(n: nat): (r: seq<Term>)
    ensures |r| == n && forall i | 0 <= i < n :: r[i] == Var(Name(i))
  {
    seq(n, i requires 0 <= i < n => Var(Name(i)))
  }

  lemma NamesApart(i: nat, j: nat)
    requires Name(i) == Name(j)
    ensures i == j
  {
    assert |Name(i)| == i && |Name(j)| == j;
  }

  /** The binding that a row gives to that many variables. */
  function Given(n: nat, row: Row): Binding { GivenTo(if n <= |row| then n else |row|, row) }

  function GivenTo(k: nat, row: Row): (b: Binding)
    requires k <= |row|
    ensures forall v :: v in b <==> exists i: nat | i < k :: v == Name(i)
    ensures forall i: nat | i < k :: b[Name(i)] == row[i]
  {
    if k == 0 then map[] else
    NamesApartBelow(k - 1);
    GivenTo(k - 1, row)[Name(k - 1) := row[k - 1]]
  }

  lemma NamesApartBelow(k: nat)
    ensures forall i: nat | i < k :: Name(i) != Name(k)
  {
    forall i: nat | i < k ensures Name(i) != Name(k) {
      if Name(i) == Name(k) { NamesApart(i, k); }
    }
  }

  /** A fact that does not fit gives a binding that leaves a variable unbound or grounds the atom to no fact. */
  lemma Misfit(facts: set<Fact>, p: string, n: nat, f: Fact) returns (b: Binding)
    requires f in facts && f.predicate_ == p && !(|f.args| >= n && Fact(p, f.args[..n]) in facts)
    ensures Found(facts, [Atom(p, Variables(n))], b) && !Satisfies(facts, [Atom(p, Variables(n))], b)
  {
    var a := Atom(p, Variables(n));
    var row := f.args;
    b := Given(n, row);
    MisfitFound(facts, p, n, f);
    if |row| < n {
      MisfitShort(facts, p, n, row);
    } else {
      assert GroundTerms(b, a.args) == row[..n];
      assert a in [a] && Ground(b, a) == Fact(p, row[..n]);
    }
  }

  lemma MisfitFound(facts: set<Fact>, p: string, n: nat, f: Fact)
    requires f in facts && f.predicate_ == p
    ensures Found(facts, [Atom(p, Variables(n))], Given(n, f.args))
  {
    var a := Atom(p, Variables(n));
    var b := Given(n, f.args);
    assert f == Fact(p, f.args);
    assert [a][..0] == [] && [f.args][..0] == [];
    assert BoundBy([a], [f.args]) == Touched(a.args, f.args);
    forall v ensures v in b.Keys <==> v in Touched(a.args, f.args) {
      if v in b {
        var i: nat :| i < Shorter(a.args, f.args) && v == Name(i);
        assert a.args[i].name == v;
      }
      if v in Touched(a.args, f.args) {
        var i :| 0 <= i < Shorter(a.args, f.args) && a.args[i].Var? && a.args[i].name == v;
        assert v == Name(i);
      }
    }
    assert b.Keys == BoundBy([a], [f.args]);
    assert Justified(facts, [a], [f.args], b);
  }

  lemma MisfitShort(facts: set<Fact>, p: string, n: nat, row: Row)
    requires |row| < n
    ensures !Satisfies(facts, [Atom(p, Variables(n))], Given(n, row))
  {
    var a := Atom(p, Variables(n));
    var v := Name(|row|);
    NamesApartBelow(|row|);
    TermNamesHold(a.args, |row|);
    assert [a][1..] == [];
    assert v in BodyNames([a]);
  }

  lemma {:induction false} TermNamesHold(ts: seq<Term>, i: nat)
    requires i < |ts| && ts[i].Var?
    ensures ts[i].name in TermNames(ts)
  {
    if i > 0 { TermNamesHold(ts[1..], i - 1); }
  }

  /** Where facts fit, the control is right: its answers are the satisfying assignments' projections, and it
      fails only when a satisfying assignment leaves a variable unbound. */
  lemma ReturnedIsRight(facts: set<Fact>, variables: seq<string>, body: seq<Atom>, r: Option<seq<seq<string>>>)
    requires AllFit(facts, body) && Returned(facts, variables, body, r)
    ensures r.None? ==> exists b :: Satisfies(facts, body, b) && exists v :: v in variables && v !in b
    ensures r.Some? ==> forall t :: t in r.value <==> Projected(facts, body, variables, t)
  {
    hide Satisfies;
    hide Justified;
    hide Values;
    if r.None? {
      var rows, b :| Justified(facts, body, rows, b) && exists v :: v in variables && v !in b;
      assert Found(facts, body, b);
      FoundIsSatisfying(facts, body, b);
      var v :| v in variables && v !in b;
      assert Satisfies(facts, body, b) && v in variables && v !in b;
    } else {
      forall t ensures t in r.value <==> Projected(facts, body, variables, t) {
        AnswersAre(facts, body, variables, r.value, t);
        AnswerIsProjected(facts, body, variables, t);
      }
    }
  }

  ghost predicate Projected(facts: set<Fact>, body: seq<Atom>, variables: seq<string>, t: seq<string>) {
    exists b :: Satisfies(facts, body, b) && Covers(b, variables) && Values(variables, b) == t
  }

  lemma AnswerIsProjected(facts: set<Fact>, body: seq<Atom>, variables: seq<string>, t: seq<string>)
    requires AllFit(facts, body)
    ensures Answer(facts, body, variables, t) <==> Projected(facts, body, variables, t)
  {
    hide Satisfies;
    hide Justified;
    hide Values;
    if Answer(facts, body, variables, t) {
      var rows, b :| Justified(facts, body, rows, b) && Covers(b, variables) && Values(variables, b) == t;
      assert Found(facts, body, b);
      FoundIsSatisfying(facts, body, b);
    }
    if Projected(facts, body, variables, t) {
      var b :| Satisfies(facts, body, b) && Covers(b, variables) && Values(variables, b) == t;
      FoundIsSatisfying(facts, body, b);
      assert Found(facts, body, b);
      var rows :| Justified(facts, body, rows, b);
    }
  }

  /** Over a fact that does not fit, the control returns an answer though no assignment satisfies the atom. */
  lemma MisfitReturned(p: string, v: string, c: string, d: string, r: Option<seq<seq<string>>>)
    requires Returned({Fact(p, [c, d])}, [v], [Atom(p, [Var(v)])], r)
    ensures r == Some([[c]]) && forall b :: !Satisfies({Fact(p, [c, d])}, [Atom(p, [Var(v)])], b)
  {
    var facts, body := {Fact(p, [c, d])}, [Atom(p, [Var(v)])];
    forall b ensures !Satisfies(facts, body, b) {
      assert body[0] in body && |Ground(b, body[0]).args| == 1;
    }
    forall rows, b | Justified(facts, body, rows, b)
      ensures rows == [[c, d]] && b == map[v := c] && Covers(b, [v])
    {
      OnlyMisfit(p, v, c, d, rows, b);
    }
    OnlyMisfitFound(p, v, c, d);
    hide Justified;
    assert r.Some?;
    OnlyAnswer(facts, body, v, c, [[c, d]], r.value);
  }

  lemma OnlyMisfit(p: string, v: string, c: string, d: string, rows: seq<Row>, b: Binding)
    requires Justified({Fact(p, [c, d])}, [Atom(p, [Var(v)])], rows, b)
    ensures rows == [[c, d]] && b == map[v := c]
  {
    var body := [Atom(p, [Var(v)])];
    assert Fact(body[0].predicate_, rows[0]) == Fact(p, [c, d]);
    assert rows == [[c, d]];
    assert body[..0] == [] && rows[..0] == [];
    assert Agrees(b, body[0].args, rows[0]) && Shorter(body[0].args, rows[0]) == 1;
    assert body[0].args[0] == Var(v);
    assert Touched(body[0].args, rows[0]) == {v} by { assert body[0].args[0].name in Touched(body[0].args, rows[0]); }
    assert BoundBy(body, rows) == BoundBy([], []) + {v};
    assert b.Keys == {v} && b[v] == c;
  }

  lemma OnlyMisfitFound(p: string, v: string, c: string, d: string)
    ensures Justified({Fact(p, [c, d])}, [Atom(p, [Var(v)])], [[c, d]], map[v := c])
  {
    var body, rows := [Atom(p, [Var(v)])], [[c, d]];
    assert body[..0] == [] && rows[..0] == [];
    assert Touched(body[0].args, rows[0]) == {v} by { assert body[0].args[0].name in Touched(body[0].args, rows[0]); }
  }

  lemma Repeated<T>(s: seq<T>, x: T)
    requires |s| >= 2 && forall y | y in s :: y == x
    ensures !NoRepeats(s)
  {
    assert s[0] in s && s[1] in s;
  }

  lemma OnlyAnswer(facts: set<Fact>, body: seq<Atom>, v: string, c: string, only: seq<Row>, answers: seq<seq<string>>)
    requires Answers(facts, body, [v], answers) && Justified(facts, body, only, map[v := c])
    requires forall rows, b | Justified(facts, body, rows, b) :: rows == only && b == map[v := c]
    ensures answers == [[c]]
  {
    hide Justified;
    var bindings, choices :| OneEach(facts, body, bindings, choices) && ProjectedTo(bindings, [v], answers);
    assert only in choices;
    if |choices| >= 2 { Repeated(choices, only); }
    assert bindings[0] == map[v := c];
    assert Values([v], bindings[0]) == [c];
  }

  /** Each row cut to the arity of its atom. */
  function Cut(body: seq<Atom>, rows: seq<Row>): (r: seq<Row>)
    requires |rows| == |body| && forall i | 0 <= i < |body| :: |rows[i]| >= |body[i].args|
    ensures |r| == |body| && forall i | 0 <= i < |body| :: r[i] == rows[i][..|body[i].args|]
  {
    seq(|body|, i requires 0 <= i < |body| => rows[i][..|body[i].args|])
  }

  /** What is cut off was never looked at. */
  lemma CutJustified(facts: set<Fact>, body: seq<Atom>, rows: seq<Row>, b: Binding)
    requires AllFit(facts, body) && Justified(facts, body, rows, b)
    ensures forall i | 0 <= i < |body| :: |rows[i]| >= |body[i].args|
    ensures Justified(facts, body, Cut(body, rows), b)
  {
    forall i | 0 <= i < |body|
      ensures |rows[i]| >= |body[i].args| && Fact(body[i].predicate_, rows[i][..|body[i].args|]) in facts
      ensures Agrees(b, body[i].args, rows[i][..|body[i].args|])
    {
      CutFact(facts, body, rows, b, i);
    }
    CutBound(body, rows);
    hide BoundBy;
    hide AllFit;
    hide Agrees;
  }

  lemma CutFact(facts: set<Fact>, body: seq<Atom>, rows: seq<Row>, b: Binding, i: nat)
    requires AllFit(facts, body) && Justified(facts, body, rows, b) && i < |body|
    ensures |rows[i]| >= |body[i].args| && Fact(body[i].predicate_, rows[i][..|body[i].args|]) in facts
    ensures Agrees(b, body[i].args, rows[i][..|body[i].args|])
  {
    var f := Fact(body[i].predicate_, rows[i]);
    assert body[i] in body && Fit(facts, f.predicate_, |body[i].args|) && f in facts;
    assert Agrees(b, body[i].args, rows[i]);
  }

  lemma {:induction false} CutBound(body: seq<Atom>, rows: seq<Row>)
    requires |rows| == |body| && forall i | 0 <= i < |body| :: |rows[i]| >= |body[i].args|
    ensures BoundBy(body, Cut(body, rows)) == BoundBy(body, rows)
    decreases |body|
  {
    if body != [] {
      var n := |body| - 1;
      CutBound(body[..n], rows[..n]);
      assert Cut(body, rows)[..n] == Cut(body[..n], rows[..n]);
      assert Touched(body[n].args, Cut(body, rows)[n]) == Touched(body[n].args, rows[n]);
    }
  }

  lemma AgreesIsGround(b: Binding, args: seq<Term>, row: Row)
    requires |row| == |args| && forall v | v in TermNames(args) :: v in b
    ensures Agrees(b, args, row) <==> GroundTerms(b, args) == row
  {
    TermNamesIndexed(args);
    if Agrees(b, args, row) {
      forall i | 0 <= i < |args| ensures GroundTerm(b, args[i]) == row[i] { }
    }
  }

  lemma {:induction false} TermNamesIndexed(ts: seq<Term>)
    ensures forall v :: v in TermNames(ts) <==> v in set i | 0 <= i < |ts| && ts[i].Var? :: ts[i].name
  {
    if ts != [] {
      TermNamesIndexed(ts[1..]);
      forall v ensures v in TermNames(ts) <==> v in set i | 0 <= i < |ts| && ts[i].Var? :: ts[i].name {
        var tail := set i | 0 <= i < |ts[1..]| && ts[1..][i].Var? :: ts[1..][i].name;
        if v in TermNames(ts[1..]) {
          var i :| 0 <= i < |ts[1..]| && ts[1..][i].Var? && ts[1..][i].name == v;
          assert ts[i + 1].Var? && ts[i + 1].name == v;
        }
        if i :| 0 <= i < |ts| && ts[i].Var? && ts[i].name == v && i > 0 {
          assert ts[1..][i - 1].Var? && ts[1..][i - 1].name == v;
          assert v in tail;
        }
      }
    }
  }

  lemma TouchedAll(args: seq<Term>, row: Row)
    requires |row| == |args|
    ensures forall v :: v in Touched(args, row) <==> v in TermNames(args)
  {
    TermNamesIndexed(args);
  }

  lemma {:induction false} BodyNamesAppend(body: seq<Atom>, a: Atom)
    ensures forall v :: v in BodyNames(body + [a]) <==> v in BodyNames(body) || v in TermNames(a.args)
  {
    if body == [] {
      assert [a][1..] == [];
    } else {
      assert (body + [a])[1..] == body[1..] + [a];
      BodyNamesAppend(body[1..], a);
    }
  }

  lemma {:induction false} BoundByAll(body: seq<Atom>, rows: seq<Row>)
    requires |rows| == |body| && forall i | 0 <= i < |body| :: |rows[i]| == |body[i].args|
    ensures forall v :: v in BoundBy(body, rows) <==> v in BodyNames(body)
    decreases |body|
  {
    if body != [] {
      var n := |body| - 1;
      assert body == body[..n] + [body[n]];
      BoundByAll(body[..n], rows[..n]);
      TouchedAll(body[n].args, rows[n]);
      BodyNamesAppend(body[..n], body[n]);
    }
  }

  lemma JustifiedSatisfies(facts: set<Fact>, body: seq<Atom>, rows: seq<Row>, b: Binding)
    requires Justified(facts, body, rows, b) && forall i | 0 <= i < |body| :: |rows[i]| == |body[i].args|
    ensures Satisfies(facts, body, b)
  {
    BoundByAll(body, rows);
    forall a | a in body ensures Ground(b, a) in facts {
      var i :| 0 <= i < |body| && body[i] == a;
      BoundByContains(body, rows, i);
      TouchedAll(a.args, rows[i]);
      AgreesIsGround(b, a.args, rows[i]);
    }
  }

  lemma {:induction false} NamesOfMember(body: seq<Atom>, a: Atom)
    requires a in body
    ensures forall v | v in TermNames(a.args) :: v in BodyNames(body)
  {
    if a != body[0] { NamesOfMember(body[1..], a); }
  }

  lemma SatisfiesJustified(facts: set<Fact>, body: seq<Atom>, b: Binding)
    requires Satisfies(facts, body, b)
    ensures Found(facts, body, b)
  {
    var rows := seq(|body|, i requires 0 <= i < |body| => GroundTerms(b, body[i].args));
    BoundByAll(body, rows);
    forall i | 0 <= i < |body| ensures Fact(body[i].predicate_, rows[i]) in facts && Agrees(b, body[i].args, rows[i]) {
      assert Ground(b, body[i]) in facts;
      NamesOfMember(body, body[i]);
      AgreesIsGround(b, body[i].args, rows[i]);
    }
    assert b.Keys == BoundBy(body, rows);
    assert Justified(facts, body, rows, b);
  }

  // ----- Reordering the body -----

  function Pairs(body: seq<Atom>, rows: seq<Row>): set<(Atom, Row)>
    requires |rows| == |body|
  {
    set i | 0 <= i < |body| :: (body[i], rows[i])
  }

  lemma {:induction false} BoundByPairs(body: seq<Atom>, rows: seq<Row>)
    requires |rows| == |body|
    ensures forall v :: v in BoundBy(body, rows) <==> exists p | p in Pairs(body, rows) :: v in Touched(p.0.args, p.1)
    decreases |body|
  {
    if body != [] {
      var n := |body| - 1;
      BoundByPairs(body[..n], rows[..n]);
      PairsWithout(body, rows, n);
      assert body[..n] + body[n + 1..] == body[..n] && rows[..n] + rows[n + 1..] == rows[..n];
    }
  }

  lemma PairsWithout(body: seq<Atom>, rows: seq<Row>, i: nat)
    requires |rows| == |body| && i < |body|
    ensures Pairs(body, rows) == {(body[i], rows[i])} + Pairs(body[..i] + body[i + 1..], rows[..i] + rows[i + 1..])
  {
    var others, left := body[..i] + body[i + 1..], rows[..i] + rows[i + 1..];
    forall p | p in Pairs(body, rows) ensures p == (body[i], rows[i]) || p in Pairs(others, left) {
      var k :| 0 <= k < |body| && p == (body[k], rows[k]);
      var l := if k < i then k else k - 1;
      assert k != i ==> p == (others[l], left[l]);
    }
    forall p | p in Pairs(others, left) ensures p in Pairs(body, rows) {
      var l :| 0 <= l < |others| && p == (others[l], left[l]);
      var k := if l < i then l else l + 1;
      assert p == (body[k], rows[k]);
    }
    assert (body[i], rows[i]) in Pairs(body, rows);
  }

  lemma MultisetWithout<T>(s: seq<T>, i: nat)
    requires i < |s|
    ensures multiset(s) == multiset{s[i]} + multiset(s[..i] + s[i + 1..])
  {
    assert s == s[..i] + ([s[i]] + s[i + 1..]);
  }

  lemma SameRest(body: seq<Atom>, i: nat, other: seq<Atom>)
    requires i < |body| && other != [] && multiset(body) == multiset(other) && body[i] == other[0]
    ensures multiset(body[..i] + body[i + 1..]) == multiset(other[1..])
  {
    MultisetWithout(body, i);
    MultisetWithout(other, 0);
    assert other[..0] + other[1..] == other[1..];
    Cancel(body[i], multiset(body[..i] + body[i + 1..]), multiset(other[1..]));
  }

  lemma Cancel<T(!new)>(x: T, a: multiset<T>, b: multiset<T>)
    requires multiset{x} + a == multiset{x} + b
    ensures a == b
  {
    forall y ensures a[y] == b[y] {
      assert (multiset{x} + a)[y] == (multiset{x} + b)[y];
    }
  }

  /** The same rows, handed to the same atoms in another order. */
  lemma {:induction false} Rearranged(body: seq<Atom>, rows: seq<Row>, other: seq<Atom>) returns (moved: seq<Row>)
    requires |rows| == |body| && multiset(body) == multiset(other)
    ensures |moved| == |other| && Pairs(other, moved) == Pairs(body, rows)
    decreases |other|
  {
    assert |multiset(body)| == |body| && |multiset(other)| == |other|;
    if other == [] {
      moved := [];
    } else {
      assert other[0] in multiset(body);
      var i :| 0 <= i < |body| && body[i] == other[0];
      SameRest(body, i, other);
      var tail := Rearranged(body[..i] + body[i + 1..], rows[..i] + rows[i + 1..], other[1..]);
      moved := [rows[i]] + tail;
      PairsWithout(body, rows, i);
      PairsWithout(other, moved, 0);
      assert other[..0] + other[1..] == other[1..] && moved[..0] + moved[1..] == tail;
    }
  }

  lemma JustifiedReordered(facts: set<Fact>, body: seq<Atom>, other: seq<Atom>, rows: seq<Row>, b: Binding)
    requires multiset(body) == multiset(other) && Justified(facts, body, rows, b)
    ensures exists moved :: Justified(facts, other, moved, b)
  {
    var moved := Rearranged(body, rows, other);
    BoundByPairs(body, rows);
    BoundByPairs(other, moved);
    assert b.Keys == BoundBy(other, moved);
    hide BoundBy;
    forall k | 0 <= k < |other|
      ensures Fact(other[k].predicate_, moved[k]) in facts && Agrees(b, other[k].args, moved[k])
    {
      assert (other[k], moved[k]) in Pairs(body, rows);
    }
    assert Justified(facts, other, moved, b);
  }

  /** As a set, the answer does not depend on the order of the body. */
  lemma ReorderedAnswers(facts: set<Fact>, body: seq<Atom>, other: seq<Atom>, variables: seq<string>,
      answers: seq<seq<string>>, others: seq<seq<string>>)
    requires multiset(body) == multiset(other)
    requires Answers(facts, body, variables, answers) && Answers(facts, other, variables, others)
    ensures forall t :: t in answers <==> t in others
  {
    hide Answers;
    hide Justified;
    hide Values;
    forall t ensures t in answers <==> t in others {
      AnswersAre(facts, body, variables, answers, t);
      AnswersAre(facts, other, variables, others, t);
      if t in answers {
        var rows, b :| Justified(facts, body, rows, b) && Covers(b, variables) && Values(variables, b) == t;
        JustifiedReordered(facts, body, other, rows, b);
      }
      if t in others {
        var rows, b :| Justified(facts, other, rows, b) && Covers(b, variables) && Values(variables, b) == t;
        JustifiedReordered(facts, other, body, rows, b);
      }
    }
  }
}
