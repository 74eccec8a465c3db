/** The Horn rules the compiler writes, and the canonical naming of their variables. */
module Rules {
  import opened Options
  import opened Expressions

  /** Which Skolem function: the expression that needs the witness, and the witness's number. */
  datatype Symbol = Symbol(expr: Expr, index: nat)

  datatype Term = Var(id: nat) | Const(node: Node) | Skolem(symbol: Symbol, arg: Term)

  datatype Atom =
    | ClassAtom(name: string, t: Term)
    | RoleAtom(name: string, s: Term, t: Term)
    | TopAtom(t: Term)
    | EqAtom(s: Term, t: Term)
    | NeqAtom(s: Term, t: Term)
    | BodyName(expr: Expr, t: Term)  // the auxiliary predicate of an antecedent expression
    | HeadName(expr: Expr, t: Term)  // the auxiliary predicate of a witness filler

  /** A rule without a head is an integrity constraint. */
  datatype Rule = Rule(head: Option<Atom>, body: seq<Atom>)

  function RoleFor(p: Property, left: Term, right: Term): Atom {
    if p.inverse then RoleAtom(p.name, right, left) else RoleAtom(p.name, left, right)
  }

  // ----- Variables in order of occurrence -----

  function TermVars(t: Term): seq<nat> {
    match t
    case Var(i) => [i]
    case Const(_) => []
    case Skolem(_, arg) => TermVars(arg)
  }

  function AtomVars(a: Atom): seq<nat> {
    match a
    case RoleAtom(_, s, t) => TermVars(s) + TermVars(t)
    case EqAtom(s, t) => TermVars(s) + TermVars(t)
    case NeqAtom(s, t) => TermVars(s) + TermVars(t)
    case _ => TermVars(a.t)
  }

  function BodyVars(body: seq<Atom>): seq<nat> {
    if body == [] then [] else AtomVars(body[0]) + BodyVars(body[1..])
  }

  function HeadVars(head: Option<Atom>): seq<nat> {
    if head.Some? then AtomVars(head.value) else []
  }

  predicate GroundAtom(a: Atom) { AtomVars(a) == [] }

  // ----- Renaming -----

  function RenameTerm(f: nat -> nat, t: Term): Term {
    match t
    case Var(i) => Var(f(i))
    case Const(_) => t
    case Skolem(k, arg) => Skolem(k, RenameTerm(f, arg))
  }

  function RenameAtom(f: nat -> nat, a: Atom): Atom {
    match a
    case ClassAtom(c, t) => ClassAtom(c, RenameTerm(f, t))
    case RoleAtom(r, s, t) => RoleAtom(r, RenameTerm(f, s), RenameTerm(f, t))
    case TopAtom(t) => TopAtom(RenameTerm(f, t))
    case EqAtom(s, t) => EqAtom(RenameTerm(f, s), RenameTerm(f, t))
    case NeqAtom(s, t) => NeqAtom(RenameTerm(f, s), RenameTerm(f, t))
    case BodyName(e, t) => BodyName(e, RenameTerm(f, t))
    case HeadName(e, t) => HeadName(e, RenameTerm(f, t))
  }

  function RenameBody(f: nat -> nat, body: seq<Atom>): (r: seq<Atom>)
    ensures |r| == |body|
  {
    if body == [] then [] else [RenameAtom(f, body[0])] + RenameBody(f, body[1..])
  }

  function RenameHead(f: nat -> nat, head: Option<Atom>): Option<Atom> {
    if head.Some? then Some(RenameAtom(f, head.value)) else None
  }

  // ----- Canonical names -----

  function IndexOf(names: seq<nat>, i: nat): (k: nat)
    ensures i in names ==> k < |names| && names[k] == i
    ensures i !in names ==> k == |names|
    ensures forall j | 0 <= j < k :: names[j] != i
  {
    if names == [] || names[0] == i then 0 else 1 + IndexOf(names[1..], i)
  }

  /** A rule-local name: variables are numbered from one in order of first occurrence. */
  function Numbering(names: seq<nat>): nat -> nat {
    (i: nat) => IndexOf(names, i) + 1
  }

  /** The variables of a rule, head first, without repeats. */
  function RuleNames(head: Option<Atom>, body: seq<Atom>): seq<nat> {
    Distinct(HeadVars(head) + BodyVars(body))
  }

  function Canonical(head: Option<Atom>, body: seq<Atom>): Rule {
    var f := Numbering(RuleNames(head, body));
    Rule(RenameHead(f, head), RenameBody(f, body))
  }

  // ----- Facts about renaming -----

  lemma {:induction false} RenameBodyAt(f: nat -> nat, body: seq<Atom>, i: nat)
    requires i < |body|
    ensures RenameBody(f, body)[i] == RenameAtom(f, body[i])
  {
    if i > 0 { RenameBodyAt(f, body[1..], i - 1); }
  }

  lemma {:induction false} BodyVarsMember(body: seq<Atom>, i: nat)
    ensures i in BodyVars(body) <==> exists a | a in body :: i in AtomVars(a)
  {
    if body != [] {
      BodyVarsMember(body[1..], i);
      assert body == [body[0]] + body[1..];
    }
  }

  lemma {:induction false} TermRenameCong(f: nat -> nat, g: nat -> nat, t: Term)
    requires forall i | i in TermVars(t) :: f(i) == g(i)
    ensures RenameTerm(f, t) == RenameTerm(g, t)
  {
    if t.Skolem? { TermRenameCong(f, g, t.arg); }
  }

  lemma AtomRenameCong(f: nat -> nat, g: nat -> nat, a: Atom)
    requires forall i | i in AtomVars(a) :: f(i) == g(i)
    ensures RenameAtom(f, a) == RenameAtom(g, a)
  {
    TermRenameCong(f, g, a.t);
    if a.RoleAtom? || a.EqAtom? || a.NeqAtom? { TermRenameCong(f, g, a.s); }
  }

  /** Renaming twice is renaming by the composition. */
  lemma {:induction false} TermRenameTwice(f: nat -> nat, g: nat -> nat, t: Term)
    ensures RenameTerm(f, RenameTerm(g, t)) == RenameTerm((i: nat) => f(g(i)), t)
  {
    if t.Skolem? { TermRenameTwice(f, g, t.arg); }
  }

  lemma AtomRenameTwice(f: nat -> nat, g: nat -> nat, a: Atom)
    ensures RenameAtom(f, RenameAtom(g, a)) == RenameAtom((i: nat) => f(g(i)), a)
  {
    TermRenameTwice(f, g, a.t);
    if a.RoleAtom? || a.EqAtom? || a.NeqAtom? { TermRenameTwice(f, g, a.s); }
  }
}
