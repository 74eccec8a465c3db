/** Publishing map revisions under a try-lock, with every interleaving of threads as steps of one machine. */
module MapPublication {
  import opened Options

  /** One activation of a method, and the spatial index of one map. A call made from inside another, by the same
      operating-system thread or not, is a thread of its own here: the lock does not know its owner. */
  type Thread = nat
  type Index = nat

  datatype Consistency = Consistent | Undetermined | Inconsistent

  datatype Reasoning = Reasoning(complete: bool, consistency: Consistency, token: nat)

  datatype Publication = Publication(map_: Index, reasoning: Reasoning)

  /** Where a thread is: in a transaction up to `Leaving`, or closing the runtime. */
  datatype Phase =
    | Idle
    | Starting
    | Locked
    | Entered(previous: Option<Publication>)
    | Rechecked(previous: Option<Publication>)
    | Validated(previous: Option<Publication>)
    | Unchanged(previous: Option<Publication>)
    | Built(previous: Option<Publication>, candidate: Index)
    | Reasoned(previous: Option<Publication>, next: Publication)
    | Ready(previous: Option<Publication>, next: Publication)
    | Raising(previous: Option<Publication>, abandoned: Option<Index>)
    | Marked(previous: Option<Publication>, abandoned: Option<Index>)
    | Leaving
    | Closing
    | IndexClosed

  datatype Building = BuildRaises | Same | New(index: Index)

  datatype Action =
    | Begin | TryLock | ReadSnapshot | Recheck
    | ValidatePrevious(ok: bool) | Build(result: Building) | Reason(result_: Option<Reasoning>) | ValidateNext(ok: bool)
    | Publish | KeepPrevious | MarkIncomplete | CloseCandidate(closes: bool) | Release
    | LockToClose | CloseIndex(closes: bool) | SetClosed
    // what a host may do to what it was given
    | MutateOntology(token: nat) | CloseOutside(index: Index)

  datatype State = State(
    published: Option<Publication>,
    complete: bool,
    closed: bool,
    lock: Option<Thread>,
    phases: map<Thread, Phase>,
    open: set<Index>,
    made: set<Index>,
    ever: set<Index>,
    mutated: set<nat>)

  function PhaseOf(s: State, t: Thread): Phase { if t in s.phases then s.phases[t] else Idle }

  function Go(s: State, t: Thread, p: Phase): State { s.(phases := s.phases[t := p]) }

  predicate Usable(s: State, p: Publication) { p.reasoning.token !in s.mutated && p.map_ in s.open }

  predicate Acceptable(r: Reasoning) { r.complete && r.consistency != Inconsistent }

  /** One step of one thread; no state when the thread is not at that step. An index counts as closed as soon as it
      is told to close, also when the call then raises. */
  function Next(s: State, t: Thread, a: Action): Option<State> {
    var at := PhaseOf(s, t);
    match a
    case Begin => if !at.Idle? then None else Some(if s.closed then s else Go(s, t, Starting))
    case TryLock =>
      if !at.Starting? then None else Some(if s.lock.Some? then Go(s, t, Idle) else Go(s.(lock := Some(t)), t, Locked))
    case ReadSnapshot => if !at.Locked? then None else Some(Go(s, t, Entered(s.published)))
    case Recheck =>
      if !at.Entered? then None else
        Some(Go(s, t, if s.closed then Raising(at.previous, None) else Rechecked(at.previous)))
    case ValidatePrevious(ok) =>
      if !at.Rechecked? then None
      else if at.previous.None? || (ok && Usable(s, at.previous.value)) then Some(Go(s, t, Validated(at.previous)))
      else Some(Go(s, t, Raising(at.previous, None)))
    case Build(b) => if !at.Validated? then None else NextBuilt(s, t, at.previous, b)
    case Reason(r) =>
      if !at.Built? then None
      else if r.Some? && Acceptable(r.value) then
        Some(Go(s, t, Reasoned(at.previous, Publication(at.candidate, r.value))))
      else Some(Go(s, t, Raising(at.previous, Some(at.candidate))))
    case ValidateNext(ok) =>
      if !at.Reasoned? then None
      else if ok && Usable(s, at.next) then Some(Go(s, t, Ready(at.previous, at.next)))
      else Some(Go(s, t, Raising(at.previous, Some(at.next.map_))))
    case Publish =>
      if !at.Ready? then None
      else Some(Go(s.(published := Some(at.next), complete := true, ever := s.ever + {at.next.map_}), t, Leaving))
    case KeepPrevious => if !at.Unchanged? then None else Some(Go(s.(complete := true), t, Leaving))
    case MarkIncomplete =>
      if !at.Raising? then None else Some(Go(s.(complete := false), t, Marked(at.previous, at.abandoned)))
    case CloseCandidate(_) =>
      if !at.Marked? then None
      else if at.abandoned.Some? && (at.previous.None? || at.abandoned.value != at.previous.value.map_)
        then Some(Go(s.(open := s.open - {at.abandoned.value}), t, Leaving))
      else Some(Go(s, t, Leaving))
    case Release => if !at.Leaving? then None else Some(Go(s.(lock := None), t, Idle))
    case LockToClose =>
      if !at.Idle? then None else Some(if s.lock.Some? then s else Go(s.(lock := Some(t)), t, Closing))
    case CloseIndex(closes) =>
      if !at.Closing? then None
      else if s.published.None? then Some(Go(s, t, IndexClosed))
      else Some(Go(s.(open := s.open - {s.published.value.map_}), t, if closes then IndexClosed else Leaving))
    case SetClosed => if !at.IndexClosed? then None else Some(Go(s.(closed := true), t, Leaving))
    case MutateOntology(token) => Some(s.(mutated := s.mutated + {token}))
    case CloseOutside(i) => Some(s.(open := s.open - {i}))
  }

  /** The store answers with what is published already, or with a map that has an index of its own. */
  function NextBuilt(s: State, t: Thread, previous: Option<Publication>, b: Building): Option<State> {
    match b
    case BuildRaises => Some(Go(s, t, Raising(previous, None)))
    case Same => if previous.Some? then Some(Go(s, t, Unchanged(previous))) else None
    case New(i) =>
      if i in s.made then None else Some(Go(s.(made := s.made + {i}, open := s.open + {i}), t, Built(previous, i)))
  }

  const INITIAL := State(None, false, false, None, map[], {}, {}, {}, {})

  // ----- The invariant -----

  predicate Holding(p: Phase) { !p.Idle? && !p.Starting? }

  /** The re-check has passed and the transaction may still publish. */
  predicate Working(p: Phase) { p.Rechecked? || p.Validated? || p.Unchanged? || p.Built? || p.Reasoned? || p.Ready? }

  /** The map that the thread made and has neither published nor abandoned. */
  function InHand(p: Phase): Option<Index> {
    match p
    case Built(_, i) => Some(i)
    case Reasoned(_, n) => Some(n.map_)
    case Ready(_, n) => Some(n.map_)
    case Raising(_, c) => c
    case Marked(_, c) => c
    case _ => None
  }

  predicate Remembers(p: Phase) { Working(p) || p.Entered? || p.Raising? || p.Marked? }

  ghost predicate PhaseSound(s: State, p: Phase) {
    && (Remembers(p) ==> p.previous == s.published)
    && (s.closed ==> !Working(p))
    && (InHand(p).Some? ==> InHand(p).value in s.made && InHand(p).value !in s.ever)
    && (p.Reasoned? || p.Ready? ==> Acceptable(p.next.reasoning))
    && (p.Unchanged? ==> p.previous.Some?)
  }

  ghost predicate OneHolder(s: State) { forall t: Thread :: Holding(PhaseOf(s, t)) <==> s.lock == Some(t) }

  ghost predicate Inv(s: State) {
    && OneHolder(s)
    && (forall t: Thread :: PhaseSound(s, PhaseOf(s, t)))
    && (forall i | i in s.made && i in s.open && i !in s.ever ::
      s.lock.Some? && InHand(PhaseOf(s, s.lock.value)) == Some(i))
    && (s.published.Some? ==> s.published.value.map_ in s.ever && Acceptable(s.published.value.reasoning))
    && (s.complete ==> s.published.Some?)
    && s.open <= s.made && s.ever <= s.made
  }

  lemma InitialInv()
    ensures Inv(INITIAL)
  {
  }

  lemma OthersStay(s: State, t: Thread, a: Action, u: Thread)
    requires Next(s, t, a).Some? && u != t
    ensures PhaseOf(Next(s, t, a).value, u) == PhaseOf(s, u)
  {
  }

  lemma StepHolder(s: State, t: Thread, a: Action)
    requires OneHolder(s) && Next(s, t, a).Some?
    ensures OneHolder(Next(s, t, a).value)
  {
    var n := Next(s, t, a).value;
    assert Holding(PhaseOf(s, t)) <==> s.lock == Some(t);
    assert n.lock == s.lock || n.lock == Some(t) || (n.lock == None && s.lock == Some(t));
    assert s.lock.Some? && s.lock != Some(t) ==> n.lock == s.lock;
    assert Holding(PhaseOf(n, t)) <==> n.lock == Some(t);
    forall u: Thread ensures Holding(PhaseOf(n, u)) <==> n.lock == Some(u) {
      assert Holding(PhaseOf(s, u)) <==> s.lock == Some(u);
      if u != t { OthersStay(s, t, a, u); }
      hide Next;
    }
  }

  lemma HolderHolds(s: State, t: Thread)
    requires Inv(s)
    ensures Holding(PhaseOf(s, t)) <==> s.lock == Some(t)
    ensures PhaseSound(s, PhaseOf(s, t))
  {
  }

  lemma MoverSound(s: State, t: Thread, a: Action)
    requires Inv(s) && Next(s, t, a).Some?
    ensures PhaseSound(Next(s, t, a).value, PhaseOf(Next(s, t, a).value, t))
  {
    hide Usable;
    hide Acceptable;
    hide OneHolder;
    HolderHolds(s, t);
    hide Inv;
    assert PhaseSound(s, PhaseOf(s, t));
    assert Holding(PhaseOf(s, t)) <==> s.lock == Some(t);
  }

  lemma OtherSound(s: State, t: Thread, a: Action, u: Thread)
    requires Inv(s) && Next(s, t, a).Some? && u != t
    ensures PhaseSound(Next(s, t, a).value, PhaseOf(Next(s, t, a).value, u))
  {
    OthersStay(s, t, a, u);
    assert PhaseSound(s, PhaseOf(s, u));
    assert Holding(PhaseOf(s, u)) <==> s.lock == Some(u);
    assert Holding(PhaseOf(s, t)) <==> s.lock == Some(t);
    if Holding(PhaseOf(s, u)) {
      BystanderKeeps(s, t, a);
    }
    hide Next;
  }

  /** A step by a thread outside, while another is inside, touches nothing the invariant speaks of but closed
      indexes. */
  lemma BystanderKeeps(s: State, t: Thread, a: Action)
    requires !Holding(PhaseOf(s, t)) && s.lock.Some? && Next(s, t, a).Some?
    ensures var n := Next(s, t, a).value;
      n.published == s.published && n.closed == s.closed && n.made == s.made && n.ever == s.ever && n.lock == s.lock &&
        n.open <= s.open
  {
  }

  lemma StepIndexes(s: State, t: Thread, a: Action)
    requires Inv(s) && Next(s, t, a).Some?
    ensures var n := Next(s, t, a).value;
      forall i | i in n.made && i in n.open && i !in n.ever ::
        n.lock.Some? && InHand(PhaseOf(n, n.lock.value)) == Some(i)
  {
    var n := Next(s, t, a).value;
    assert PhaseSound(s, PhaseOf(s, t));
    assert Holding(PhaseOf(s, t)) <==> s.lock == Some(t);
    if s.lock.Some? && s.lock != Some(t) {
      OthersStay(s, t, a, s.lock.value);
      BystanderKeeps(s, t, a);
      hide Next;
    }
  }

  lemma StepRest(s: State, t: Thread, a: Action)
    requires Inv(s) && Next(s, t, a).Some?
    ensures var n := Next(s, t, a).value;
      && (n.published.Some? ==> n.published.value.map_ in n.ever && Acceptable(n.published.value.reasoning))
      && (n.complete ==> n.published.Some?)
      && n.open <= n.made && n.ever <= n.made
  {
    assert PhaseSound(s, PhaseOf(s, t));
  }

  lemma StepInv(s: State, t: Thread, a: Action)
    requires Inv(s) && Next(s, t, a).Some?
    ensures Inv(Next(s, t, a).value)
  {
    hide Next;
    hide PhaseSound;
    StepHolder(s, t, a);
    MoverSound(s, t, a);
    forall u: Thread ensures PhaseSound(Next(s, t, a).value, PhaseOf(Next(s, t, a).value, u)) {
      if u != t { OtherSound(s, t, a, u); }
    }
    StepIndexes(s, t, a);
    StepRest(s, t, a);
  }

  /** What one step does to the publication, to closing, and to the indexes. */
  lemma StepSafe(s: State, t: Thread, a: Action)
    requires Inv(s) && Next(s, t, a).Some?
    ensures var n := Next(s, t, a).value;
      && (n.published != s.published ==>
        a.Publish? && !s.closed && PhaseOf(s, t).Ready? && n.published == Some(PhaseOf(s, t).next))
      && (s.closed ==> n.closed && n.published == s.published)
      && (forall i | i in s.ever && i in s.open && i !in n.open ::
            a == CloseOutside(i) || (a.CloseIndex? && s.published.Some? && s.published.value.map_ == i))
  {
  }

  /** A thread is ready to publish only after validating what it made, while the index was open and the ontology
      untouched. */
  lemma ReadyValidated(s: State, t: Thread, a: Action, u: Thread)
    requires Next(s, t, a).Some? && PhaseOf(Next(s, t, a).value, u).Ready?
    requires PhaseOf(s, u) != PhaseOf(Next(s, t, a).value, u)
    ensures u == t && a == ValidateNext(true) && Usable(s, PhaseOf(Next(s, t, a).value, u).next)
  {
  }

  // ----- Runs -----

  datatype Move = Move(thread: Thread, action: Action)

  /** States reached from the first one, one step of some thread at a time. */
  ghost predicate Run(states: seq<State>, moves: seq<Move>) {
    && |states| == |moves| + 1
    && forall i | 0 <= i < |moves| :: Next(states[i], moves[i].thread, moves[i].action) == Some(states[i + 1])
  }

  lemma RunStep(states: seq<State>, moves: seq<Move>, i: nat)
    requires Run(states, moves) && i < |moves|
    ensures Next(states[i], moves[i].thread, moves[i].action) == Some(states[i + 1])
  {
  }

  lemma {:induction false} RunInv(states: seq<State>, moves: seq<Move>, k: nat)
    requires Run(states, moves) && Inv(states[0]) && k < |states|
    ensures Inv(states[k])
    decreases k
  {
    hide Next;
    if k > 0 {
      RunInv(states, moves, k - 1);
      RunStep(states, moves, k - 1);
      StepInv(states[k - 1], moves[k - 1].thread, moves[k - 1].action);
    }
  }

  /** At most one thread is inside, whatever the interleaving. */
  lemma OneInside(states: seq<State>, moves: seq<Move>, k: nat, t: Thread, u: Thread)
    requires Run(states, moves) && Inv(states[0]) && k < |states|
    requires Holding(PhaseOf(states[k], t)) && Holding(PhaseOf(states[k], u))
    ensures t == u
  {
    hide Next;
    RunInv(states, moves, k);
  }

  /** Once the runtime is closed it stays closed, and its publication is final. */
  lemma {:induction false} NothingAfterClose(states: seq<State>, moves: seq<Move>, j: nat, k: nat)
    requires Run(states, moves) && Inv(states[0]) && j <= k < |states| && states[j].closed
    ensures states[k].closed && states[k].published == states[j].published
    decreases k
  {
    hide Next;
    if j < k {
      NothingAfterClose(states, moves, j, k - 1);
      RunInv(states, moves, k - 1);
      RunStep(states, moves, k - 1);
      StepSafe(states[k - 1], moves[k - 1].thread, moves[k - 1].action);
    }
  }

  /** Every publication of a run is of a complete reasoner that found no inconsistency. */
  lemma PublishedAcceptable(states: seq<State>, moves: seq<Move>, k: nat)
    requires Run(states, moves) && Inv(states[0]) && k < |states|
    ensures states[k].published.Some? ==>
      var found := states[k].published.value.reasoning; found.complete && found.consistency != Inconsistent
    ensures states[k].complete ==> states[k].published.Some?
  {
    RunInv(states, moves, k);
  }

  /** With nobody inside, every map that was made and never published has been closed. */
  lemma AbandonedClosed(states: seq<State>, moves: seq<Move>, k: nat)
    requires Run(states, moves) && Inv(states[0]) && k < |states| && states[k].lock.None?
    ensures forall i | i in states[k].made && i !in states[k].ever :: i !in states[k].open
  {
    RunInv(states, moves, k);
  }

  /** While a thread is inside nobody else publishes: what it publishes replaces what it read, and if it raises nothing
      has changed. */
  lemma {:induction false} HolderAlonePublishes(states: seq<State>, moves: seq<Move>, j: nat, k: nat, t: Thread)
    requires Run(states, moves) && Inv(states[0]) && j <= k < |states|
    requires forall i | j <= i <= k :: states[i].lock == Some(t)
    requires forall i | j <= i < k :: moves[i] != Move(t, Publish)
    ensures states[k].published == states[j].published
    decreases k
  {
    hide Next;
    if j < k {
      HolderAlonePublishes(states, moves, j, k - 1, t);
      RunInv(states, moves, k - 1);
      RunStep(states, moves, k - 1);
      var m := moves[k - 1];
      StepSafe(states[k - 1], m.thread, m.action);
      assert Holding(PhaseOf(states[k - 1], m.thread)) <==> states[k - 1].lock == Some(m.thread);
      assert m != Move(t, Publish);
    }
  }

  /** Whatever is published was validated before, while its index was open and its ontology untouched. */
  lemma {:induction false} PublishedWasValidated(states: seq<State>, moves: seq<Move>, k: nat, t: Thread)
    requires Run(states, moves) && states[0] == INITIAL && k < |states| && PhaseOf(states[k], t).Ready?
    ensures exists i | 0 <= i < k ::
      && moves[i] == Move(t, ValidateNext(true))
      && PhaseOf(states[k], t).next.map_ in states[i].open
      && PhaseOf(states[k], t).next.reasoning.token !in states[i].mutated
    decreases k
  {
    hide Next;
    assert k > 0;
    RunStep(states, moves, k - 1);
    var m := moves[k - 1];
    if PhaseOf(states[k - 1], t) == PhaseOf(states[k], t) {
      PublishedWasValidated(states, moves, k - 1, t);
    } else {
      ReadyValidated(states[k - 1], m.thread, m.action, t);
    }
  }
}
