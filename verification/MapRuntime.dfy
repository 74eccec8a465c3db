/** The runtime's own methods, each a run of the publication machine by one thread. */
module MapRuntime {
  import opened Options
  import opened MapPublication

  datatype Outcome = Published(publication: Publication) | Kept(publication: Publication) | Refused | Failed

  /** What the parts outside the runtime do during one transaction. */
  datatype Work = Work(previousOk: bool, building: Building, reasoning: Option<Reasoning>, nextOk: bool,
    candidateCloses: bool)

  class MapRuntime {
    var snapshot: Option<Publication>
    var complete: bool
    var closed: bool
    var lock: Option<Thread>
    var open: set<Index>
    var made: set<Index>
    var mutated: set<nat>
    ghost var history: seq<State>
    ghost var moves: seq<Move>

    ghost function Machine(): State reads this`history requires history != [] { history[|history| - 1] }

    /** The fields are the last state of a run from the start. */
    ghost predicate Valid() reads this {
      && Run(history, moves) && history[0] == INITIAL
      && Machine() == State(snapshot, complete, closed, lock, Machine().phases, open, made, Machine().ever, mutated)
    }

    ghost predicate At(t: Thread, p: Phase) reads this { Valid() && PhaseOf(Machine(), t) == p }

    constructor ()
      ensures Valid() && Machine() == INITIAL
    {
      snapshot, complete, closed, lock, open, made, mutated := None, false, false, None, {}, {}, {};
      history, moves := [INITIAL], [];
    }

    /** One more step of the run. */
    ghost method Advance(t: Thread, a: Action)
      requires Run(history, moves) && history[0] == INITIAL && Next(Machine(), t, a).Some?
      modifies this`history, this`moves
      ensures Run(history, moves) && history[0] == INITIAL && Machine() == Next(old(Machine()), t, a).value
    {
      var n := Next(Machine(), t, a).value;
      history, moves := history + [n], moves + [Move(t, a)];
      hide Next;
    }

    predicate Sound(p: Publication) reads this { p.reasoning.token !in mutated && p.map_ in open }

    /** The first look at `closed`, and the try-lock. */
    method Enter(t: Thread) returns (ok: bool)
      requires At(t, Idle)
      modifies this
      ensures ok <==> !old(closed) && old(lock).None?
      ensures if ok then At(t, Entered(snapshot)) && lock == Some(t) else At(t, Idle) && lock == old(lock)
      ensures closed == old(closed) && snapshot == old(snapshot) && complete == old(complete)
      ensures open == old(open) && made == old(made) && mutated == old(mutated)
    {
      hide Run;
      Advance(t, Begin);
      if closed { return false; }
      Advance(t, TryLock);
      if lock.Some? { return false; }
      lock := Some(t);
      Advance(t, ReadSnapshot);
      ok := true;
    }

    /** The second look at `closed`, and the check of what is published. */
    method CheckPrevious(t: Thread, previous: Option<Publication>, ok: bool) returns (r: bool)
      requires At(t, Entered(previous))
      modifies this
      ensures At(t, if r then Validated(previous) else Raising(previous, None))
      ensures closed == old(closed) && lock == old(lock) && snapshot == old(snapshot) && complete == old(complete)
      ensures open == old(open) && made == old(made) && mutated == old(mutated)
      ensures r <==> !closed && (previous.Some? ==>
        ok && previous.value.reasoning.token !in mutated && previous.value.map_ in open)
    {
      hide Run;
      Advance(t, Recheck);
      if closed { return false; }
      Advance(t, ValidatePrevious(ok));
      r := previous.None? || (ok && Sound(previous.value));
    }

    /** Reasons over a new map and publishes it, or raises. */
    method ReasonAndPublish(t: Thread, previous: Option<Publication>, i: Index, reasoning: Option<Reasoning>, ok: bool)
      returns (r: Option<Publication>)
      requires At(t, Built(previous, i))
      modifies this
      ensures closed == old(closed) && lock == old(lock) && open == old(open) && made == old(made)
      ensures mutated == old(mutated)
      ensures r.Some? <==>
        && reasoning.Some? && reasoning.value.complete && reasoning.value.consistency != Inconsistent
        && ok && reasoning.value.token !in mutated && i in open
      ensures r.Some? ==> At(t, Leaving) && snapshot == r && complete && r == Some(Publication(i, reasoning.value))
      ensures r.None? ==> At(t, Raising(previous, Some(i))) && snapshot == old(snapshot)
    {
      hide Run;
      Advance(t, Reason(reasoning));
      if reasoning.None? || !Acceptable(reasoning.value) { return None; }
      var publication := Publication(i, reasoning.value);
      Advance(t, ValidateNext(ok));
      if !(ok && Sound(publication)) { return None; }
      snapshot, complete := Some(publication), true;
      Advance(t, Publish);
      r := Some(publication);
    }

    /** The guarded part of a transaction: publishes, keeps, or raises with the map it had made. */
    method Attempt(t: Thread, previous: Option<Publication>, work: Work)
      returns (r: Option<Outcome>, candidate: Option<Index>)
      requires At(t, Entered(previous)) && previous == snapshot
      requires work.building.New? ==> work.building.index !in made
      requires work.building.Same? ==> previous.Some?
      modifies this
      ensures lock == old(lock) && closed == old(closed)
      ensures r.Some? && r.value.Published? <==>
        && !closed && (previous.Some? ==>
             work.previousOk && previous.value.reasoning.token !in old(mutated) && previous.value.map_ in old(open))
        && work.building.New? && work.reasoning.Some? && work.reasoning.value.complete
        && work.reasoning.value.consistency != Inconsistent
        && work.nextOk && work.reasoning.value.token !in old(mutated)
      ensures r.Some? && r.value.Published? ==>
        r.value.publication == Publication(work.building.index, work.reasoning.value)
      ensures r.Some? && r.value.Published? ==> open == old(open) + {work.building.index}
      ensures r.Some? && r.value.Kept? <==>
        && !closed && previous.Some? && work.previousOk && previous.value.reasoning.token !in old(mutated)
        && previous.value.map_ in old(open) && work.building.Same?
      ensures r.Some? && r.value.Kept? ==> open == old(open)
      ensures mutated == old(mutated)
      ensures r.None? ==> At(t, Raising(previous, candidate)) && snapshot == old(snapshot)
      ensures r.Some? ==> At(t, Leaving) && complete && (r.value.Published? || r.value.Kept?)
      ensures r.Some? && r.value.Published? ==>
        snapshot == Some(r.value.publication) && r.value.publication.map_ !in old(made)
      ensures r.Some? && r.value.Kept? ==> snapshot == old(snapshot) == Some(r.value.publication)
      ensures candidate.Some? ==> candidate.value !in old(made)
      ensures r.None? ==> open == old(open) + (if candidate.Some? then {candidate.value} else {})
    {
      hide Run;
      hide Next;
      hide Valid;
      var checked := CheckPrevious(t, previous, work.previousOk);
      if !checked { return None, None; }
      match work.building {
        case BuildRaises =>
          BuildFails(t, previous);
          return None, None;
        case Same =>
          Keep(t, previous);
          return Some(Kept(previous.value)), None;
        case New(i) =>
          Make(t, previous, i);
          var published := ReasonAndPublish(t, previous, i, work.reasoning, work.nextOk);
          return if published.Some? then Some(Published(published.value)) else None, Some(i);
      }
    }

    ghost method BuildFails(t: Thread, previous: Option<Publication>)
      requires At(t, Validated(previous))
      modifies this`history, this`moves
      ensures At(t, Raising(previous, None))
    {
      hide Run;
      Advance(t, Build(BuildRaises));
    }

    method Keep(t: Thread, previous: Option<Publication>)
      requires At(t, Validated(previous)) && previous.Some?
      modifies this`complete, this`history, this`moves
      ensures At(t, Leaving) && complete
    {
      hide Run;
      Advance(t, Build(Same));
      complete := true;
      Advance(t, KeepPrevious);
    }

    method Make(t: Thread, previous: Option<Publication>, i: Index)
      requires At(t, Validated(previous)) && i !in made
      modifies this`open, this`made, this`history, this`moves
      ensures At(t, Built(previous, i)) && open == old(open) + {i} && made == old(made) + {i}
    {
      hide Run;
      open, made := open + {i}, made + {i};
      Advance(t, Build(New(i)));
    }

    /** The handler: marks the runtime incomplete and closes a map that was made but not published. */
    method Abandon(t: Thread, previous: Option<Publication>, candidate: Option<Index>, closes: bool)
      requires At(t, Raising(previous, candidate))
      modifies this
      ensures At(t, Leaving) && !complete && snapshot == old(snapshot) && lock == old(lock) && closed == old(closed)
      ensures mutated == old(mutated)
      ensures open == if candidate.Some? && (previous.None? || candidate.value != previous.value.map_) then
        old(open) - {candidate.value} else old(open)
    {
      hide Run;
      complete := false;
      Advance(t, MarkIncomplete);
      if candidate.Some? && (previous.None? || candidate.value != previous.value.map_) {
        open := open - {candidate.value};
      }
      Advance(t, CloseCandidate(closes));
    }

    method Unlock(t: Thread)
      requires At(t, Leaving)
      modifies this
      ensures At(t, Idle) && lock == None && closed == old(closed) && snapshot == old(snapshot)
      ensures complete == old(complete) && open == old(open) && mutated == old(mutated)
    {
      hide Run;
      lock := None;
      Advance(t, Release);
    }

    lemma IndexesMade()
      requires Valid()
      ensures open <= made
      ensures snapshot.Some? ==> snapshot.value.map_ in made
    {
      InitialInv();
      RunInv(history, moves, |history| - 1);
      hide Next;
      hide Run;
    }

    /** One update, by a thread that is not inside; only a published outcome moves the snapshot. */
    method Transaction(t: Thread, work: Work) returns (r: Outcome)
      requires At(t, Idle)
      requires work.building.New? ==> work.building.index !in made
      requires work.building.Same? ==> snapshot.Some?
      modifies this
      ensures At(t, Idle) && lock == old(lock) && closed == old(closed)
      ensures r.Refused? <==> old(closed) || old(lock).Some?
      ensures r.Published? <==>
        && !old(closed) && old(lock).None?
        && (old(snapshot).Some? ==>
              && work.previousOk && old(snapshot).value.reasoning.token !in old(mutated)
              && old(snapshot).value.map_ in old(open))
        && work.building.New? && work.reasoning.Some? && work.reasoning.value.complete
        && work.reasoning.value.consistency != Inconsistent
        && work.nextOk && work.reasoning.value.token !in old(mutated)
      ensures r.Published? ==> r == Published(Publication(work.building.index, work.reasoning.value))
      ensures r.Published? ==> open == old(open) + {work.building.index}
      ensures r.Kept? <==>
        && !old(closed) && old(lock).None? && old(snapshot).Some? && work.previousOk
        && old(snapshot).value.reasoning.token !in old(mutated) && old(snapshot).value.map_ in old(open)
        && work.building.Same?
      ensures r.Kept? ==> open == old(open)
      ensures mutated == old(mutated)
      ensures r.Refused? ==> snapshot == old(snapshot) && complete == old(complete) && open == old(open)
      ensures r.Failed? ==> snapshot == old(snapshot) && !complete && open == old(open)
      ensures r.Published? ==> snapshot == Some(r.publication) && complete && r.publication.map_ !in old(made)
      ensures r.Kept? ==> snapshot == old(snapshot) == Some(r.publication) && complete
    {
      IndexesMade();
      hide Run;
      hide Next;
      hide Valid;
      var entered := Enter(t);
      if !entered { return Refused; }
      var previous := snapshot;
      var outcome, candidate := Attempt(t, previous, work);
      if outcome.None? { Abandon(t, previous, candidate, work.candidateCloses); }
      Unlock(t);
      r := if outcome.Some? then outcome.value else Failed;
    }

    /** Closes the published map's index and then the runtime; when the index fails to close, it counts as closed and
        the runtime stays open. */
    method Close(t: Thread, indexCloses: bool) returns (ok: bool)
      requires At(t, Idle)
      modifies this
      ensures At(t, Idle) && lock == old(lock) && snapshot == old(snapshot) && complete == old(complete)
      ensures ok <==> old(lock).None? && (snapshot.Some? ==> indexCloses)
      ensures closed == (ok || old(closed))
      ensures open == if old(lock).None? && snapshot.Some? then old(open) - {snapshot.value.map_} else old(open)
    {
      hide Run;
      Advance(t, LockToClose);
      if lock.Some? { return false; }
      lock := Some(t);
      hide Next;
      ok := CloseHeld(t, indexCloses);
      Unlock(t);
    }

    method CloseHeld(t: Thread, indexCloses: bool) returns (ok: bool)
      requires At(t, Closing)
      modifies this
      ensures At(t, Leaving) && lock == old(lock) && snapshot == old(snapshot) && complete == old(complete)
      ensures ok <==> snapshot.Some? ==> indexCloses
      ensures closed == (ok || old(closed))
      ensures open == if snapshot.Some? then old(open) - {snapshot.value.map_} else old(open)
    {
      hide Run;
      if snapshot.Some? { open := open - {snapshot.value.map_}; }
      Advance(t, CloseIndex(indexCloses));
      ok := snapshot.None? || indexCloses;
      if ok {
        closed := true;
        Advance(t, SetClosed);
      }
    }
  }
}
