/** What a host can observe of the geometry provider, over any run of its operations. */
module GeometryRuns {
  import opened Options
  import opened Expressions
  import opened NativeHandles
  import opened Decimals
  import opened GeometryTables

  // ----- Tokens -----

  function Token(revision: string, generation: nat): string { Labelled(revision, ':', generation) }

  /** Whatever text the host chose as revision, the token tells revision and generation apart. */
  lemma TokenInjective(r: string, g: nat, r': string, g': nat)
    requires Token(r, g) == Token(r', g')
    ensures r == r' && g == g'
  {
    LabelledInjective(r, g, r', g', ':');
  }

  // ----- States and events -----

  /** What the provider shows. */
  datatype State = State(open: bool, table: Table, bytes: int, generation: nat, revision: string)

  /** What it shows, together with the handles given back so far, in order. */
  datatype Moment = Moment(state: State, destroyed: seq<Handle>)

  /** What one call came to; `spent` are handles issued and given back within it. */
  datatype Event =
    | Refused(spent: seq<Handle>)
    | Entered(id: string, entry: Entry, revision: Option<string>, spent: seq<Handle>)
    | Dropped(id: string, revision: Option<string>)
    | Shut(order: seq<Handle>)

  function Revised(revision: string, other: Option<string>): string { if other.Some? then other.value else revision }

  function SizeOf(t: Table, id: string): nat { if id in t then t[id].size else 0 }

  /** A record's preparation goes before its geometry. */
  function OwnOrder(t: Table, id: string): seq<Handle> { if id in t then [t[id].prepared, t[id].geometry] else [] }

  /** Handles that the library has not issued before. */
  ghost predicate Fresh(m: Moment, handles: seq<Handle>) {
    NoRepeats(handles) && forall h | h in handles :: h !in m.destroyed && h !in Handles(m.state.table)
  }

  ghost predicate Allowed(m: Moment, e: Event) {
    match e
    case Refused(spent) => Fresh(m, spent)
    case Entered(_, entry, _, spent) =>
      && m.state.open && Fresh(m, spent + [entry.geometry, entry.prepared])
      && entry.geometry.Geometry? && entry.prepared.Prepared? && entry.prepared.base == entry.geometry.id
    case Dropped(_, _) => m.state.open
    case Shut(order) => NoRepeats(order) && forall h :: h in order <==> h in Handles(m.state.table)
  }

  function Next(m: Moment, e: Event): Moment {
    var s := m.state;
    match e
    case Refused(spent) => m.(destroyed := m.destroyed + spent)
    case Entered(id, entry, revision, spent) =>
      Moment(
        State(s.open, s.table[id := entry], s.bytes - SizeOf(s.table, id) + entry.size, s.generation + 1,
              Revised(s.revision, revision)),
        m.destroyed + spent + OwnOrder(s.table, id))
    case Dropped(id, revision) =>
      Moment(
        State(s.open, s.table - {id}, s.bytes - SizeOf(s.table, id), s.generation + (if id in s.table then 1 else 0),
              Revised(s.revision, revision)),
        m.destroyed + OwnOrder(s.table, id))
    case Shut(order) => Moment(s.(open := false, table := map[]), m.destroyed + order)
  }

  /** One moment after another, each by one call. */
  ghost predicate Run(moments: seq<Moment>, events: seq<Event>) {
    && |moments| == |events| + 1
    && forall i | 0 <= i < |events| :: Allowed(moments[i], events[i]) && moments[i + 1] == Next(moments[i], events[i])
  }

  lemma RunStep(moments: seq<Moment>, events: seq<Event>, i: nat)
    requires Run(moments, events) && i < |events|
    ensures Allowed(moments[i], events[i]) && moments[i + 1] == Next(moments[i], events[i])
  {
  }

  // ----- Snapshots -----

  /** Closing is final, and an open table changes only with its generation. */
  ghost predicate Later(s: State, t: State) {
    && s.generation <= t.generation && (t.open ==> s.open)
    && (t.open && t.generation == s.generation ==> t.table == s.table && t.bytes == s.bytes)
  }

  lemma StepLater(m: Moment, e: Event)
    requires Allowed(m, e)
    ensures Later(m.state, Next(m, e).state)
  {
    hide Allowed;
    if e.Dropped? && e.id !in m.state.table { NothingRemoved(m.state.table, e.id); }
  }

  lemma {:induction false} RunLater(moments: seq<Moment>, events: seq<Event>, i: nat, j: nat)
    requires Run(moments, events) && i <= j < |moments|
    ensures Later(moments[i].state, moments[j].state)
    decreases j
  {
    if i < j {
      RunLater(moments, events, i, j - 1);
      RunStep(moments, events, j - 1);
      StepLater(moments[j - 1], events[j - 1]);
    }
  }

  /** Equal snapshots in one run were taken of the same table. */
  lemma EqualSnapshotsSameTable(moments: seq<Moment>, events: seq<Event>, i: nat, j: nat)
    requires Run(moments, events) && i <= j < |moments| && moments[j].state.open
    requires Token(moments[i].state.revision, moments[i].state.generation)
          == Token(moments[j].state.revision, moments[j].state.generation)
    ensures moments[i].state.table == moments[j].state.table
  {
    var s, t := moments[i].state, moments[j].state;
    TokenInjective(s.revision, s.generation, t.revision, t.generation);
    RunLater(moments, events, i, j);
  }

  // ----- Handles -----

  /** Nothing was given back twice, and nothing the table owns was given back. */
  ghost predicate Accounted(m: Moment) {
    && Owned(m.state.table) && NoRepeats(m.destroyed)
    && forall h | h in m.destroyed :: h !in Handles(m.state.table)
  }

  lemma AppendDistinct(a: seq<Handle>, b: seq<Handle>)
    requires NoRepeats(a) && NoRepeats(b) && forall h | h in b :: h !in a
    ensures NoRepeats(a + b)
  {
    forall i, j | 0 <= i < j < |a + b| ensures (a + b)[i] != (a + b)[j] {
      if i < |a| <= j { assert b[j - |a|] in b && a[i] in a; }
    }
  }

  lemma PartsDistinct(a: seq<Handle>, b: seq<Handle>)
    requires NoRepeats(a + b)
    ensures NoRepeats(a) && NoRepeats(b) && forall h | h in b :: h !in a
  {
    var c := a + b;
    forall i, j | 0 <= i < j < |a| ensures a[i] != a[j] { assert c[i] != c[j]; }
    forall i, j | 0 <= i < j < |b| ensures b[i] != b[j] { assert c[|a| + i] != c[|a| + j]; }
    forall h | h in b ensures h !in a {
      var j :| 0 <= j < |b| && b[j] == h;
      forall i | 0 <= i < |a| ensures a[i] != h { assert c[i] != c[|a| + j]; }
    }
  }

  lemma OwnOrderIs(t: Table, id: string)
    requires Owned(t)
    ensures NoRepeats(OwnOrder(t, id)) && (forall h :: h in OwnOrder(t, id) <==> h in Own(t, id))
    ensures Own(t, id) <= Handles(t)
  {
    OwnHandles(t, id);
  }

  lemma EnteredAccounted(m: Moment, e: Event)
    requires Accounted(m) && e.Entered? && Allowed(m, e)
    ensures Accounted(Next(m, e))
    ensures Handles(m.state.table) <= Handles(Next(m, e).state.table) + Own(m.state.table, e.id)
  {
    var t := m.state.table;
    PartsDistinct(e.spent, [e.entry.geometry, e.entry.prepared]);
    EntryFresh(m, e);
    Replaced(t, e.id, e.entry);
    OwnOrderIs(t, e.id);
    hide Handles;
    hide Owned;
    hide Own;
    hide OwnOrder;
    hide NoRepeats;
    AppendDistinct(m.destroyed, e.spent);
    AppendDistinct(m.destroyed + e.spent, OwnOrder(t, e.id));
  }

  lemma EntryFresh(m: Moment, e: Event)
    requires e.Entered? && Allowed(m, e)
    ensures e.entry.geometry !in Handles(m.state.table) && e.entry.prepared !in Handles(m.state.table)
    ensures e.entry.geometry !in m.destroyed && e.entry.prepared !in m.destroyed
    ensures forall h | h in e.spent :: h !in m.destroyed && h !in Handles(m.state.table)
    ensures e.entry.geometry !in e.spent && e.entry.prepared !in e.spent
  {
    var pair := [e.entry.geometry, e.entry.prepared];
    PartsDistinct(e.spent, pair);
    assert pair[0] in e.spent + pair && pair[1] in e.spent + pair && pair[0] in pair && pair[1] in pair;
    hide Handles;
    hide NoRepeats;
  }

  lemma DroppedAccounted(m: Moment, e: Event)
    requires Accounted(m) && e.Dropped? && Allowed(m, e)
    ensures Accounted(Next(m, e))
    ensures Handles(m.state.table) <= Handles(Next(m, e).state.table) + Own(m.state.table, e.id)
  {
    var t := m.state.table;
    if e.id in t { Removed(t, e.id); } else { NothingRemoved(t, e.id); }
    OwnOrderIs(t, e.id);
    hide Handles;
    hide Owned;
    hide OwnOrder;
    hide NoRepeats;
    AppendDistinct(m.destroyed, OwnOrder(t, e.id));
  }

  lemma StepAccounted(m: Moment, e: Event)
    requires Accounted(m) && Allowed(m, e)
    ensures Accounted(Next(m, e)) && m.destroyed <= Next(m, e).destroyed
    ensures forall h | h in Handles(m.state.table) :: h in Handles(Next(m, e).state.table) || h in Next(m, e).destroyed
  {
    match e
    case Refused(spent) => AppendDistinct(m.destroyed, spent);
    case Entered(id, _, _, _) =>
      EnteredAccounted(m, e);
      OwnOrderIs(m.state.table, id);
      hide Handles;
      hide Accounted;
    case Dropped(id, _) =>
      DroppedAccounted(m, e);
      OwnOrderIs(m.state.table, id);
      hide Handles;
      hide Accounted;
    case Shut(order) =>
      NothingOwned();
      hide Handles;
      AppendDistinct(m.destroyed, order);
  }

  lemma {:induction false} RunAccounted(moments: seq<Moment>, events: seq<Event>, j: nat)
    requires Run(moments, events) && Accounted(moments[0]) && j < |moments|
    ensures Accounted(moments[j])
    decreases j
  {
    if j > 0 {
      RunAccounted(moments, events, j - 1);
      RunStep(moments, events, j - 1);
      StepAccounted(moments[j - 1], events[j - 1]);
    }
  }

  lemma {:induction false} RunGivesBack(moments: seq<Moment>, events: seq<Event>, i: nat, j: nat, h: Handle)
    requires Run(moments, events) && Accounted(moments[0]) && i <= j < |moments|
    ensures moments[i].destroyed <= moments[j].destroyed
    ensures h in Handles(moments[i].state.table) ==> h in Handles(moments[j].state.table) || h in moments[j].destroyed
    decreases j
  {
    if i < j {
      RunGivesBack(moments, events, i, j - 1, h);
      RunAccounted(moments, events, j - 1);
      RunStep(moments, events, j - 1);
      hide Handles;
      hide Allowed;
      hide Accounted;
      hide Next;
      StepAccounted(moments[j - 1], events[j - 1]);
    }
  }

  lemma {:induction false} CountOnce(s: seq<Handle>, h: Handle)
    requires NoRepeats(s)
    ensures multiset(s)[h] == if h in s then 1 else 0
  {
    if s != [] {
      var n := |s| - 1;
      assert s == s[..n] + [s[n]];
      PartsDistinct(s[..n], [s[n]]);
      CountOnce(s[..n], h);
      assert multiset(s)[h] == multiset(s[..n])[h] + multiset([s[n]])[h];
    }
  }

  /** What a table owned at some moment is owned still, or was given back exactly once since. */
  lemma OwnedOrDestroyedOnce(moments: seq<Moment>, events: seq<Event>, i: nat, j: nat, h: Handle)
    requires Run(moments, events) && Accounted(moments[0]) && i <= j < |moments|
    requires h in Handles(moments[i].state.table)
    ensures h !in moments[i].destroyed
    ensures multiset(moments[j].destroyed)[h] == if h in Handles(moments[j].state.table) then 0 else 1
  {
    RunAccounted(moments, events, i);
    RunAccounted(moments, events, j);
    RunGivesBack(moments, events, i, j, h);
    CountOnce(moments[j].destroyed, h);
  }
}
