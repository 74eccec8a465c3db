/** The geometry provider over native handles, under quotas, with its own history of calls. */
module GeometryStore {
  import opened Options
  import opened Expressions
  import opened NativeHandles
  import opened GeometryTables
  import opened GeometryRuns

  datatype Status = Ok | Closed | BadText | Capacity | NoMemory | DomainError | Interrupted

  datatype Snapshot = Snapshot(name: string, version: string, token: string)

  /** What each native call will answer, in the order that `put` makes them. */
  datatype Script = Script(reader: Call<bool>, read: Call<bool>, valid: Call<int>, empty: Call<int>,
    dimension: Call<int>, prepare: Call<bool>)

  lemma NextDropped(m: Moment, id: string, r: Option<string>)
    ensures id in m.state.table ==>
      var s := m.state;
      Next(m, Dropped(id, r)) == Moment(
        State(s.open, s.table - {id}, s.bytes - SizeOf(s.table, id), s.generation + 1, Revised(s.revision, r)),
        m.destroyed + OwnOrder(s.table, id))
    ensures id !in m.state.table ==>
      Next(m, Dropped(id, r)) == m.(state := m.state.(revision := Revised(m.state.revision, r))) &&
        Own(m.state.table, id) == {}
  {
    if id !in m.state.table {
      NothingRemoved(m.state.table, id);
      assert m.destroyed + [] == m.destroyed;
    }
  }

  lemma NoneGone(gone: set<Handle>, own: set<Handle>)
    requires own == {}
    ensures gone + own == gone
  {
  }

  lemma RemovalAllowed(m: Moment, id: string, newRevision: Option<string>)
    ensures m.state.open ==> Allowed(m, Dropped(id, newRevision))
  {
  }

  lemma NothingSpent(m: Moment)
    ensures Allowed(m, Refused([])) && Next(m, Refused([])) == m
  {
    assert m.destroyed + [] == m.destroyed;
  }

  lemma NothingAccounted(m: Moment)
    requires m.state.table == map[] && NoRepeats(m.destroyed)
    ensures Accounted(m)
  {
    NothingOwned();
  }

  /** What has gone in order, and what remains, is what the table owned. */
  ghost predicate GivenBack(table: Table, rest: Table, order: seq<Handle>) {
    && (forall h | h in order :: h in Handles(table))
    && (forall h | h in Handles(rest) :: h in Handles(table))
    && forall h | h in Handles(table) :: h in Handles(rest) || h in order
  }

  lemma StartGivingBack(table: Table)
    ensures GivenBack(table, table, [])
  {
  }

  lemma GiveBackMore(table: Table, rest: Table, order: seq<Handle>, id: string)
    requires GivenBack(table, rest, order) && Owned(rest) && id in rest
    ensures GivenBack(table, rest - {id}, order + [rest[id].prepared, rest[id].geometry])
  {
    Removed(rest, id);
    hide Handles;
  }

  lemma Exchange(live: set<Handle>, reader: Handle, geometry: Option<Handle>)
    requires reader !in live && geometry != Some(reader)
    ensures (live + {reader}) - {reader} == live
    ensures geometry.Some? ==> (live + {reader} + {geometry.value}) - {reader} == live + {geometry.value}
  {
  }

  // ----- The provider -----

  lemma RunMore(moments: seq<Moment>, events: seq<Event>, e: Event, next: Moment)
    requires Run(moments, events) && Allowed(moments[|events|], e) && next == Next(moments[|events|], e)
    ensures Run(moments + [next], events + [e])
  {
    hide Allowed;
    hide Next;
  }

  function ReadStatus(script: Script): Status {
    if script.reader.Raises? then Interrupted else if !script.reader.value then NoMemory
    else if script.read.Raises? then Interrupted else if !script.read.value then DomainError
    else Ok
  }

  /** The three checks made before preparation. */
  function CheckStatus(script: Script): Status {
    if script.valid.Raises? then Interrupted else if script.valid.value != 1 then DomainError
    else if script.empty.Raises? then Interrupted else if script.empty.value != 0 then DomainError
    else if script.dimension.Raises? then Interrupted else if script.dimension.value != 2 then DomainError
    else Ok
  }

  /** How reading and preparing a geometry ends: the first step that fails decides. */
  function ParseStatus(script: Script): (r: Status)
    ensures r in {Ok, NoMemory, DomainError, Interrupted}
  {
    if ReadStatus(script) != Ok then ReadStatus(script)
    else if CheckStatus(script) != Ok then CheckStatus(script)
    else if script.prepare.Raises? then Interrupted else if !script.prepare.value then NoMemory
    else Ok
  }

  /** What each status says about the steps. */
  lemma ParseStatusMeans(script: Script)
    ensures ParseStatus(script) == Ok <==>
      && script.reader == Returns(true) && script.read == Returns(true) && script.valid == Returns(1)
      && script.empty == Returns(0) && script.dimension == Returns(2) && script.prepare == Returns(true)
    ensures ParseStatus(script) == Interrupted <==>
      || script.reader.Raises?
      || (script.reader == Returns(true) && script.read.Raises?)
      || (script.reader == Returns(true) && script.read == Returns(true) && script.valid.Raises?)
      || (script.reader == Returns(true) && script.read == Returns(true) && script.valid == Returns(1)
            && script.empty.Raises?)
      || (script.reader == Returns(true) && script.read == Returns(true) && script.valid == Returns(1)
            && script.empty == Returns(0) && script.dimension.Raises?)
      || (script.reader == Returns(true) && script.read == Returns(true) && script.valid == Returns(1)
            && script.empty == Returns(0) && script.dimension == Returns(2) && script.prepare.Raises?)
    ensures ParseStatus(script) == NoMemory <==>
      || script.reader == Returns(false)
      || (script.reader == Returns(true) && script.read == Returns(true) && script.valid == Returns(1)
            && script.empty == Returns(0) && script.dimension == Returns(2) && script.prepare == Returns(false))
    ensures ParseStatus(script) == DomainError <==>
      || (script.reader == Returns(true) && script.read == Returns(false))
      || (script.reader == Returns(true) && script.read == Returns(true)
            && script.valid.Returns? && script.valid.value != 1)
      || (script.reader == Returns(true) && script.read == Returns(true) && script.valid == Returns(1)
            && script.empty.Returns? && script.empty.value != 0)
      || (script.reader == Returns(true) && script.read == Returns(true) && script.valid == Returns(1)
            && script.empty == Returns(0) && script.dimension.Returns? && script.dimension.value != 2)
  {
  }

  lemma ExceedsIs(t: Table, id: string, size: nat, maxGeometries: nat, maxBytes: nat)
    ensures Exceeds(t, id, size, maxGeometries, maxBytes) <==>
      Total(t - {id}) + size > maxBytes || (id !in t && |t| >= maxGeometries)
  {
  }

  class GeometryProvider {
    const native: Native
    const name: string
    const version: string
    const maxGeometries: nat
    const maxBytes: nat
    var open: bool
    var geometries: Table
    var bytes: int
    var generation: nat
    var revision: string
    var preparations: nat
    var calls: nat
    ghost var history: seq<Moment>
    ghost var events: seq<Event>

    /** The live handles are exactly the table's, and the totals are the table's and within quota. */
    ghost predicate Consistent() reads this`open, this`geometries, this`bytes, native {
      && native.Sound() && Owned(geometries) && native.live == Handles(geometries)
      && (open ==> bytes == Total(geometries) <= maxBytes && |geometries| <= maxGeometries)
      && (!open ==> geometries == map[])
    }

    function View(): State
      reads this`open, this`geometries, this`bytes, this`generation, this`revision
    {
      State(open, geometries, bytes, generation, revision)
    }

    ghost function Now(): Moment
      reads this`open, this`geometries, this`bytes, this`generation, this`revision, native
    {
      Moment(View(), native.destroyed)
    }

    /** What is shown now is the end of a run of calls that began with an empty table. */
    ghost predicate Traced() reads this, native {
      && Run(history, events) && history[|history| - 1] == Now()
      && history[0].state.table == map[] && NoRepeats(history[0].destroyed)
    }

    ghost predicate Valid() reads this, native { Consistent() && Traced() }

    constructor (native: Native, name: string, version: string, revision: string, maxGeometries: nat, maxBytes: nat)
      requires native.Sound() && native.live == {}
      ensures Valid() && events == [] && open && geometries == map[] && generation == 0 && this.native == native
      ensures this.revision == revision && this.name == name && this.version == version
      ensures this.maxGeometries == maxGeometries && this.maxBytes == maxBytes
    {
      this.native, this.name, this.version, this.revision := native, name, version, revision;
      this.maxGeometries, this.maxBytes := maxGeometries, maxBytes;
      open, geometries, bytes, generation, preparations, calls := true, map[], 0, 0, 0, 0;
      history, events := [Moment(State(true, map[], 0, 0, revision), native.destroyed)], [];
    }

    /** One more call of the run. */
    ghost method Record(e: Event, before: Moment)
      requires Run(history, events) && history[|history| - 1] == before
      requires history[0].state.table == map[] && NoRepeats(history[0].destroyed)
      requires Allowed(before, e) && Next(before, e) == Now()
      modifies this`history, this`events
      ensures Traced() && events == old(events) + [e] && history == old(history) + [Now()]
    {
      RunMore(history, events, e, Now());
      hide Run;
      hide NoRepeats;
      hide Allowed;
      history, events := history + [Now()], events + [e];
    }

    /** The answer while the context is open. */
    function Current(): Option<Snapshot> reads this`open, this`generation, this`revision {
      if open then Some(Snapshot(name, version, Token(revision, generation))) else None
    }

    /** Reads a geometry; the reader is given back whatever happens. */
    method ReadGeometry(script: Script) returns (status: Status, geometry: Handle)
      requires native.Sound()
      modifies native
      ensures native.Sound() && status == ReadStatus(script) && old(native.destroyed) <= native.destroyed
      ensures status != Ok ==> native.live == old(native.live)
      ensures status == Ok ==> native.live == old(native.live) + {geometry} && geometry.Geometry?
      ensures status == Ok ==> geometry !in old(native.live + native.gone) && geometry.id >= old(native.issued)
      ensures old(native.gone) <= native.gone
      ensures status == Ok ==> forall p | p in old(native.live) && p.Prepared? :: p.base < geometry.id
    {
      hide native.Sound;
      geometry := Reader(0);
      var reader := native.CreateReader(script.reader);
      if reader.Raises? { return Interrupted, geometry; }
      if reader.value.None? { return NoMemory, geometry; }
      var read := native.Read(reader.value.value, script.read);
      Exchange(old(native.live), reader.value.value, if read.Returns? then read.value else None);
      native.Destroy(reader.value.value);
      if read.Raises? { return Interrupted, geometry; }
      if read.value.None? { return DomainError, geometry; }
      status, geometry := Ok, read.value.value;
    }

    /** Reads and prepares a geometry; whatever fails, no handle is left over. */
    method Parse(script: Script) returns (status: Status, geometry: Handle, prepared: Handle)
      requires native.Sound()
      modifies native
      ensures native.Sound() && status == ParseStatus(script) && old(native.destroyed) <= native.destroyed
      ensures status != Ok ==> native.live == old(native.live)
      ensures status == Ok ==> native.live == old(native.live) + {geometry, prepared}
      ensures status == Ok ==> geometry.Geometry? && prepared.Prepared?
      ensures status == Ok ==> prepared.base == geometry.id >= old(native.issued)
      ensures status == Ok ==>
        geometry !in old(native.live + native.gone) && prepared !in old(native.live + native.gone)
    {
      hide native.Sound;
      prepared := Reader(0);
      status, geometry := ReadGeometry(script);
      if status != Ok { return; }
      status := CheckStatus(script);
      if status == Ok { status, prepared := PrepareGeometry(geometry, script.prepare); }
      if status != Ok { native.Destroy(geometry); }
    }

    method PrepareGeometry(geometry: Handle, reply: Call<bool>) returns (status: Status, prepared: Handle)
      requires native.Sound() && geometry in native.live && geometry.Geometry?
      modifies native
      ensures native.Sound() && native.gone == old(native.gone) && native.destroyed == old(native.destroyed)
      ensures status == if reply.Raises? then Interrupted else if reply.value then Ok else NoMemory
      ensures status != Ok ==> native.live == old(native.live)
      ensures status == Ok ==> native.live == old(native.live) + {prepared} && prepared.Prepared?
      ensures status == Ok ==> prepared.base == geometry.id && prepared !in old(native.live + native.gone)
    {
      hide native.Sound;
      var preparation := native.Prepare(geometry, reply);
      if preparation.Raises? { return Interrupted, Reader(0); }
      if preparation.value.None? { return NoMemory, Reader(0); }
      status, prepared := Ok, preparation.value.value;
    }

    /** Prepared before geometry. */
    method Release(entry: Entry)
      requires native.Sound() && entry.geometry in native.live && entry.prepared in native.live
      requires entry.geometry.Geometry? && entry.prepared.Prepared?
      requires forall p | p in native.live && p.Prepared? && p.base == entry.geometry.id :: p == entry.prepared
      modifies native
      ensures native.Sound() && native.live == old(native.live) - {entry.geometry, entry.prepared}
      ensures native.gone == old(native.gone) + {entry.geometry, entry.prepared} && native.issued == old(native.issued)
      ensures native.destroyed == old(native.destroyed) + [entry.prepared, entry.geometry]
    {
      hide native.Sound;
      native.Destroy(entry.prepared);
      native.Destroy(entry.geometry);
    }

    /** Adds or replaces a record; anything but `Ok` leaves the provider and the live handles as they were. */
    method Put(id: string, text: seq<bv8>, crs: Crs, newRevision: Option<string>, script: Script)
      returns (status: Status)
      requires Valid()
      modifies this, native
      ensures Valid() && calls == old(calls) && |events| == |old(events)| + 1
      ensures history == old(history) + [Now()] && events[..|old(events)|] == old(events)
      ensures status == BadText <==> 0 in text
      ensures status == Closed <==> 0 !in text && !old(open)
      ensures status == Capacity <==>
        && 0 !in text && old(open)
        && (|| old(Total(geometries - {id})) + |text| > maxBytes
            || (id !in old(geometries) && |old(geometries)| >= maxGeometries))
      ensures status == Ok ==>
        && script.reader == Returns(true) && script.read == Returns(true) && script.valid == Returns(1)
        && script.empty == Returns(0) && script.dimension == Returns(2) && script.prepare == Returns(true)
      ensures status == Interrupted ==>
        || script.reader.Raises?
        || (script.reader == Returns(true) && script.read.Raises?)
        || (script.reader == Returns(true) && script.read == Returns(true) && script.valid.Raises?)
        || (script.reader == Returns(true) && script.read == Returns(true) && script.valid == Returns(1)
            && script.empty.Raises?)
        || (script.reader == Returns(true) && script.read == Returns(true) && script.valid == Returns(1)
              && script.empty == Returns(0) && script.dimension.Raises?)
        || (script.reader == Returns(true) && script.read == Returns(true) && script.valid == Returns(1)
              && script.empty == Returns(0) && script.dimension == Returns(2) && script.prepare.Raises?)
      ensures status == NoMemory ==>
        || script.reader == Returns(false)
        || (script.reader == Returns(true) && script.read == Returns(true) && script.valid == Returns(1)
              && script.empty == Returns(0) && script.dimension == Returns(2) && script.prepare == Returns(false))
      ensures status == DomainError ==>
        || (script.reader == Returns(true) && script.read == Returns(false))
        || (script.reader == Returns(true) && script.read == Returns(true)
            && script.valid.Returns? && script.valid.value != 1)
        || (script.reader == Returns(true) && script.read == Returns(true) && script.valid == Returns(1)
              && script.empty.Returns? && script.empty.value != 0)
        || (script.reader == Returns(true) && script.read == Returns(true) && script.valid == Returns(1)
              && script.empty == Returns(0) && script.dimension.Returns? && script.dimension.value != 2)
      ensures status != Ok ==> View() == old(View()) && native.live == old(native.live)
      ensures status != Ok ==> preparations == old(preparations) && events[|old(events)|].Refused?
      ensures status == Ok ==> id in geometries && geometries == old(geometries)[id := geometries[id]]
      ensures status == Ok ==> geometries[id].crs == crs && geometries[id].size == |text|
      ensures status == Ok ==> geometries[id].geometry !in old(native.live + native.gone)
      ensures status == Ok ==> geometries[id].prepared !in old(native.live + native.gone)
      ensures status == Ok ==> generation == old(generation) + 1 && preparations == old(preparations) + 1 && open
      ensures status == Ok ==> revision == (if newRevision.Some? then newRevision.value else old(revision))
    {
      hide Consistent;
      hide Run;
      hide NoRepeats;
      hide Allowed;
      hide Next;
      hide Exceeds;
      hide ParseStatus;
      ghost var before := Now();
      ghost var spent;
      status, spent := Store(id, text, crs, newRevision, script);
      ExceedsIs(old(geometries), id, |text|, maxGeometries, maxBytes);
      ParseStatusMeans(script);
      ghost var e := if status == Ok then Entered(id, geometries[id], newRevision, spent) else Refused(spent);
      Record(e, before);
    }

    /** The work of `put`, with the handles issued and given back on the way. */
    method Store(id: string, text: seq<bv8>, crs: Crs, newRevision: Option<string>, script: Script)
      returns (status: Status, ghost spent: seq<Handle>)
      requires Consistent()
      modifies this`geometries, this`bytes, this`generation, this`revision, this`preparations, native
      ensures Consistent()
      ensures status == BadText <==> 0 in text
      ensures status == Closed <==> 0 !in text && !old(open)
      ensures status == Capacity <==>
        0 !in text && old(open) && Exceeds(old(geometries), id, |text|, maxGeometries, maxBytes)
      ensures status !in {BadText, Closed, Capacity} ==> status == ParseStatus(script)
      ensures status != Ok ==> View() == old(View()) && native.live == old(native.live)
      ensures status != Ok ==> preparations == old(preparations)
      ensures status != Ok ==> Allowed(old(Now()), Refused(spent)) && Now() == Next(old(Now()), Refused(spent))
      ensures status == Ok ==> id in geometries && geometries == old(geometries)[id := geometries[id]]
      ensures status == Ok ==> geometries[id].crs == crs && geometries[id].size == |text|
      ensures status == Ok ==> geometries[id].geometry !in old(native.live + native.gone)
      ensures status == Ok ==> geometries[id].prepared !in old(native.live + native.gone)
      ensures status == Ok ==> generation == old(generation) + 1 && preparations == old(preparations) + 1 && open
      ensures status == Ok ==> revision == (if newRevision.Some? then newRevision.value else old(revision))
      ensures status == Ok ==> Allowed(old(Now()), Entered(id, geometries[id], newRevision, spent))
      ensures status == Ok ==> Now() == Next(old(Now()), Entered(id, geometries[id], newRevision, spent))
    {
      spent := [];
      NothingSpent(Now());
      hide native.Sound;
      hide Owned;
      hide Handles;
      hide Total;
      hide Exceeds;
      hide ParseStatus;
      hide Allowed;
      if 0 in text { return BadText, spent; }
      if !open { return Closed, spent; }
      ExceedsMeans(geometries, id, |text|, maxGeometries, maxBytes);
      var size := bytes - (if id in geometries then geometries[id].size else 0) + |text|;
      if size > maxBytes || (id !in geometries && |geometries| >= maxGeometries) { return Capacity, spent; }
      LiveIssued();
      ghost var before := Now();
      var geometry, prepared;
      status, geometry, prepared := Parse(script);
      spent := native.destroyed[|before.destroyed|..];
      assert native.destroyed == before.destroyed + spent;
      if status != Ok {
        SpentFresh(before, spent);
        return;
      }
      var entry := Entry(geometry, prepared, crs, |text|);
      EntryAllowed(before, id, entry, newRevision, spent);
      Install(id, entry, size, newRevision, old(native.issued));
    }

    /** What was given back is neither live nor given back before. */
    lemma SpentFresh(before: Moment, spent: seq<Handle>)
      requires native.Sound() && native.destroyed == before.destroyed + spent
      requires Handles(before.state.table) <= native.live
      ensures Fresh(before, spent) && Allowed(before, Refused(spent))
    {
      PartsDistinct(before.destroyed, spent);
      forall h | h in spent ensures h !in Handles(before.state.table) { assert h in native.destroyed; }
    }

    lemma EntryAllowed(before: Moment, id: string, entry: Entry, newRevision: Option<string>, spent: seq<Handle>)
      requires native.Sound() && native.destroyed == before.destroyed + spent && before.state.open
      requires native.live == Handles(before.state.table) + {entry.geometry, entry.prepared}
      requires entry.geometry.Geometry? && entry.prepared.Prepared? && entry.prepared.base == entry.geometry.id
      requires entry.geometry !in Handles(before.state.table) && entry.prepared !in Handles(before.state.table)
      ensures Allowed(before, Entered(id, entry, newRevision, spent))
    {
      SpentFresh(before, spent);
      forall h | h in spent ensures h !in native.live { assert h in native.destroyed; }
      AppendDistinct(spent, [entry.geometry, entry.prepared]);
      hide Handles;
      hide NoRepeats;
    }

    lemma LiveIssued()
      requires Consistent()
      ensures forall h | h in Handles(geometries) :: h in native.live && h.id < native.issued
    {
    }

    /** Enters a fresh record, and then releases the one it replaces. */
    method Install(id: string, entry: Entry, size: int, newRevision: Option<string>, ghost issued: nat)
      requires native.Sound() && Owned(geometries) && forall h | h in Handles(geometries) :: h.id < issued
      requires entry.geometry.Geometry? && entry.prepared.Prepared?
      requires entry.prepared.base == entry.geometry.id >= issued
      requires entry.geometry !in Handles(geometries) && entry.prepared !in Handles(geometries)
      requires native.live == Handles(geometries) + {entry.geometry, entry.prepared}
      modifies this`geometries, this`bytes, this`generation, this`revision, this`preparations, native
      ensures native.Sound() && Owned(geometries) && native.live == Handles(geometries)
      ensures native.destroyed == old(native.destroyed) + OwnOrder(old(geometries), id)
      ensures |geometries| == if id in old(geometries) then |old(geometries)| else |old(geometries)| + 1
      ensures View() == State(open, old(geometries)[id := entry], size, old(generation) + 1,
        Revised(old(revision), newRevision))
      ensures preparations == old(preparations) + 1
    {
      hide native.Sound;
      hide Owned;
      hide Handles;
      Replaced(geometries, id, entry);
      if id in geometries { ReplacedBase(geometries, id, issued, entry); }
      var previous := if id in geometries then Some(geometries[id]) else None;
      geometries := geometries[id := entry];
      bytes := size;
      preparations := preparations + 1;
      generation := generation + 1;
      if newRevision.Some? { revision := newRevision.value; }
      if previous.Some? { Release(previous.value); }
    }

    method Remove(id: string, newRevision: Option<string>) returns (status: Status)
      requires Valid()
      modifies this, native
      ensures Valid() && calls == old(calls) && preparations == old(preparations)
      ensures history == old(history) + [Now()]
      ensures events == old(events) + [if status == Ok then Dropped(id, newRevision) else Refused([])]
      ensures status == if old(open) then Ok else Closed
      ensures status == Closed ==> View() == old(View()) && native.gone == old(native.gone)
      ensures status == Ok ==> open && geometries == old(geometries) - {id}
      ensures status == Ok ==> native.gone == old(native.gone + Own(geometries, id))
      ensures status == Ok ==> generation == old(generation) + (if id in old(geometries) then 1 else 0)
      ensures status == Ok ==> revision == (if newRevision.Some? then newRevision.value else old(revision))
    {
      hide Consistent;
      hide Run;
      hide NoRepeats;
      hide Own;
      ghost var before := Now();
      NothingSpent(before);
      status := TakeOut(id, newRevision);
      RemovalAllowed(before, id, newRevision);
      hide Allowed;
      Record(if status == Ok then Dropped(id, newRevision) else Refused([]), before);
    }

    /** The work of `remove`. */
    method TakeOut(id: string, newRevision: Option<string>) returns (status: Status)
      requires Consistent()
      modifies this`geometries, this`bytes, this`generation, this`revision, native
      ensures Consistent() && status == if old(open) then Ok else Closed
      ensures status == Closed ==> View() == old(View()) && native.gone == old(native.gone) && Now() == old(Now())
      ensures status == Ok ==> native.gone == old(native.gone + Own(geometries, id))
      ensures status == Ok ==> Now() == Next(old(Now()), Dropped(id, newRevision))
    {
      hide native.Sound;
      hide Owned;
      hide Handles;
      hide Total;
      hide Own;
      hide OwnOrder;
      hide Next;
      if !open { return Closed; }
      NextDropped(Now(), id, newRevision);
      if id in geometries { Drop(id); } else { NoneGone(native.gone, Own(geometries, id)); }
      if newRevision.Some? { revision := newRevision.value; }
      status := Ok;
    }

    method Drop(id: string)
      requires Consistent() && open && id in geometries
      modifies this`geometries, this`bytes, this`generation, native
      ensures Consistent() && native.gone == old(native.gone + Own(geometries, id))
      ensures native.destroyed == old(native.destroyed) + OwnOrder(old(geometries), id)
      ensures geometries == old(geometries) - {id} && generation == old(generation) + 1
      ensures bytes == old(bytes - SizeOf(geometries, id))
    {
      hide native.Sound;
      hide Owned;
      hide Handles;
      hide Total;
      var entry := geometries[id];
      Removed(geometries, id);
      geometries := geometries - {id};
      Release(entry);
      bytes := bytes - entry.size;
      generation := generation + 1;
    }

    /** Gives back every handle, once; a second close does nothing. */
    method Close()
      requires Valid()
      modifies this, native
      ensures Valid() && |events| == |old(events)| + 1 && events[|old(events)|].Shut?
      ensures history == old(history) + [Now()] && events[..|old(events)|] == old(events)
      ensures View() == State(false, map[], old(bytes), old(generation), old(revision))
      ensures native.live == {} && |native.gone| == native.issued
    {
      hide Run;
      hide NoRepeats;
      hide Allowed;
      hide Next;
      ghost var before := Now();
      ghost var order := Finish();
      AllReturned();
      hide Consistent;
      Record(Shut(order), before);
    }

    /** The work of `close`, with the order in which the handles went. */
    method Finish() returns (ghost order: seq<Handle>)
      requires Consistent()
      modifies this`open, this`geometries, native
      ensures Consistent() && native.live == {}
      ensures View() == State(false, map[], old(bytes), old(generation), old(revision))
      ensures Allowed(old(Now()), Shut(order)) && Now() == Next(old(Now()), Shut(order))
    {
      hide native.Sound;
      hide Owned;
      hide Handles;
      hide Total;
      hide GivenBack;
      hide Allowed;
      ghost var before := Now();
      NothingOwned();
      if open {
        order := ReleaseAll();
        geometries := map[];
        open := false;
      } else {
        order := [];
        StartGivingBack(geometries);
        assert before.destroyed + [] == before.destroyed;
      }
      AllGivenBack(before, order);
    }

    method ReleaseAll() returns (ghost order: seq<Handle>)
      requires native.Sound() && Owned(geometries) && native.live == Handles(geometries)
      modifies native
      ensures native.Sound() && native.live == {} && native.destroyed == old(native.destroyed) + order
      ensures GivenBack(geometries, map[], order)
    {
      hide native.Sound;
      hide Owned;
      hide Handles;
      hide GivenBack;
      hide Total;
      StartGivingBack(geometries);
      var rest := geometries;
      order := [];
      while rest != map[]
        invariant native.Sound() && Owned(rest) && native.live == Handles(rest)
        invariant native.destroyed == old(native.destroyed) + order && GivenBack(geometries, rest, order)
        decreases |rest|
      {
        var id :| id in rest;
        Removed(rest, id);
        Release(rest[id]);
        GiveBackMore(geometries, rest, order, id);
        order := order + [rest[id].prepared, rest[id].geometry];
        rest := rest - {id};
      }
      NothingOwned();
    }

    lemma AllGivenBack(before: Moment, order: seq<Handle>)
      requires native.Sound() && native.destroyed == before.destroyed + order
      requires GivenBack(before.state.table, map[], order)
      ensures Allowed(before, Shut(order))
    {
      PartsDistinct(before.destroyed, order);
      NothingOwned();
      hide Handles;
      hide NoRepeats;
    }

    lemma AllReturned()
      requires native.Sound() && native.live == {}
      ensures |native.gone| == native.issued
    {
    }

    /** Two moments of this provider's history with equal snapshots had the same table. */
    lemma EqualSnapshots(i: nat, j: nat)
      requires Valid() && i <= j < |history| && history[j].state.open
      requires Token(history[i].state.revision, history[i].state.generation)
            == Token(history[j].state.revision, history[j].state.generation)
      ensures history[i].state.table == history[j].state.table
    {
      EqualSnapshotsSameTable(history, events, i, j);
    }

    /** A handle that this provider ever owned is owned now and was not destroyed, or was destroyed exactly once. */
    lemma DestroyedOnce(i: nat, h: Handle)
      requires Valid() && i < |history| && h in Handles(history[i].state.table)
      ensures multiset(native.destroyed)[h] == if h in Handles(geometries) then 0 else 1
      ensures h in Handles(geometries) <==> h in native.live
    {
      hide native.Sound;
      hide Run;
      hide Handles;
      hide Owned;
      hide Total;
      hide NoRepeats;
      NothingAccounted(history[0]);
      hide Accounted;
      OwnedOrDestroyedOnce(history, events, i, |history| - 1, h);
    }

    /** One answer, from records whose handles are live. */
    method Ask(op: Operation, q: Request) returns (r: Option<Value>)
      requires Consistent() && !op.Unknown?
      ensures r == Answer(geometries, op, q, native.distance, native.relation)
    {
      hide native.Sound;
      hide Owned;
      hide Handles;
      hide Total;
      hide Scaled;
      if q.left !in geometries || q.right !in geometries { return None; }
      var left, right := geometries[q.left], geometries[q.right];
      if left.crs != right.crs { return None; }
      OwnedLive(geometries, q.left);
      OwnedLive(geometries, q.right);
      if op.Relation? {
        var v := native.Relate(op.name, left.prepared, right.geometry);
        return if v == 0 || v == 1 then Some(Truth(v == 1)) else None;
      }
      var distance := native.Distance(left.geometry, right.geometry);
      if distance.None? { return None; }
      var metres := Scaled(distance.value, left.crs.metres);
      if metres < 0.0 { return None; }
      if op.PlanarDistance? { return Some(Metres(metres)); }
      if q.radius.None? || q.radius.value < 0.0 { return None; }
      r := Some(Truth(metres <= q.radius.value));
    }

    /** Answers requests against the table that the snapshot names, stopping at the first that fails or is cancelled. */
    method EvaluateBatch(op: Operation, requests: seq<Request>, snapshot: Snapshot, cancelledAt: nat) returns (r: Batch)
      requires Valid()
      modifies this`calls
      ensures Valid() && View() == old(View()) && history == old(history)
      ensures r == Failed(UnknownOperation) <==> op.Unknown?
      ensures r == Failed(ContextClosed) <==> !op.Unknown? && !open
      ensures r == Failed(SnapshotChanged) <==>
        !op.Unknown? && open && snapshot != Snapshot(name, version, Token(revision, generation))
      ensures r in {Failed(Cancelled), Failed(NoAnswer)} ==> old(calls) <= calls < old(calls) + |requests|
      ensures r == Failed(Cancelled) ==> calls - old(calls) == cancelledAt
      ensures r == Failed(NoAnswer) ==> calls - old(calls) < cancelledAt
      ensures r.Replies? ==> r.snapshot == snapshot && calls == old(calls) + |requests| && |requests| <= cancelledAt
      ensures r in {Failed(Cancelled), Failed(NoAnswer)} ==> forall k | 0 <= k < calls - old(calls) ::
        !Unanswerable(geometries, op, requests[k], native.distance, native.relation)
      ensures r == Failed(NoAnswer) ==>
        Unanswerable(geometries, op, requests[calls - old(calls)], native.distance, native.relation)
      ensures r.Replies? ==> |r.replies| == |requests| && forall k | 0 <= k < |requests| ::
        && r.replies[k].row == requests[k].row
        && !Unanswerable(geometries, op, requests[k], native.distance, native.relation)
        && RightValue(geometries, op, requests[k], native.distance, native.relation, r.replies[k].value)
    {
      hide Answered;
      hide RepliesTo;
      hide Answer;
      hide Unanswerable;
      hide RightValue;
      hide Run;
      hide NoRepeats;
      hide Token;
      if op.Unknown? { return Failed(UnknownOperation); }
      if !open { return Failed(ContextClosed); }
      if Current() != Some(snapshot) { return Failed(SnapshotChanged); }
      hide Consistent;
      hide View;
      r := AnswerBatch(op, requests, snapshot, cancelledAt);
    }

    /** The replies to a batch that is not refused. */
    method AnswerBatch(op: Operation, requests: seq<Request>, snapshot: Snapshot, cancelledAt: nat) returns (r: Batch)
      requires Consistent() && !op.Unknown?
      modifies this`calls
      ensures r.Replies? || r in {Failed(Cancelled), Failed(NoAnswer)}
      ensures r in {Failed(Cancelled), Failed(NoAnswer)} ==> old(calls) <= calls < old(calls) + |requests|
      ensures r == Failed(Cancelled) ==> calls - old(calls) == cancelledAt
      ensures r == Failed(NoAnswer) ==> calls - old(calls) < cancelledAt
      ensures r.Replies? ==> r.snapshot == snapshot && calls == old(calls) + |requests| && |requests| <= cancelledAt
      ensures r in {Failed(Cancelled), Failed(NoAnswer)} ==> forall k | 0 <= k < calls - old(calls) ::
        !Unanswerable(geometries, op, requests[k], native.distance, native.relation)
      ensures r == Failed(NoAnswer) ==>
        Unanswerable(geometries, op, requests[calls - old(calls)], native.distance, native.relation)
      ensures r.Replies? ==> |r.replies| == |requests| && forall k | 0 <= k < |requests| ::
        && r.replies[k].row == requests[k].row
        && !Unanswerable(geometries, op, requests[k], native.distance, native.relation)
        && RightValue(geometries, op, requests[k], native.distance, native.relation, r.replies[k].value)
    {
      hide *;
      var replies, failure := AnswerAll(op, requests, cancelledAt);
      AnsweredMeans(geometries, op, requests[..calls - old(calls)], native.distance, native.relation);
      if failure.Some? {
        NoAnswerMeans(geometries, op, requests[calls - old(calls)], native.distance, native.relation);
        return Failed(failure.value);
      }
      assert requests[..calls - old(calls)] == requests;
      RepliesMean(geometries, op, requests, native.distance, native.relation, replies);
      r := Replies(snapshot, replies);
    }

    method AnswerAll(op: Operation, requests: seq<Request>, cancelledAt: nat)
      returns (replies: seq<Reply>, failure: Option<Failure>)
      requires Consistent() && !op.Unknown?
      modifies this`calls
      ensures failure.None? ==> calls == old(calls) + |requests| && |requests| <= cancelledAt
      ensures failure == Some(NoAnswer) ==> calls - old(calls) < cancelledAt
      ensures failure.None? ==> RepliesTo(geometries, op, requests, native.distance, native.relation, replies)
      ensures failure.Some? ==> failure.value in {Cancelled, NoAnswer} && old(calls) <= calls < old(calls) + |requests|
      ensures old(calls) <= calls <= old(calls) + |requests|
      ensures Answered(geometries, op, requests[..calls - old(calls)], native.distance, native.relation)
      ensures failure == Some(Cancelled) ==> calls - old(calls) == cancelledAt
      ensures failure == Some(NoAnswer) ==>
        Answer(geometries, op, requests[calls - old(calls)], native.distance, native.relation).None?
    {
      hide Consistent;
      hide Answer;
      hide Answered;
      hide RepliesTo;
      replies := [];
      RepliesStart(geometries, op, native.distance, native.relation);
      for i := 0 to |requests|
        invariant calls == old(calls) + i && i <= cancelledAt
        invariant RepliesTo(geometries, op, requests[..i], native.distance, native.relation, replies)
      {
        RepliesAnswered(geometries, op, requests[..i], native.distance, native.relation, replies);
        if i == cancelledAt { return replies, Some(Cancelled); }
        var answer := Ask(op, requests[i]);
        if answer.None? { return replies, Some(NoAnswer); }
        RepliesStep(geometries, op, requests[..i], requests[i], native.distance, native.relation, replies,
          answer.value);
        assert requests[..i + 1] == requests[..i] + [requests[i]];
        replies := replies + [Reply(requests[i].row, answer.value)];
        calls := calls + 1;
      }
      assert requests[..|requests|] == requests;
      RepliesAnswered(geometries, op, requests, native.distance, native.relation, replies);
      failure := None;
    }
  }

  // ----- Evaluation -----

  datatype Operation = PlanarDistance | PlanarDwithin | Relation(name: string) | Unknown

  /** A radius that is not a finite number is absent. */
  datatype Request = Request(row: nat, left: string, right: string, radius: Option<real>)

  datatype Value = Metres(value: real) | Truth(holds: bool)

  datatype Reply = Reply(row: nat, value: Value)

  datatype Failure = UnknownOperation | ContextClosed | SnapshotChanged | Cancelled | NoAnswer

  datatype Batch = Replies(snapshot: Snapshot, replies: seq<Reply>) | Failed(failure: Failure)

  type Distances = (Handle, Handle) -> Option<real>

  type Relations = (string, Handle, Handle) -> int

  function Scaled(d: real, metres: real): real { d * metres }

  /** The answer for two records in the same coordinate system; every way to have none is a domain error. */
  function Answer(t: Table, op: Operation, q: Request, distance: Distances, relation: Relations): Option<Value>
    requires !op.Unknown?
  {
    if q.left !in t || q.right !in t || t[q.left].crs != t[q.right].crs then None
    else if op.Relation? then
      var v := relation(op.name, t[q.left].prepared, t[q.right].geometry);
      if v == 0 || v == 1 then Some(Truth(v == 1)) else None
    else
      var d := distance(t[q.left].geometry, t[q.right].geometry);
      if d.None? || Scaled(d.value, t[q.left].crs.metres) < 0.0 then None
      else if op.PlanarDistance? then Some(Metres(Scaled(d.value, t[q.left].crs.metres)))
      else if q.radius.None? || q.radius.value < 0.0 then None
      else Some(Truth(Scaled(d.value, t[q.left].crs.metres) <= q.radius.value))
  }

  ghost predicate Answered(t: Table, op: Operation, requests: seq<Request>, distance: Distances, relation: Relations) {
    !op.Unknown? && forall q | q in requests :: Answer(t, op, q, distance, relation).Some?
  }

  /** One reply for each request, under its row. */
  ghost predicate RepliesTo(t: Table, op: Operation, requests: seq<Request>, distance: Distances, relation: Relations,
      replies: seq<Reply>) {
    && !op.Unknown? && |replies| == |requests|
    && forall k | 0 <= k < |requests| ::
         replies[k].row == requests[k].row && Some(replies[k].value) == Answer(t, op, requests[k], distance, relation)
  }

  lemma RepliesStart(t: Table, op: Operation, distance: Distances, relation: Relations)
    requires !op.Unknown?
    ensures RepliesTo(t, op, [], distance, relation, [])
  {
  }

  lemma RepliesAnswered(t: Table, op: Operation, requests: seq<Request>, distance: Distances, relation: Relations,
      replies: seq<Reply>)
    requires RepliesTo(t, op, requests, distance, relation, replies)
    ensures Answered(t, op, requests, distance, relation)
  {
    hide Answer;
  }

  lemma RepliesStep(t: Table, op: Operation, requests: seq<Request>, q: Request, distance: Distances,
      relation: Relations, replies: seq<Reply>, value: Value)
    requires RepliesTo(t, op, requests, distance, relation, replies)
    requires Some(value) == Answer(t, op, q, distance, relation)
    ensures RepliesTo(t, op, requests + [q], distance, relation, replies + [Reply(q.row, value)])
  {
    hide Answer;
  }

  // ----- What answers mean, spelled out -----

  /** Why a request has no answer: an unknown identifier, two coordinate systems, a failed call, or a bad radius. */
  ghost predicate Unanswerable(t: Table, op: Operation, q: Request, distance: Distances, relation: Relations) {
    || q.left !in t || q.right !in t || t[q.left].crs != t[q.right].crs
    || (op.Relation? && relation(op.name, t[q.left].prepared, t[q.right].geometry) !in {0, 1})
    || (!op.Relation? && distance(t[q.left].geometry, t[q.right].geometry).None?)
    || (!op.Relation? && distance(t[q.left].geometry, t[q.right].geometry).value * t[q.left].crs.metres < 0.0)
    || (op.PlanarDwithin? && (q.radius.None? || q.radius.value < 0.0))
  }

  /** The native relation of left to right; the native distance in metres; or whether it is within the radius. */
  ghost predicate RightValue(t: Table, op: Operation, q: Request, distance: Distances, relation: Relations, v: Value)
    requires !Unanswerable(t, op, q, distance, relation)
  {
    match op
    case Relation(name) => v == Truth(relation(name, t[q.left].prepared, t[q.right].geometry) == 1)
    case PlanarDistance =>
      v == Metres(distance(t[q.left].geometry, t[q.right].geometry).value * t[q.left].crs.metres)
    case PlanarDwithin =>
      v == Truth(
        distance(t[q.left].geometry, t[q.right].geometry).value * t[q.left].crs.metres <= q.radius.value)
    case Unknown => false
  }

  lemma NoAnswerMeans(t: Table, op: Operation, q: Request, distance: Distances, relation: Relations)
    requires !op.Unknown?
    ensures Answer(t, op, q, distance, relation).None? <==> Unanswerable(t, op, q, distance, relation)
  {
  }

  lemma AnsweredMeans(t: Table, op: Operation, requests: seq<Request>, distance: Distances, relation: Relations)
    requires Answered(t, op, requests, distance, relation)
    ensures forall k | 0 <= k < |requests| :: !Unanswerable(t, op, requests[k], distance, relation)
  {
    hide Answer;
    hide Unanswerable;
    forall k | 0 <= k < |requests| ensures !Unanswerable(t, op, requests[k], distance, relation) {
      assert requests[k] in requests;
      NoAnswerMeans(t, op, requests[k], distance, relation);
    }
  }

  lemma AnswerMeans(t: Table, op: Operation, q: Request, distance: Distances, relation: Relations, v: Value)
    requires !op.Unknown? && Answer(t, op, q, distance, relation) == Some(v)
    ensures !Unanswerable(t, op, q, distance, relation) && RightValue(t, op, q, distance, relation, v)
  {
  }

  lemma RepliesMean(t: Table, op: Operation, requests: seq<Request>, distance: Distances, relation: Relations,
      replies: seq<Reply>)
    requires RepliesTo(t, op, requests, distance, relation, replies)
    ensures |replies| == |requests| && forall k | 0 <= k < |requests| ::
      && replies[k].row == requests[k].row
      && !Unanswerable(t, op, requests[k], distance, relation)
      && RightValue(t, op, requests[k], distance, relation, replies[k].value)
  {
    hide Answer;
    hide Unanswerable;
    hide RightValue;
    forall k | 0 <= k < |requests|
      ensures !Unanswerable(t, op, requests[k], distance, relation)
      ensures RightValue(t, op, requests[k], distance, relation, replies[k].value)
    {
      AnswerMeans(t, op, requests[k], distance, relation, replies[k].value);
    }
  }
}
