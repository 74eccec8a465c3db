/** Geometry records, what they own, and the totals of a table. */
module GeometryTables {
  import opened NativeHandles

  /** A projected coordinate system, by name, with its metres per unit. */
  datatype Crs = Crs(name: string, metres: real)

  datatype Entry = Entry(geometry: Handle, prepared: Handle, crs: Crs, size: nat)

  type Table = map<string, Entry>

  // ----- Totals over the table -----

  ghost function Total(t: Table): nat {
    if t == map[] then 0 else var id :| id in t; t[id].size + Total(t - {id})
  }

  lemma {:induction false} TotalPick(t: Table, id: string)
    requires id in t
    ensures Total(t) == t[id].size + Total(t - {id})
    decreases |t|
  {
    var first :| first in t && Total(t) == t[first].size + Total(t - {first});
    if first != id {
      TotalPick(t - {first}, id);
      TotalPick(t - {id}, first);
      assert t - {first} - {id} == t - {id} - {first};
    }
  }

  lemma TotalPut(t: Table, id: string, e: Entry)
    ensures Total(t[id := e]) == Total(t - {id}) + e.size
  {
    TotalPick(t[id := e], id);
    assert t[id := e] - {id} == t - {id};
  }

  /** Putting a record of this size would break a quota. */
  ghost predicate Exceeds(t: Table, id: string, size: nat, maxGeometries: nat, maxBytes: nat) {
    Total(t - {id}) + size > maxBytes || (id !in t && |t| >= maxGeometries)
  }

  lemma ExceedsMeans(t: Table, id: string, size: nat, maxGeometries: nat, maxBytes: nat)
    ensures Exceeds(t, id, size, maxGeometries, maxBytes) <==>
            Total(t) - (if id in t then t[id].size else 0) + size > maxBytes || (id !in t && |t| >= maxGeometries)
    ensures forall e: Entry :: Total(t[id := e]) == Total(t) - (if id in t then t[id].size else 0) + e.size
  {
    if id in t { TotalPick(t, id); } else { assert t - {id} == t; }
    forall e: Entry ensures Total(t[id := e]) == Total(t - {id}) + e.size { TotalPut(t, id, e); }
  }

  // ----- Ownership -----

  ghost function Handles(t: Table): set<Handle> {
    (set id | id in t :: t[id].geometry) + set id | id in t :: t[id].prepared
  }

  /** Each record owns one geometry and what was prepared from it; no two share. */
  ghost predicate Owned(t: Table) {
    && (forall id | id in t ::
         t[id].geometry.Geometry? && t[id].prepared.Prepared? && t[id].prepared.base == t[id].geometry.id)
    && forall a, b | a in t && b in t && a != b :: t[a].geometry != t[b].geometry && t[a].prepared != t[b].prepared
  }

  lemma HandlesWithout(t: Table, id: string)
    requires Owned(t) && id in t
    ensures Handles(t - {id}) == Handles(t) - {t[id].geometry, t[id].prepared}
    ensures Owned(t - {id})
  {
    var rest := t - {id};
    forall h | h in Handles(t) - {t[id].geometry, t[id].prepared} ensures h in Handles(rest) {
      var a :| a in t && (h == t[a].geometry || h == t[a].prepared);
      assert a in rest && rest[a] == t[a];
    }
    forall h | h in Handles(rest) ensures h in Handles(t) - {t[id].geometry, t[id].prepared} {
      var a :| a in rest && (h == rest[a].geometry || h == rest[a].prepared);
      assert a in t && rest[a] == t[a];
    }
  }

  lemma HandlesWith(t: Table, id: string, e: Entry)
    requires Owned(t) && id !in t
    requires e.geometry.Geometry? && e.prepared.Prepared? && e.prepared.base == e.geometry.id
    requires e.geometry !in Handles(t) && e.prepared !in Handles(t)
    ensures Handles(t[id := e]) == Handles(t) + {e.geometry, e.prepared}
    ensures Owned(t[id := e])
  {
    var more := t[id := e];
    forall a | a in t ensures t[a].geometry in Handles(t) && t[a].prepared in Handles(t) { }
    assert more[id] == e;
    forall h | h in Handles(t) ensures h in Handles(more) {
      var a :| a in t && (h == t[a].geometry || h == t[a].prepared);
      assert more[a] == t[a];
    }
  }

  /** Only the record's own prepared geometry refers to its geometry. */
  lemma BaseOwned(t: Table, id: string, p: Handle)
    requires Owned(t) && id in t && p in Handles(t) && p.Prepared? && p.base == t[id].geometry.id
    ensures p == t[id].prepared
  {
    var a :| a in t && (p == t[a].geometry || p == t[a].prepared);
    assert t[a].geometry == Geometry(p.base) == t[id].geometry;
  }

  function Own(t: Table, id: string): set<Handle> { if id in t then {t[id].geometry, t[id].prepared} else {} }

  lemma OwnHandles(t: Table, id: string)
    ensures Own(t, id) <= Handles(t)
  {
  }

  lemma Replaced(t: Table, id: string, e: Entry)
    requires Owned(t)
    requires e.geometry.Geometry? && e.prepared.Prepared? && e.prepared.base == e.geometry.id
    requires e.geometry !in Handles(t) && e.prepared !in Handles(t)
    ensures Owned(t[id := e])
    ensures Handles(t[id := e]) == (Handles(t) + {e.geometry, e.prepared}) - Own(t, id)
    ensures |t[id := e]| == if id in t then |t| else |t| + 1
  {
    hide Owned;
    hide Handles;
    var rest := t - {id};
    PutAfterRemove(t, id, e);
    if id in t { HandlesWithout(t, id); }
    HandlesWith(rest, id, e);
    OwnHandles(t, id);
    SameSets(Handles(t), Own(t, id), {e.geometry, e.prepared});
    TableSize(t, id, e);
  }

  lemma PutAfterRemove(t: Table, id: string, e: Entry)
    ensures (t - {id})[id := e] == t[id := e] && (id !in t ==> t - {id} == t)
  {
  }

  lemma SameSets(all: set<Handle>, own: set<Handle>, added: set<Handle>)
    requires own <= all && added !! all
    ensures (all - own) + added == (all + added) - own
  {
  }

  lemma TableSize(t: Table, id: string, e: Entry)
    ensures |t[id := e]| == if id in t then |t| else |t| + 1
  {
    assert t[id := e].Keys == t.Keys + {id};
    assert |t[id := e].Keys| == |t.Keys + {id}|;
  }

  /** A replaced record's geometry is the base of its own prepared geometry alone. */
  lemma ReplacedBase(t: Table, id: string, issued: nat, e: Entry)
    requires Owned(t) && id in t && (forall h | h in Handles(t) :: h.id < issued)
    requires e.geometry.Geometry? && e.prepared.Prepared? && e.prepared.base == e.geometry.id >= issued
    ensures t[id].geometry in Handles(t) && t[id].prepared in Handles(t)
    ensures t[id].geometry.Geometry? && t[id].prepared.Prepared?
    ensures forall p | p in Handles(t) + {e.geometry, e.prepared} && p.Prepared? && p.base == t[id].geometry.id ::
      p == t[id].prepared
  {
    assert t[id].geometry in Handles(t);
    forall p | p in Handles(t) + {e.geometry, e.prepared} && p.Prepared? && p.base == t[id].geometry.id
      ensures p == t[id].prepared
    {
      if p in Handles(t) { BaseOwned(t, id, p); }
    }
  }

  lemma NothingRemoved(t: Table, id: string)
    requires id !in t
    ensures t - {id} == t && Own(t, id) == {}
  {
  }

  lemma NothingOwned()
    ensures Owned(map[]) && Handles(map[]) == {}
  {
  }

  /** A record leaves the table with its own two handles, and nothing else was prepared from its geometry. */
  lemma Removed(t: Table, id: string)
    requires Owned(t) && id in t
    ensures Owned(t - {id}) && Handles(t - {id}) == Handles(t) - {t[id].geometry, t[id].prepared}
    ensures t[id].geometry.Geometry? && t[id].prepared.Prepared? && t[id].geometry in Handles(t)
    ensures t[id].prepared in Handles(t)
    ensures forall p | p in Handles(t) && p.Prepared? && p.base == t[id].geometry.id :: p == t[id].prepared
    ensures Total(t) == t[id].size + Total(t - {id}) && |t - {id}| < |t|
  {
    hide Total;
    HandlesWithout(t, id);
    TotalPick(t, id);
    assert t[id].geometry in Handles(t);
    forall p | p in Handles(t) && p.Prepared? && p.base == t[id].geometry.id
      ensures p == t[id].prepared
    {
      BaseOwned(t, id, p);
    }
    FewerRecords(t, id);
  }

  lemma FewerRecords(t: Table, id: string)
    requires id in t
    ensures |t - {id}| < |t|
  {
    assert t == (t - {id})[id := t[id]];
    TableSize(t - {id}, id, t[id]);
  }

  lemma OwnedLive(t: Table, id: string)
    requires id in t
    ensures t[id].geometry in Handles(t) && t[id].prepared in Handles(t)
  {
  }
}
