/** The native geometry library as a resource: what it has handed out, and what it has been given back. */
module NativeHandles {
  import opened Options
  import Expressions

  /** A prepared geometry refers to the geometry it was prepared from. */
  datatype Handle = Reader(id: nat) | Geometry(id: nat) | Prepared(id: nat, base: nat)

  /** A foreign call may return a value or raise. */
  datatype Call<+T> = Returns(value: T) | Raises

  class Native {
    var issued: nat
    ghost var live: set<Handle>
    ghost var gone: set<Handle>
    ghost var destroyed: seq<Handle>  // every call that gave a handle back, in order

    /** Every handle issued is live or was destroyed, never both, and nothing was destroyed twice. */
    ghost predicate Sound() reads this {
      && live !! gone && |live| + |gone| == issued
      && Expressions.NoRepeats(destroyed) && (forall h :: h in destroyed <==> h in gone)
      && forall h | h in live + gone :: h.id < issued && (h.Prepared? ==> h.base < issued)
    }

    const distance: (Handle, Handle) -> Option<real>
    const relation: (string, Handle, Handle) -> int

    constructor (distance: (Handle, Handle) -> Option<real>, relation: (string, Handle, Handle) -> int)
      ensures Sound() && live == {} && gone == {} && destroyed == []
    {
      this.distance, this.relation, issued := distance, relation, 0;
      live, gone, destroyed := {}, {}, [];
    }

    /** The distance between two live geometries, if the library can give one. */
    function Distance(a: Handle, b: Handle): Option<real>
      reads this
      requires a in live && b in live
    {
      distance(a, b)
    }

    function Relate(predicate_: string, a: Handle, b: Handle): int
      reads this
      requires a in live && b in live
    {
      relation(predicate_, a, b)
    }

    method CreateReader(reply: Call<bool>) returns (r: Call<Option<Handle>>)
      requires Sound()
      modifies this
      ensures Sound() && gone == old(gone) && destroyed == old(destroyed) && issued >= old(issued)
      ensures r.Raises? <==> reply.Raises?
      ensures r.Returns? ==> (r.value.Some? <==> reply.value)
      ensures r.Raises? || r.value.None? ==> live == old(live)
      ensures r.Returns? && r.value.Some? ==> (r.value.value.Reader? &&
        r.value.value !in old(live) + gone && live == old(live) + {r.value.value})
    {
      match reply {
        case Raises => r := Raises;
        case Returns(false) => r := Returns(None);
        case Returns(true) =>
          var h := Reader(issued);
          live, issued := live + {h}, issued + 1;
          r := Returns(Some(h));
      }
    }

    method Read(reader: Handle, reply: Call<bool>) returns (r: Call<Option<Handle>>)
      requires Sound() && reader in live && reader.Reader?
      modifies this
      ensures Sound() && gone == old(gone) && destroyed == old(destroyed) && issued >= old(issued)
      ensures r.Raises? <==> reply.Raises?
      ensures r.Returns? ==> (r.value.Some? <==> reply.value)
      ensures r.Raises? || r.value.None? ==> live == old(live)
      ensures r.Returns? && r.value.Some? ==> (r.value.value.Geometry? && r.value.value.id >= old(issued) &&
        r.value.value !in old(live) + gone && live == old(live) + {r.value.value} &&
        forall p | p in old(live) && p.Prepared? :: p.base < r.value.value.id)
    {
      match reply {
        case Raises => r := Raises;
        case Returns(false) => r := Returns(None);
        case Returns(true) =>
          var h := Geometry(issued);
          live, issued := live + {h}, issued + 1;
          r := Returns(Some(h));
      }
    }

    method Prepare(geometry: Handle, reply: Call<bool>) returns (r: Call<Option<Handle>>)
      requires Sound() && geometry in live && geometry.Geometry?
      modifies this
      ensures Sound() && gone == old(gone) && destroyed == old(destroyed) && issued >= old(issued)
      ensures r.Raises? <==> reply.Raises?
      ensures r.Returns? ==> (r.value.Some? <==> reply.value)
      ensures r.Raises? || r.value.None? ==> live == old(live)
      ensures r.Returns? && r.value.Some? ==> (r.value.value.Prepared? && r.value.value.base == geometry.id &&
        r.value.value !in old(live) + gone && live == old(live) + {r.value.value})
    {
      match reply {
        case Raises => r := Raises;
        case Returns(false) => r := Returns(None);
        case Returns(true) =>
          var h := Prepared(issued, geometry.id);
          live, issued := live + {h}, issued + 1;
          r := Returns(Some(h));
      }
    }

    /** A handle is destroyed while it is live, and a geometry only after what was prepared from it. */
    method Destroy(h: Handle)
      requires Sound() && h in live
      requires h.Geometry? ==> forall p | p in live && p.Prepared? :: p.base != h.id
      modifies this
      ensures Sound() && live == old(live) - {h} && gone == old(gone) + {h} && issued == old(issued)
      ensures destroyed == old(destroyed) + [h]
    {
      live, gone, destroyed := live - {h}, gone + {h}, destroyed + [h];
    }
  }
}
