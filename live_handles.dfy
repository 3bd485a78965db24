/** The ownership facts of `Ownership`, established for actual `Vehicle`
    objects: each method here runs one handle operation on a collection of
    distinct live handles and proves, from that operation's own contract,
    that ownership stays exclusive and how the leaked objects change. */
module LiveHandles {
  import opened Storable
  import opened Heap
  import opened VTables
  import opened TypeErasure
  import opened Ownership

  /** The bodies of the handles, in order. */
  ghost function Bodies(vs: seq<Vehicle>): (r: seq<Ptr>)
    reads vs
    ensures |r| == |vs| && forall k :: 0 <= k < |vs| ==> r[k] == vs[k].body
  {
    if vs == [] then [] else [vs[0].body] + Bodies(vs[1..])
  }

  /** The handles are distinct objects, each valid against the store. */
  ghost predicate Live(store: FreeStore, vs: seq<Vehicle>)
    reads vs, store
  {
    && (forall a, b :: 0 <= a < b < |vs| ==> vs[a] != vs[b])
    && (forall k :: 0 <= k < |vs| ==> vs[k].Valid(store))
  }

  /** Every owned address is allocated. */
  lemma OwnedAllocated(store: FreeStore, vs: seq<Vehicle>)
    requires Live(store, vs)
    ensures Owned(Bodies(vs)) <= store.cells.Keys
  {
    forall a | a in Owned(Bodies(vs)) ensures a in store.cells {
      var k :| 0 <= k < |vs| && Bodies(vs)[k] == At(a);
    }
  }

  /** `vs[i] = std::move(vs[j])` on two distinct live handles. */
  method MoveAssignLive(store: FreeStore, vs: seq<Vehicle>, i: nat, j: nat)
    requires Live(store, vs) && Exclusive(Bodies(vs))
    requires i < |vs| && j < |vs| && i != j
    modifies vs[i], vs[j]
    ensures Live(store, vs) && Exclusive(Bodies(vs))
    ensures old(vs[i].body).At? ==>
      Leaked(store.cells, Bodies(vs)) == old(Leaked(store.cells, Bodies(vs))) + {old(vs[i].body).addr}
    ensures old(vs[i].body).Null? ==>
      Leaked(store.cells, Bodies(vs)) == old(Leaked(store.cells, Bodies(vs)))
  {
    ghost var before := Bodies(vs);
    vs[i].MoveAssign(store, vs[j]);
    forall k | 0 <= k < |vs| && k != i && k != j
      ensures vs[k].body == before[k] && vs[k].Valid(store)
    {
      assert vs[k] != vs[i] && vs[k] != vs[j];
    }
    assert Bodies(vs) == before[i := before[j]][j := Null];
    MoveAssignLeaks(store.cells, before, i, j);
  }

  /** `Vehicle v{std::move(vs[j])}`: the new handle joins the live ones. */
  method MoveConstructLive(store: FreeStore, vs: seq<Vehicle>, j: nat) returns (v: Vehicle)
    requires Live(store, vs) && Exclusive(Bodies(vs)) && j < |vs|
    modifies vs[j]
    ensures fresh(v)
    ensures Live(store, vs + [v]) && Exclusive(Bodies(vs + [v]))
    ensures Leaked(store.cells, Bodies(vs + [v])) == old(Leaked(store.cells, Bodies(vs)))
  {
    ghost var before := Bodies(vs);
    v := new Vehicle.MoveFrom(store, vs[j]);
    assert Bodies(vs + [v]) == before[j := Null] + [before[j]];
    MoveConstructKeepsOwnership(store.cells, before, j);
  }

  /** `Vehicle v{vs[j]}`: the copy joins the live ones. */
  method CopyConstructLive(store: FreeStore, vs: seq<Vehicle>, j: nat) returns (v: Vehicle)
    requires Live(store, vs) && Exclusive(Bodies(vs)) && j < |vs|
    requires !vs[j].View(store).MovedFrom?
    modifies store
    ensures fresh(v)
    ensures Live(store, vs + [v]) && Exclusive(Bodies(vs + [v]))
    ensures Leaked(store.cells, Bodies(vs + [v])) == old(Leaked(store.cells, Bodies(vs)))
  {
    ghost var before := Bodies(vs);
    ghost var cells := store.cells;
    OwnedAllocated(store, vs);
    v := new Vehicle.Copy(store, vs[j]);
    forall k | 0 <= k < |vs|
      ensures vs[k].body == before[k] && vs[k].Valid(store) && vs[k] != v
    {
      assert before[k].At? ==> before[k].addr in cells;
    }
    assert Bodies(vs + [v]) == before + [v.body];
    // The lemma reads its object argument only when the copy is non-null;
    // for an empty source the default boat is a placeholder, not an object.
    CopyKeepsOwnership(cells, before, v.body, if vs[j].body.At? then cells[vs[j].body.addr] else BoatObject(Fixture.DefaultBoat));
  }

  /** The destructor of `vs[i]`: that handle is no longer live. */
  method DestroyLive(store: FreeStore, vs: seq<Vehicle>, i: nat)
    requires Live(store, vs) && Exclusive(Bodies(vs)) && i < |vs|
    modifies store
    ensures Live(store, vs[..i] + vs[i + 1..]) && Exclusive(Bodies(vs[..i] + vs[i + 1..]))
    ensures Leaked(store.cells, Bodies(vs[..i] + vs[i + 1..])) == old(Leaked(store.cells, Bodies(vs)))
  {
    ghost var before := Bodies(vs);
    ghost var cells := store.cells;
    vs[i].Destroy(store);
    ghost var rest := vs[..i] + vs[i + 1..];
    forall k | 0 <= k < |rest|
      ensures rest[k].body == Without(before, i)[k] && rest[k].Valid(store)
    {
      var m := if k < i then k else k + 1;
      assert rest[k] == vs[m] && m != i;
      assert before[m].At? ==> before[m] != before[i];
    }
    assert Bodies(rest) == Without(before, i);
    DestroyKeepsLeaks(cells, before, i);
  }
}
