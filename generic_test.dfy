/** The scenarios of `generic_test` run on `v3::Vehicle`. Destructors run at
    the end of each block in reverse order of construction, as in C++; each
    scenario reports what its `REQUIRE`s check, or what is left in the free
    store once every handle is gone. */
module GenericTest {
  import opened Storable
  import opened Heap
  import opened VTables
  import opened TypeErasure
  import Fixture

  /** Two boats at different positions compare unequal; after a copy
      assignment they compare equal; moving one of them makes them unequal
      again, so the copy is independent of its source. */
  method AssignThenMove() returns (before: bool, afterAssign: bool, afterMove: bool)
    ensures before && afterAssign && afterMove
  {
    var store := new FreeStore();
    var v1 := new Vehicle.FromValue(store, BoatObject(Fixture.Boat(1)));
    var v2 := new Vehicle.FromValue(store, BoatObject(Fixture.Boat(2)));
    before := Vehicle.NotEqual(store, v1, v2);
    v1.CopyAssign(store, v2);
    afterAssign := Vehicle.Equal(store, v1, v2);
    v1.Move(store, Fixture.Coordinates(5));
    afterMove := Vehicle.NotEqual(store, v1, v2);
    v2.Destroy(store);
    v1.Destroy(store);
  }

  /** Assigning a fresh temporary onto a handle that holds a boat leaks the
      first boat: one object is still allocated after every destructor ran. */
  method ReassignLeaks() returns (live: nat)
    ensures live == 1
  {
    var store := new FreeStore();
    var v := new Vehicle.FromValue(store, BoatObject(Fixture.DefaultBoat));
    var first := v.body.addr;
    var tmp := new Vehicle.FromValue(store, BoatObject(Fixture.DefaultBoat));
    v.MoveAssign(store, tmp);
    tmp.Destroy(store);
    v.Destroy(store);
    assert store.cells.Keys == {first};
    live := |store.cells|;
  }

  /** Copy-assigning an empty handle onto one that holds a boat empties the
      target and leaks its boat. */
  method AssignEmptyLeaks() returns (targetEmpty: bool, live: nat)
    ensures targetEmpty && live == 1
  {
    var store := new FreeStore();
    var v1 := new Vehicle.FromValue(store, BoatObject(Fixture.DefaultBoat));
    var first := v1.body.addr;
    var v2 := new Vehicle();
    v1.CopyAssign(store, v2);
    targetEmpty := v1.body == Null && v1.vptr == NullTable;
    v2.Destroy(store);
    v1.Destroy(store);
    assert store.cells.Keys == {first};
    live := |store.cells|;
  }

  /** Move construction: the new handle holds the boat, while the source keeps
      the boat's table next to its null body, so it is not an empty handle.
      Destroying both frees the boat exactly once. The comparison with a
      third handle holding an equal boat is added here; the block itself
      compares nothing. */
  method MoveConstruct() returns (sourceBody: Ptr, sourceTable: VTable, targetHolds: bool, live: nat)
    ensures sourceBody == Null && sourceTable == ForType(BoatType)
    ensures targetHolds && live == 0
  {
    var store := new FreeStore();
    var v1 := new Vehicle.FromValue(store, BoatObject(Fixture.DefaultBoat));
    var v2 := new Vehicle.MoveFrom(store, v1);
    sourceBody, sourceTable := v1.body, v1.vptr;
    var original := new Vehicle.FromValue(store, BoatObject(Fixture.DefaultBoat));
    targetHolds := Vehicle.Equal(store, v2, original);
    original.Destroy(store);
    v2.Destroy(store);
    v1.Destroy(store);
    live := |store.cells|;
  }

  /** Move-assigning a boat onto an empty handle leaks nothing. */
  method MoveAssignToEmpty() returns (live: nat)
    ensures live == 0
  {
    var store := new FreeStore();
    var v1 := new Vehicle.FromValue(store, BoatObject(Fixture.DefaultBoat));
    var v2 := new Vehicle();
    v2.MoveAssign(store, v1);
    v2.Destroy(store);
    v1.Destroy(store);
    live := |store.cells|;
  }

  /** Not a block of `generic_test`: the null table's entries exercised on an
      empty handle. Moving it does nothing, it equals a freshly
      default-constructed handle, and its copy is empty. No destructors are
      run: an empty handle owns nothing, so they would free nothing. */
  method EmptyIsInert() returns (stillEmpty: bool, equalsFresh: bool, copyEmpty: bool)
    ensures stillEmpty && equalsFresh && copyEmpty
  {
    var store := new FreeStore();
    var v := new Vehicle();
    v.Move(store, Fixture.Coordinates(7));
    stillEmpty := v.body == Null && v.vptr == NullTable;
    var other := new Vehicle();
    equalsFresh := Vehicle.Equal(store, v, other);
    var copy := new Vehicle.Copy(store, v);
    copyEmpty := copy.body == Null && copy.vptr == NullTable && |store.cells| == 0;
  }
}
