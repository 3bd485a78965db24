/** `v3::Vehicle`: a polymorphic value handle made of an untyped body and a
    pointer to the operation table of whatever type the body holds.
    Construction and assignment rewrite those two fields; copying, `move(c)`,
    destruction and `==` dispatch through the table. */
module TypeErasure {
  import opened Storable
  import opened Heap
  import opened VTables
  import Fixture

  /** What a handle stands for. `MovedFrom` is the state the move operations
      leave behind: a null body still paired with a typed table. */
  datatype HandleView = Empty | Holding(value: Object) | MovedFrom(tag: TypeTag)

  class Vehicle {
    var body: Ptr
    var vptr: VTable

    /** The handle's fields are consistent with the free store: the null
        table goes with a null body, and a non-null body is a live object of
        the table's type. A destroyed handle whose object was freed is not valid. */
    ghost predicate Valid(store: FreeStore)
      reads this, store
    {
      && store.Valid()
      && (vptr.NullTable? ==> body.Null?)
      && (body.At? ==> Typed(store.cells, vptr, body))
    }

    ghost function View(store: FreeStore): HandleView
      reads this, store
      requires Valid(store)
    {
      match body
      case At(a) => Holding(store.cells[a])
      case Null => if vptr.NullTable? then Empty else MovedFrom(vptr.tag)
    }

    /** `Vehicle() = default`: null body, null table, nothing allocated. */
    constructor ()
      ensures body == Null && vptr == NullTable
    {
      body := Null;
      vptr := NullTable;
    }

    /** `explicit Vehicle(T x)`: allocates a new `T` holding `x` and binds the
        table of `T`; the rest of the store is untouched. */
    constructor FromValue(store: FreeStore, x: Object)
      requires store.Valid()
      modifies store
      ensures Valid(store) && View(store) == Holding(x)
      ensures vptr == ForType(TypeOf(x))
      ensures body.At? && body.addr !in old(store.cells)
      ensures store.cells == old(store.cells)[body.addr := x]
    {
      var a := store.New(x);
      body := At(a);
      vptr := ForType(TypeOf(x));
    }

    /** `Vehicle(const Vehicle&)`: clones through the source's table and keeps
        the same table. A non-empty source gets an independent, freshly
        allocated equal object; an empty source yields a null body. */
    constructor Copy(store: FreeStore, x: Vehicle)
      requires x.Valid(store) && !x.View(store).MovedFrom?
      modifies store
      ensures Valid(store) && View(store) == old(x.View(store))
      ensures x.Valid(store) && x.View(store) == old(x.View(store))
      ensures vptr == x.vptr
      ensures x.body.Null? ==> body == Null && store.cells == old(store.cells)
      ensures x.body.At? ==> body.At? && body.addr !in old(store.cells)
      ensures x.body.At? ==> store.cells == old(store.cells)[body.addr := old(store.cells[x.body.addr])]
    {
      var p := TableClone(store, x.vptr, x.body);
      body := p;
      vptr := x.vptr;
    }

    /** `Vehicle(Vehicle&&)`: takes the source's body and table; the source's
        body becomes null but its table is left as it was, so a non-empty
        source ends up moved-from, not empty. No memory is touched. */
    constructor MoveFrom(ghost store: FreeStore, x: Vehicle)
      requires x.Valid(store)
      modifies x
      ensures body == old(x.body) && vptr == old(x.vptr)
      ensures x.body == Null && x.vptr == old(x.vptr)
      ensures Valid(store) && View(store) == old(x.View(store))
      ensures x.Valid(store)
      ensures x.View(store) == if x.vptr.NullTable? then Empty else MovedFrom(x.vptr.tag)
    {
      body := x.body;
      x.body := Null;
      vptr := x.vptr;
    }

    /** `operator=(Vehicle&&)`: takes the source's body and table and nulls
        the source's body, without destroying the payload this handle held
        before: that object stays allocated, owned by nobody. Moving a handle
        onto itself changes nothing. */
    method MoveAssign(ghost store: FreeStore, x: Vehicle)
      requires Valid(store) && x.Valid(store)
      modifies this, x
      ensures body == old(x.body) && vptr == old(x.vptr)
      ensures Valid(store) && View(store) == old(x.View(store))
      ensures x != this ==> x.body == Null && x.vptr == old(x.vptr) && x.Valid(store)
      ensures old(body).At? && old(body) != old(x.body) ==> old(body).addr in store.cells && body != old(body)
    {
      var b := x.body;
      x.body := Null;
      body := b;
      vptr := x.vptr;
    }

    /** `operator=(const Vehicle&)`: copies the source into a temporary, moves
        the temporary in, then destroys the moved-from temporary. The source
        keeps its value, also when it is this handle; the payload this handle
        held before is leaked as in the move assignment. */
    method CopyAssign(store: FreeStore, x: Vehicle)
      requires Valid(store) && x.Valid(store) && !x.View(store).MovedFrom?
      modifies this, store
      ensures Valid(store) && View(store) == old(x.View(store))
      ensures vptr == old(x.vptr)
      ensures x != this ==> x.body == old(x.body) && x.vptr == old(x.vptr)
      ensures x.Valid(store) && x.View(store) == old(x.View(store))
      ensures old(x.body).Null? ==> body == Null && store.cells == old(store.cells)
      ensures old(x.body).At? ==> body.At? && body.addr !in old(store.cells)
      ensures old(x.body).At? ==> store.cells == old(store.cells)[body.addr := old(store.cells[x.body.addr])]
      ensures old(body).At? ==> old(body).addr in store.cells
    {
      var tmp := new Vehicle.Copy(store, x);
      MoveAssign(store, tmp);
      tmp.Destroy(store);
    }

    /** `~Vehicle()`: destroys through the table. The object a non-null body
        points to is freed; the handle's own fields are not reset. */
    method Destroy(store: FreeStore)
      requires Valid(store)
      modifies store
      ensures store.Valid()
      ensures body.At? ==> store.cells == old(store.cells) - {body.addr}
      ensures body.Null? ==> store.cells == old(store.cells)
    {
      TableDestroy(store, vptr, body);
    }

    /** `move(coordinates)`: the stored object's own `move`, in place, touching
        no other object; a no-op on an empty handle. */
    method Move(store: FreeStore, c: Fixture.Coordinates)
      requires Valid(store) && !View(store).MovedFrom?
      modifies store
      ensures Valid(store)
      ensures old(View(store)).Empty? ==> View(store) == Empty && store.cells == old(store.cells)
      ensures old(View(store)).Holding? ==> View(store) == Holding(Storable.Move(old(View(store)).value, c))
      ensures body.At? ==> store.cells == old(store.cells)[body.addr := Storable.Move(old(store.cells[body.addr]), c)]
    {
      TableMove(store, vptr, body, c);
    }

    /** `operator==`: handles with different tables are unequal and no
        object is looked at; with the same table the table's `equal` decides.
        The result is value equality of what the two handles stand for. */
    static function Equal(store: FreeStore, x: Vehicle, y: Vehicle): (r: bool)
      reads x, y, store
      requires x.Valid(store) && y.Valid(store)
      requires x.vptr == y.vptr ==> !x.View(store).MovedFrom? && !y.View(store).MovedFrom?
      ensures x.vptr != y.vptr ==> !r
      ensures r <==> x.View(store) == y.View(store)
    {
      x.vptr == y.vptr && TableEqual(store.cells, x.vptr, x.body, y.body)
    }

    /** `operator!=`: the negation of `==`. */
    static function NotEqual(store: FreeStore, x: Vehicle, y: Vehicle): (r: bool)
      reads x, y, store
      requires x.Valid(store) && y.Valid(store)
      requires x.vptr == y.vptr ==> !x.View(store).MovedFrom? && !y.View(store).MovedFrom?
      ensures r <==> x.View(store) != y.View(store)
    {
      !Equal(store, x, y)
    }
  }
}
