/** The operation tables of the type-erased handle: `null_vtable()` for the
    empty handle and one `vtable_for_type<T>()` per stored type. Each entry
    works on the handle's untyped body, which the typed table casts to `T*`. */
module VTables {
  import opened Storable
  import opened Heap
  import Fixture

  /** A table pointer. Each table is a function-local static singleton, so two
      table pointers are equal exactly when they name the same table. */
  datatype VTable = NullTable | ForType(tag: TypeTag)

  /** `cast<T>()` on `b` yields a valid `T*` for the table's type `T`. */
  ghost predicate Typed(cells: map<nat, Object>, t: VTable, b: Ptr)
  {
    t.ForType? && b.At? && b.addr in cells && TypeOf(cells[b.addr]) == t.tag
  }

  /** `vtable::clone`: the null table returns a null body; a typed table
      copy-constructs the object into a fresh allocation. */
  method TableClone(store: FreeStore, t: VTable, b: Ptr) returns (p: Ptr)
    requires store.Valid()
    requires t.ForType? ==> Typed(store.cells, t, b)
    modifies store
    ensures store.Valid()
    ensures t.NullTable? ==> p == Null && store.cells == old(store.cells)
    ensures t.ForType? ==> p.At? && p.addr !in old(store.cells)
    ensures t.ForType? ==> store.cells == old(store.cells)[p.addr := old(store.cells[b.addr])]
  {
    match t
    case NullTable =>
      p := Null;
    case ForType(_) =>
      var a := store.New(store.cells[b.addr]);
      p := At(a);
  }

  /** `vtable::move`: a no-op for the null table; otherwise the stored
      object's own `move`, applied in place. */
  method TableMove(store: FreeStore, t: VTable, b: Ptr, c: Fixture.Coordinates)
    requires store.Valid()
    requires t.ForType? ==> Typed(store.cells, t, b)
    modifies store
    ensures store.Valid()
    ensures t.NullTable? ==> store.cells == old(store.cells)
    ensures t.ForType? ==> store.cells == old(store.cells)[b.addr := Move(old(store.cells[b.addr]), c)]
  {
    match t
    case NullTable =>
    case ForType(_) =>
      store.Write(b.addr, Move(store.cells[b.addr], c));
  }

  /** `vtable::destroy`: a no-op for the null table; otherwise `delete` on the
      cast body, which does nothing for a null body. */
  method TableDestroy(store: FreeStore, t: VTable, b: Ptr)
    requires store.Valid()
    requires t.ForType? && b.At? ==> Typed(store.cells, t, b)
    modifies store
    ensures store.Valid()
    ensures t.ForType? && b.At? ==> store.cells == old(store.cells) - {b.addr}
    ensures t.NullTable? || b.Null? ==> store.cells == old(store.cells)
  {
    match t
    case NullTable =>
    case ForType(_) =>
      if b.At? {
        store.Delete(b.addr);
      }
  }

  /** `vtable::equal`: the null table answers true without looking at the
      bodies; a typed table compares the two objects with the type's `==`. */
  function TableEqual(cells: map<nat, Object>, t: VTable, x: Ptr, y: Ptr): (r: bool)
    requires t.ForType? ==> Typed(cells, t, x) && Typed(cells, t, y)
    ensures t.NullTable? ==> r
    ensures t.ForType? ==> (r <==> cells[x.addr] == cells[y.addr])
  {
    match t
    case NullTable => true
    case ForType(_) => Equal(cells[x.addr], cells[y.addr])
  }
}
