/** The free store that `new` and `delete` act on, and untyped addresses into it. */
module Heap {
  import opened Storable

  /** A `void*` payload address: null, or the address of a heap object. */
  datatype Ptr = Null | At(addr: nat)

  /** The heap objects currently allocated, by address. `next` is the
      allocator's state: every address at or above it is unused. */
  class FreeStore {
    var cells: map<nat, Object>
    var next: nat

    ghost predicate Valid()
      reads this
    {
      forall a :: a in cells ==> a < next
    }

    constructor ()
      ensures Valid() && cells == map[]
    {
      cells := map[];
      next := 0;
    }

    /** `new T(o)`: a fresh address now holds `o`; nothing else changes. */
    method New(o: Object) returns (a: nat)
      requires Valid()
      modifies this
      ensures Valid()
      ensures a !in old(cells) && cells == old(cells)[a := o]
    {
      a := next;
      cells := cells[a := o];
      next := next + 1;
    }

    /** `delete p` for a non-null `p`: the object at `a` is freed. */
    method Delete(a: nat)
      requires Valid() && a in cells
      modifies this
      ensures Valid() && next == old(next)
      ensures cells == old(cells) - {a}
    {
      cells := cells - {a};
    }

    /** An in-place mutation of the live object at `a`. */
    method Write(a: nat, o: Object)
      requires Valid() && a in cells
      modifies this
      ensures Valid() && next == old(next)
      ensures cells == old(cells)[a := o]
    {
      cells := cells[a := o];
    }
  }
}
