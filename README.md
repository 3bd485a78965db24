# Type-erased `Vehicle` handle, modelled in Dafny

The program builds a polymorphic value handle, `v3::Vehicle`, without inheritance.
The handle has two fields:

- `body_` is an untyped address of a heap object.
- `vptr_` points to a statically shared operation table for the object's type.

Each table has four entries: `clone`, `move`, `destroy` and `equal`.
`null_vtable()` is the table of the empty handle. `vtable_for_type<T>()` is the table for a stored type `T`.
Construction and assignment rewrite the handle's two fields. Copying, `move(c)`, destruction and `==` dispatch through the table; the move constructor and move assignment do not call through it.

The model has the following parts:

- `Fixture` holds `coordinates` and the `Boat` payload: its `move` and its `==`.
- `Storable` models the types a handle can store. Each constructor of `Object` is one concrete type `T` (the program stores only `Boat`). `TypeTag` is the type's identity.
- `Heap` models the C++ free store as a `FreeStore` object. Its `cells` map addresses to live objects, and `new`/`delete` become `New`/`Delete`. `Ptr` is the `void*` body: `Null` or `At(addr)`.
- `VTables` models the tables. A table pointer is `NullTable | ForType(tag)`. There is one function-local static table per type, so pointer identity is tag equality. The entries are `TableClone`, `TableMove`, `TableDestroy` and `TableEqual`.
- `TypeErasure.Vehicle` is a class whose fields are `body` and `vptr`. Its constructors, assignments, destructor, `move` and comparisons update those fields and the free store as the C++ code does.
  - `Valid(store)` ties the fields to the store.
  - `View(store)` says what a handle stands for: `Empty`, `Holding(object)` or `MovedFrom(tag)`.
- `Ownership` states ownership over the sequence of bodies of all live handles. Ownership stays exclusive under copy, move and destruction. Move assignment leaks the target's previous object.
- `LiveHandles` runs each handle operation (`Copy`, `MoveFrom`, `MoveAssign`, `Destroy`) on a collection of distinct live `Vehicle` objects. From that operation's own contract, it proves the matching `Ownership` lemma's conclusion about the handles' actual bodies.
- `GenericTest` holds the `generic_test` scenarios. Destructors run at the end of each block, in reverse order of construction. Its `EmptyIsInert` is not a `generic_test` block: it exercises the null table's entries on an empty handle and runs no destructors, since an empty handle owns nothing.

The free store is a real object passed to every operation that reads or changes memory.
The move constructor and move assignment touch no memory, so they take it only as a ghost parameter.

Three behaviours of the code are easy to miss; the model follows the code:

- **Moved-from handles keep their table.** The move constructor and move assignment null the source's body but copy its table pointer without resetting it. A moved-from `Boat` handle therefore has a null body next to the `Boat` table. It is in state `MovedFrom`, not `Empty`.
  - Destroying a moved-from handle is harmless, because it deletes a null pointer.
  - Moving from a moved-from handle again dereferences nothing and is allowed.
  - Comparing it with a handle of the same type, copying it or calling `move(c)` on it dereferences null. Comparing it with an empty handle or a handle of another type is fine: the table pointers differ, so `equal` is never called. These are preconditions of `Equal`, `NotEqual`, `Copy`, `CopyAssign` and `Move`.
- **Move assignment does not destroy the target's previous object.** Copy assignment goes through move assignment, so it does not either. The previous object stays allocated with no owner.
  - `MoveAssign` and `CopyAssign` state this.
  - `Ownership.MoveAssignLeaks` proves it for the bodies of all live handles, and `LiveHandles.MoveAssignLive` establishes it for actual `Vehicle` objects.
  - `GenericTest.ReassignLeaks` and `GenericTest.AssignEmptyLeaks` show one object left allocated after every destructor has run.
- **The destructor does not reset the handle's fields.** A destroyed handle whose object was freed no longer satisfies `Valid`.

## Model

| member | source | states |
|---|---|---|
| `Fixture.Move` | slide_code.cc:281 | a boat's `move` sets its position to the x coordinate |
| `Fixture.Equal` | slide_code.cc:283-285 | a boat's `==` compares positions, and that is exactly value equality of boats |
| `Storable.Move` | slide_code.cc:281 | the stored type's `move` keeps the type and sets a boat's position to the x coordinate |
| `Storable.Equal` | slide_code.cc:283-285 | the stored type's `==` on two objects of one type holds iff the objects are equal values |
| `Heap.FreeStore.New` | slide_code.cc:175 | `new T(x)` puts `x` at an address no live object has, and changes no other object |
| `Heap.FreeStore.Delete` | slide_code.cc:243 | `delete` on a live address frees exactly that object |
| `Heap.FreeStore.Write` | slide_code.cc:241 | an in-place mutation of a live object replaces that object only |
| `VTables.TableClone` | slide_code.cc:237-239 | the typed `clone` copies the object into a fresh allocation, leaving every other object unchanged; the null table's `clone` (line 214) returns null and allocates nothing |
| `VTables.TableMove` | slide_code.cc:240-242 | the typed `move` applies the type's `move` to the handle's object in place, touching no other object; the null table's `move` (line 215) changes nothing |
| `VTables.TableDestroy` | slide_code.cc:243 | the typed `destroy` frees the object of a non-null body; on a null body, or through the null table (line 216), nothing is freed |
| `VTables.TableEqual` | slide_code.cc:244-246 | the typed `equal` holds iff the two objects are equal values; the null table's `equal` (lines 217-219) is always true |
| `TypeErasure.Vehicle.constructor` | slide_code.cc:171 | a default handle has a null body and the null table, and allocates nothing (default initialisers at lines 251-252) |
| `TypeErasure.Vehicle.FromValue` | slide_code.cc:173-175 | constructing from `x` allocates a fresh object equal to `x`, binds the table of `x`'s type and leaves the rest of the store unchanged |
| `TypeErasure.Vehicle.Copy` | slide_code.cc:177 | the copy keeps the source's table and value; a non-empty source gets a fresh, independent object, and an empty source gives a null body with no allocation; the source is unchanged |
| `TypeErasure.Vehicle.MoveFrom` | slide_code.cc:178-179 | the new handle takes the source's body and table and its value; the source's body becomes null while its table stays as it was, so a non-empty source becomes moved-from |
| `TypeErasure.Vehicle.MoveAssign` | slide_code.cc:186-190 | the target takes the source's body, table and value; the source's body becomes null and its table is kept; the target's previous object stays allocated and is no longer referenced; self-move changes nothing |
| `TypeErasure.Vehicle.CopyAssign` | slide_code.cc:181-185 | the target gets the source's table and value, in a fresh allocation when the source is non-empty (an empty source gives a null body and no allocation); the source keeps its value, also when it is the target; the target's previous object stays allocated |
| `TypeErasure.Vehicle.Destroy` | slide_code.cc:192 | the destructor frees the handle's object when its body is non-null, and otherwise frees nothing |
| `TypeErasure.Vehicle.Move` | slide_code.cc:194 | `move(c)` replaces the held object by its `move(c)` in place, changing no other object; on an empty handle it changes nothing |
| `TypeErasure.Vehicle.Equal` | slide_code.cc:196-198 | handles with different tables are unequal; otherwise the result is true iff the two handles stand for the same value (two empty handles are equal) |
| `TypeErasure.Vehicle.NotEqual` | slide_code.cc:200-202 | `!=` holds iff the two handles stand for different values, the negation of `==` |
| `Ownership.Owned` | slide_code.cc:251 | the addresses owned by a collection of live handles are exactly their non-null bodies |
| `Ownership.CopyKeepsOwnership` | slide_code.cc:177 | adding a copy keeps ownership exclusive and leaks nothing |
| `Ownership.MoveConstructKeepsOwnership` | slide_code.cc:178-179 | adding a handle move-constructed from another keeps ownership exclusive and leaks nothing |
| `Ownership.MoveAssignLeaks` | slide_code.cc:186-190 | move assignment between two distinct handles keeps ownership exclusive, and the target's previous live object joins the leaked objects (a self-move, which changes nothing, is not covered) |
| `Ownership.DestroyKeepsLeaks` | slide_code.cc:192 | destroying a handle keeps ownership exclusive and leaves the set of leaked objects as it was |
| `LiveHandles.Bodies` | slide_code.cc:251 | the sequence of bodies has one entry per handle, holding that handle's `body_` |
| `LiveHandles.OwnedAllocated` | slide_code.cc:251 | every address owned by a collection of valid handles is allocated in the free store |
| `LiveHandles.MoveAssignLive` | slide_code.cc:186-190 | `vs[i] = std::move(vs[j])` on two distinct live handles (`i != j`) keeps them live and ownership exclusive, and adds the target's previous object to the leaked objects |
| `LiveHandles.MoveConstructLive` | slide_code.cc:178-179 | a handle move-constructed from a live one joins the live handles; ownership stays exclusive and nothing new leaks |
| `LiveHandles.CopyConstructLive` | slide_code.cc:177 | a copy of a live handle joins the live handles; ownership stays exclusive and nothing new leaks |
| `LiveHandles.DestroyLive` | slide_code.cc:192 | destroying one live handle leaves the others live and ownership exclusive, and leaves the leaked objects as they were |
| `GenericTest.AssignThenMove` | slide_code.cc:313-324 | boats 1 and 2 compare unequal; after `v1 = v2` they are equal; after `v1.move({5})` they are unequal again |
| `GenericTest.ReassignLeaks` | slide_code.cc:294-298 | assigning a temporary boat onto a handle holding a boat leaves one object allocated after both destructors |
| `GenericTest.AssignEmptyLeaks` | slide_code.cc:300-305 | copy-assigning an empty handle empties the target and leaves its boat allocated |
| `GenericTest.MoveConstruct` | slide_code.cc:307-311 | after move construction, the source has a null body and still the `Boat` table; the target equals a separately built default boat (a comparison the block does not make); nothing is left allocated |
| `GenericTest.MoveAssignToEmpty` | slide_code.cc:331-335 | move-assigning a boat onto an empty handle leaves nothing allocated after both destructors |
| `GenericTest.EmptyIsInert` | slide_code.cc:212-222 | not a `generic_test` block: the null table's entries on an empty handle; `move` changes nothing, `==` with another empty handle is true, and a copy is empty with no allocation |

## Left out

- The rejected designs (the inheritance-based `bad::Vehicle` and the `v1`/`v2` handles) are not modelled. They only forward to virtual `clone`/`move` and have no equality.
- `cast<T>()` and the raw `static_cast` from `void*` are not modelled as operations. The predicate `VTables.Typed` states when such a cast is valid: the body is non-null, live and of the table's type.
- Payload types other than `Boat` are left out, because the program stores no other type in the handle. The compile-time requirements on a storable type are not modelled; `Object` lists the types that meet them.
- Allocation failure is not modelled: `FreeStore.New` always succeeds.
- Thread safety of the lazy initialisation of the function-local static tables is not modelled. It is a property of the C++ runtime, and the model has no concurrency.
- Uses that are undefined behaviour in C++ become preconditions: comparing a moved-from handle with a handle of the same type, copying a moved-from handle, calling `move(c)` on one, and using a handle after its destructor.
- The doctest harness, `main`, the unused `<chrono>` include and the empty-handle construct-and-destroy block are left out. The block `VehicleT v2 = std::move(v1)` uses the same move constructor as `GenericTest.MoveConstruct`.
- TypeErasure.Vehicle.Equal: the claim that the stored type's `==` is never called when the tables differ is not stated directly. It shows only in the precondition, which places no demand on the bodies when the tables differ.
