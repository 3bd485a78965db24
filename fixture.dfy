/** The fixture types the handle is exercised with: the argument of the
    domain operation and the `Boat` payload of the behavioural test. */
module Fixture {

  /** `coordinates`: where a vehicle is asked to go. */
  datatype Coordinates = Coordinates(x: int)

  /** `Boat`: a vehicle whose whole state is its position. */
  datatype Boat = Boat(pos: int)

  /** `Boat{}`: the position defaults to zero. */
  const DefaultBoat: Boat := Boat(0)

  /** `Boat::move`: the boat takes the x coordinate as its new position. */
  function Move(b: Boat, c: Coordinates): (r: Boat)
    ensures r.pos == c.x
  {
    b.(pos := c.x)
  }

  /** `operator==` on boats compares positions; since a boat is nothing but
      its position, this is exactly value equality. */
  function Equal(x: Boat, y: Boat): (r: bool)
    ensures r <==> x == y
  {
    x.pos == y.pos
  }
}

/** The types a handle can hold. Each constructor of `Object` is one concrete
    type `T` with which the handle's template constructor is instantiated;
    the program stores only `Boat`. */
module Storable {
  import Fixture

  datatype Object = BoatObject(boat: Fixture.Boat)

  /** The identity of a concrete type; one operation table exists per tag. */
  datatype TypeTag = BoatType

  function TypeOf(o: Object): TypeTag
  {
    match o
    case BoatObject(_) => BoatType
  }

  /** The domain operation of the stored type (`T::move`). */
  function Move(o: Object, c: Fixture.Coordinates): (r: Object)
    ensures TypeOf(r) == TypeOf(o)
    ensures o.BoatObject? ==> r.boat.pos == c.x
  {
    match o
    case BoatObject(b) => BoatObject(Fixture.Move(b, c))
  }

  /** The equality of the stored type (`T::operator==`), for two objects
      of the same type. */
  function Equal(x: Object, y: Object): (r: bool)
    requires TypeOf(x) == TypeOf(y)
    ensures r <==> x == y
  {
    match (x, y)
    case (BoatObject(a), BoatObject(b)) => Fixture.Equal(a, b)
  }
}
