/** Ownership across all live handles. A program state is the free store's
    cells together with the bodies of the live handles, in any order. Each
    handle operation acts on that sequence: the copy constructor appends a
    fresh body, the move constructor appends the source's body and nulls the
    source's, move assignment overwrites one body with another and nulls the
    source's, and destruction removes a handle and frees its object. */
module Ownership {
  import opened Storable
  import opened Heap

  /** The addresses owned by the live handles with the given bodies. */
  function Owned(bodies: seq<Ptr>): (r: set<nat>)
    ensures forall a :: a in r <==> At(a) in bodies
  {
    if bodies == [] then {}
    else (if bodies[0].At? then {bodies[0].addr} else {}) + Owned(bodies[1..])
  }

  /** No two live handles own the same object. */
  ghost predicate Exclusive(bodies: seq<Ptr>)
  {
    forall i, j :: 0 <= i < j < |bodies| && bodies[i].At? ==> bodies[i] != bodies[j]
  }

  /** Allocated objects that no live handle owns. */
  function Leaked(cells: map<nat, Object>, bodies: seq<Ptr>): set<nat>
  {
    cells.Keys - Owned(bodies)
  }

  /** The sequence of bodies with handle `i` gone. */
  function Without(bodies: seq<Ptr>, i: nat): (r: seq<Ptr>)
    requires i < |bodies|
    ensures |r| == |bodies| - 1
  {
    bodies[..i] + bodies[i + 1..]
  }

  /** The copy constructor's body is a fresh allocation (or null for an empty
      source): ownership stays exclusive and nothing new leaks. */
  lemma CopyKeepsOwnership(cells: map<nat, Object>, bodies: seq<Ptr>, p: Ptr, o: Object)
    requires Exclusive(bodies) && Owned(bodies) <= cells.Keys
    requires p.At? ==> p.addr !in cells
    ensures Exclusive(bodies + [p])
    ensures Leaked(if p.At? then cells[p.addr := o] else cells, bodies + [p]) == Leaked(cells, bodies)
  {
    var bodies' := bodies + [p];
    forall i, j | 0 <= i < j < |bodies'| && bodies'[i].At?
      ensures bodies'[i] != bodies'[j]
    {
      if j == |bodies| && p.At? {
        assert bodies[i] in bodies;
      }
    }
  }

  /** The move constructor hands the source's body to the new handle and
      nulls the source's: ownership stays exclusive and nothing leaks. */
  lemma MoveConstructKeepsOwnership(cells: map<nat, Object>, bodies: seq<Ptr>, j: nat)
    requires Exclusive(bodies) && j < |bodies|
    ensures Exclusive(bodies[j := Null] + [bodies[j]])
    ensures Leaked(cells, bodies[j := Null] + [bodies[j]]) == Leaked(cells, bodies)
  {
    var bodies' := bodies[j := Null] + [bodies[j]];
    forall a ensures At(a) in bodies' <==> At(a) in bodies {
      if At(a) in bodies {
        var k :| 0 <= k < |bodies| && bodies[k] == At(a);
        assert bodies'[if k == j then |bodies| else k] == At(a);
      }
    }
  }

  /** Move assignment of handle `j` onto handle `i` keeps ownership exclusive,
      and the object handle `i` owned before, if any, becomes leaked. */
  lemma MoveAssignLeaks(cells: map<nat, Object>, bodies: seq<Ptr>, i: nat, j: nat)
    requires Exclusive(bodies) && i < |bodies| && j < |bodies| && i != j
    ensures Exclusive(bodies[i := bodies[j]][j := Null])
    ensures bodies[i].At? && bodies[i].addr in cells ==>
      Leaked(cells, bodies[i := bodies[j]][j := Null]) == Leaked(cells, bodies) + {bodies[i].addr}
    ensures bodies[i].Null? ==>
      Leaked(cells, bodies[i := bodies[j]][j := Null]) == Leaked(cells, bodies)
  {
    var bodies' := bodies[i := bodies[j]][j := Null];
    forall a ensures At(a) in bodies' <==> At(a) in bodies && At(a) != bodies[i] {
      if At(a) in bodies && At(a) != bodies[i] {
        var k :| 0 <= k < |bodies| && bodies[k] == At(a);
        assert bodies'[if k == j then i else k] == At(a);
      }
    }
  }

  /** Destroying handle `i` frees the object it owns: what was leaked stays
      leaked and nothing new leaks. */
  lemma DestroyKeepsLeaks(cells: map<nat, Object>, bodies: seq<Ptr>, i: nat)
    requires Exclusive(bodies) && i < |bodies|
    ensures Exclusive(Without(bodies, i))
    ensures bodies[i].At? ==> Leaked(cells - {bodies[i].addr}, Without(bodies, i)) == Leaked(cells, bodies)
    ensures bodies[i].Null? ==> Leaked(cells, Without(bodies, i)) == Leaked(cells, bodies)
  {
    var bodies' := Without(bodies, i);
    forall a ensures At(a) in bodies' <==> At(a) in bodies && At(a) != bodies[i] {
      if At(a) in bodies && At(a) != bodies[i] {
        var k :| 0 <= k < |bodies| && bodies[k] == At(a);
        assert bodies'[if k < i then k else k - 1] == At(a);
      }
    }
  }
}
