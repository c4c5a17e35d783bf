/**
 * recipes/views.py, `pantry_toggle`, `pantry_clear` and the pantry migration in
 * `register`: a pantry is a set of ingredient ids that these views change in place.
 */
module Pantry {
  /** The response of `pantry_toggle`: the ingredient's new membership, or the 404 for an unknown id. */
  datatype ToggleResult = Toggled(inPantry: bool) | NotFound

  /** What `pantry_toggle` does to a pantry holding `items`, with `catalog` the ids of all
      ingredients: the new set and the response (views.py:192-203). */
  function ToggleOutcome(items: set<int>, catalog: set<int>, id: int, action: string): (r: (set<int>, ToggleResult))
    ensures id !in catalog ==> r == (items, NotFound)
    ensures id in catalog ==> r.1 == Toggled(id in r.0)
    ensures id in catalog && action == "add" ==> id in r.0
    ensures id in catalog && action == "toggle" ==> (id in r.0 <==> id !in items)
    ensures id in catalog && action != "add" && action != "toggle" ==> id !in r.0
    ensures forall x :: x != id ==> (x in r.0 <==> x in items)
  {
    if id !in catalog then (items, NotFound)
    else if action == "add" || (action == "toggle" && id !in items) then (items + {id}, Toggled(true))
    else (items - {id}, Toggled(false))
  }

  /** Toggling the same known ingredient twice gives the pantry back. */
  lemma ToggleTwice(items: set<int>, catalog: set<int>, id: int)
    ensures var once := ToggleOutcome(items, catalog, id, "toggle").0;
      ToggleOutcome(once, catalog, id, "toggle").0 == items
  {
    var once := ToggleOutcome(items, catalog, id, "toggle").0;
    var twice := ToggleOutcome(once, catalog, id, "toggle").0;
    assert forall x :: x in twice <==> x in items;
  }

  /** Adding is idempotent: a second "add" changes nothing. */
  lemma AddIdempotent(items: set<int>, catalog: set<int>, id: int)
    ensures var once := ToggleOutcome(items, catalog, id, "add").0;
      ToggleOutcome(once, catalog, id, "add") == ToggleOutcome(items, catalog, id, "add")
  {
    var once := ToggleOutcome(items, catalog, id, "add").0;
    assert id in catalog ==> once + {id} == once;
  }

  /** Some element of a non-empty set: the order in which the ORM lists a pantry's
      ingredients is left open. */
  method Choose<T>(s: set<T>) returns (x: T)
    requires s != {}
    ensures x in s
  {
    x :| x in s;
  }

  /** A user's or a session's `UserPantry`, reduced to its ingredient ids. */
  class UserPantry {
    var ingredients: set<int>

    /** A pantry as `get_or_create` makes it: empty. */
    constructor ()
      ensures ingredients == {}
    {
      ingredients := {};
    }

    /** `pantry_toggle` on this pantry. */
    method Toggle(catalog: set<int>, id: int, action: string) returns (r: ToggleResult)
      modifies this
      ensures (ingredients, r) == ToggleOutcome(old(ingredients), catalog, id, action)
    {
      if id !in catalog {
        return NotFound;
      }
      if action == "add" || (action == "toggle" && id !in ingredients) {
        ingredients := ingredients + {id};
        r := Toggled(true);
      } else {
        ingredients := ingredients - {id};
        r := Toggled(false);
      }
    }

    /** `pantry_clear`: empties the pantry and reports a count of 0. */
    method Clear() returns (count: nat)
      modifies this
      ensures ingredients == {} && count == 0
    {
      ingredients := {};
      count := 0;
    }

    /** The migration in `register` (views.py:434-438): every ingredient of the session's
        pantry is added to this one; without a session pantry nothing changes. */
    method MergeFrom(session: UserPantry?)
      modifies this
      ensures session == null ==> ingredients == old(ingredients)
      ensures session != null ==> ingredients == old(ingredients) + old(session.ingredients)
    {
      if session == null {
        return;
      }
      var items := session.ingredients;
      ghost var all := items;
      while items != {}
        invariant items <= all
        invariant ingredients == old(ingredients) + (all - items)
        decreases |items|
      {
        var x := Choose(items);
        ingredients := ingredients + {x};
        items := items - {x};
      }
    }
  }
}
