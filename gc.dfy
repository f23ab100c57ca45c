/** The arena behind the program's garbage-collected heap: objects are kept
    in a growing list of slots and are named by their slot index. */
module Gc {
  import opened Wrappers

  /** A handle is an index into the slot list. */
  type GcHandle = nat

  class Gc<T> {
    /** Handles of the root objects, in the order they were added. */
    var roots: seq<GcHandle>
    /** The slots; a freed slot would hold `None` (nothing frees one yet). */
    var data: seq<Option<T>>

    /** Every root names an existing slot. */
    ghost predicate Valid()
      reads this
    {
      forall i :: 0 <= i < |roots| ==> roots[i] < |data|
    }

    constructor ()
      ensures Valid()
      ensures roots == [] && data == []
    {
      roots := [];
      data := [];
    }

    /** Stores `obj` in a new slot at the end and returns its index. */
    method Add(obj: T) returns (h: GcHandle)
      requires Valid()
      modifies this
      ensures Valid()
      ensures h == |old(data)|
      ensures data == old(data) + [Some(obj)]
      ensures roots == old(roots)
    {
      data := data + [Some(obj)];
      h := |data| - 1;
    }

    /** Like `Add`, and also records the new handle as a root. */
    method AddRoot(obj: T) returns (h: GcHandle)
      requires Valid()
      modifies this
      ensures Valid()
      ensures h == |old(data)|
      ensures data == old(data) + [Some(obj)]
      ensures roots == old(roots) + [h]
    {
      h := Add(obj);
      roots := roots + [h];
    }
  }

  /** Two successive additions, root or not, give distinct handles, in
      increasing order, and leave the first object in its slot. */
  method AddTwice<T>(gc: Gc<T>, a: T, b: T, rootFirst: bool) returns (h1: GcHandle, h2: GcHandle)
    requires gc.Valid()
    modifies gc
    ensures gc.Valid()
    ensures h1 < h2 && h2 == h1 + 1
    ensures h2 < |gc.data| && gc.data[h1] == Some(a) && gc.data[h2] == Some(b)
  {
    if rootFirst {
      h1 := gc.AddRoot(a);
    } else {
      h1 := gc.Add(a);
    }
    h2 := gc.Add(b);
  }
}
