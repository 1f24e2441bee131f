/**
 * The set of tracked stops (`trackedStops`, backend/server.js line 15)
 * and its `trackStop` / `untrackStop` handlers (lines 59-65). A JavaScript
 * `Set` iterates in insertion order, and the poller walks it in that
 * order, so the registry keeps the insertion order as a sequence without
 * duplicates; `Stops()` is the set it stands for.
 */
module Stops {

  /** No stop id appears twice. */
  predicate Distinct(order: seq<string>)
  {
    forall i, j :: 0 <= i < j < |order| ==> order[i] != order[j]
  }

  /** The ids in `order`, as a set. */
  function Elements(order: seq<string>): set<string>
  {
    set x | x in order
  }

  /** `Set.prototype.add`: a new id goes last, a present one stays where it is. */
  function Added(order: seq<string>, stop: string): (r: seq<string>)
    ensures Distinct(order) ==> Distinct(r)
    ensures stop in order ==> r == order
    ensures stop !in order ==> r == order + [stop]
  {
    if stop in order then order else order + [stop]
  }

  /** `Set.prototype.delete`: the id is gone, the others keep their order. */
  function Removed(order: seq<string>, stop: string): (r: seq<string>)
    ensures forall x :: x in r <==> x in order && x != stop
    ensures stop !in order ==> r == order
  {
    if order == [] then []
    else if order[0] == stop then Removed(order[1..], stop)
    else [order[0]] + Removed(order[1..], stop)
  }

  /** Removing keeps the stops distinct. */
  lemma {:induction false} RemovedDistinct(order: seq<string>, stop: string)
    requires Distinct(order)
    ensures Distinct(Removed(order, stop))
  {
    if order != [] {
      RemovedDistinct(order[1..], stop);
      assert order[0] !in order[1..];
    }
  }

  /** Tracking adds exactly the tracked stop. */
  lemma AddedElements(order: seq<string>, stop: string)
    ensures Elements(Added(order, stop)) == Elements(order) + {stop}
  {
  }

  /** Untracking removes exactly the untracked stop, present or not. */
  lemma RemovedElements(order: seq<string>, stop: string)
    ensures Elements(Removed(order, stop)) == Elements(order) - {stop}
  {
  }

  /** Tracking twice is tracking once. */
  lemma AddedIdempotent(order: seq<string>, stop: string)
    ensures Added(Added(order, stop), stop) == Added(order, stop)
  {
  }

  /** Deleting distributes over concatenation, so the remaining ids keep their order. */
  lemma {:induction false} RemovedAppend(a: seq<string>, b: seq<string>, stop: string)
    ensures Removed(a + b, stop) == Removed(a, stop) + Removed(b, stop)
  {
    if a != [] {
      assert (a + b)[1..] == a[1..] + b;
      RemovedAppend(a[1..], b, stop);
    } else {
      assert a + b == b;
    }
  }

  /** Untracking a stop that sits between `before` and `after` leaves exactly `before + after`. */
  lemma RemovedMiddle(before: seq<string>, stop: string, after: seq<string>)
    requires stop !in before && stop !in after
    ensures Removed(before + [stop] + after, stop) == before + after
  {
    var middle := before + [stop];
    RemovedAppend(middle, after, stop);
    RemovedAppend(before, [stop], stop);
    assert [stop][1..] == [];
    assert Removed([stop], stop) == [];
    assert Removed(before, stop) == before;
    assert Removed(middle, stop) == before;
    assert Removed(after, stop) == after;
  }

  /** Untracking twice is untracking once. */
  lemma RemovedIdempotent(order: seq<string>, stop: string)
    ensures Removed(Removed(order, stop), stop) == Removed(order, stop)
  {
  }

  /**
   * Untracking then tracking tracks the same stops as tracking alone,
   * but puts the stop last in the polling order.
   */
  lemma UntrackThenTrack(order: seq<string>, stop: string)
    ensures Elements(Added(Removed(order, stop), stop)) == Elements(Added(order, stop))
    ensures Added(Removed(order, stop), stop) == Removed(order, stop) + [stop]
  {
  }

  class StopRegistry {
    /** The tracked stops, in the order the poller visits them. */
    var order: seq<string>

    ghost predicate Valid()
      reads this
    {
      Distinct(order)
    }

    /** The tracked stops, as a set. */
    function Stops(): set<string>
      reads this
    {
      Elements(order)
    }

    /** `new Set()`: nothing is tracked. */
    constructor ()
      ensures Valid() && order == [] && Stops() == {}
    {
      order := [];
    }

    /** The `trackStop` handler's update of the set (line 60). */
    method Track(stop: string)
      requires Valid()
      modifies this
      ensures Valid()
      ensures order == Added(old(order), stop)
      ensures Stops() == old(Stops()) + {stop}
    {
      if stop !in order {
        order := order + [stop];
      }
    }

    /** The `untrackStop` handler (line 64): no reference counting. */
    method Untrack(stop: string)
      requires Valid()
      modifies this
      ensures Valid()
      ensures order == Removed(old(order), stop)
      ensures Stops() == old(Stops()) - {stop}
    {
      RemovedDistinct(order, stop);
      order := Removed(order, stop);
    }
  }
}
