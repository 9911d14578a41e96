/**
 * The sample store: the DataManager component, a list of samples and the
 * cursor `current` that says which sample is shown.
 */
module Store {
  import opened Units

  /** `Random` applied to successive draws, starting at index `first`. */
  function Stamped(draws: seq<DroneUnit>, first: int): (r: seq<DroneUnit>)
    ensures |r| == |draws|
    ensures forall j :: 0 <= j < |r| ==> r[j].index == first + j
  {
    seq(|draws|, j requires 0 <= j < |draws| => Random(first + j, draws[j]))
  }

  class DataManager {
    /** `units`: every sample received so far, oldest first. */
    var units: seq<DroneUnit>
    /** `current`: the position in `units` of the sample on display. */
    var current: int

    /** A fresh component: no samples yet and the cursor at 0. */
    constructor ()
      ensures units == [] && current == 0
    {
      units := [];
      current := 0;
    }

    /**
     * The index the next appended sample gets: one more than the number of
     * samples, so with indices running from 1 no stored sample has it yet.
     */
    function NextIndex(): (n: int)
      reads this
      ensures n == |units| + 1
      ensures Indexed() ==> forall k :: 0 <= k < |units| ==> units[k].index < n
    {
      |units| + 1
    }

    /** Every sample's index is its position plus one (indices run 1, 2, 3, ...). */
    predicate Indexed()
      reads this
    {
      forall k :: 0 <= k < |units| ==> units[k].index == k + 1
    }

    /** The cursor names a sample. */
    predicate CursorInRange()
      reads this
    {
      0 <= current < |units|
    }

    /**
     * CurrentData: the sample under the cursor, defined only for a cursor in
     * range (otherwise the list indexer throws). With indices running from 1
     * its index is the cursor plus one.
     */
    function CurrentData(): (d: DroneUnit)
      reads this
      requires CursorInRange()
      ensures d in units
      ensures Indexed() ==> d.index == current + 1
    {
      units[current]
    }

    /**
     * Start: an empty store is seeded with one zeroed sample whose index is
     * NextIndex, that is 1; a store that already holds samples is left alone.
     * `now` is the clock reading in Unix seconds.
     */
    method Start(now: int)
      modifies this
      ensures old(units) == [] ==> units == [NewUnit(1, now)]
      ensures old(units) != [] ==> units == old(units)
      ensures current == old(current)
      ensures old(Indexed()) ==> Indexed()
      ensures old(units) == [] && current == 0 ==> CursorInRange()
    {
      if |units| == 0 {
        units := units + [NewUnit(NextIndex(), now)];
      }
    }

    /**
     * One pass of the AddFakeData loop body: append Random(NextIndex, last
     * sample) and advance the cursor by one. On an empty list reading the last
     * sample throws, which ends the generator; `ok` is false and nothing
     * changes.
     */
    method GenerateStep(drawn: DroneUnit) returns (ok: bool)
      modifies this
      ensures ok <==> old(units) != []
      ensures ok ==> units == old(units) + [Random(|old(units)| + 1, drawn)]
      ensures ok ==> current == old(current) + 1
      ensures !ok ==> units == old(units) && current == old(current)
      ensures old(Indexed()) ==> Indexed()
      ensures old(CursorInRange()) ==> CursorInRange()
      ensures old(current) == |old(units)| - 1 ==> current == |units| - 1
    {
      if |units| == 0 {
        return false;
      }
      units := units + [Random(NextIndex(), drawn)];
      current := current + 1;
      ok := true;
    }

    /**
     * The AddFakeData coroutine while `fakeData` stays set: one generator step
     * per timer fire, `draws` being what the generator drew at each fire.
     * Appended samples get the indices following the old length, and the
     * cursor moves by the number of samples appended.
     */
    method AddFakeData(draws: seq<DroneUnit>)
      modifies this
      ensures old(units) == [] ==> units == [] && current == old(current)
      ensures old(units) != [] ==> units == old(units) + Stamped(draws, |old(units)| + 1)
      ensures old(units) != [] ==> current == old(current) + |draws|
      ensures old(Indexed()) ==> Indexed()
      ensures old(CursorInRange()) ==> CursorInRange()
      ensures old(current) == |old(units)| - 1 ==> current == |units| - 1
    {
      var i := 0;
      while i < |draws|
        invariant 0 <= i <= |draws|
        invariant old(units) == [] ==> units == [] && current == old(current)
        invariant old(units) != [] ==> units == old(units) + Stamped(draws[..i], |old(units)| + 1)
        invariant old(units) != [] ==> current == old(current) + i
        invariant old(Indexed()) ==> Indexed()
        invariant old(CursorInRange()) ==> CursorInRange()
        invariant old(current) == |old(units)| - 1 ==> current == |units| - 1
      {
        var ok := GenerateStep(draws[i]);
        if !ok {
          return;
        }
        assert Stamped(draws[..i + 1], |old(units)| + 1)
            == Stamped(draws[..i], |old(units)| + 1) + [Random(|old(units)| + 1 + i, draws[i])];
        i := i + 1;
      }
      assert draws[..i] == draws;
    }

    /**
     * Clear: empties the list, then seeds it with one zeroed sample. NextIndex
     * is read after the list is emptied, so the seed's index is 1; the cursor
     * goes back to 0.
     */
    method Clear(now: int)
      modifies this
      ensures units == [NewUnit(1, now)] && current == 0
      ensures Indexed() && CursorInRange()
    {
      units := [];
      units := units + [NewUnit(NextIndex(), now)];
      current := 0;
    }
  }
}
