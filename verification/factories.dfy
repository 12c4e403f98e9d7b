/**
 * `HoleFactory` and `MoleFactory`: counters that hand out the IDs 1, 2, 3, ...
 * and file every new entity in its starting bucket of the factory's registry.
 */
module Factories {
  import opened Wrappers
  import opened Domain
  import opened Registry

  /** The IDs a factory has handed out after `n` calls. */
  function IdRange(n: int): set<int>
    decreases n
  {
    if n <= 0 then {} else IdRange(n - 1) + {n}
  }

  /** They are 1 to `n`, so there are `n` of them (none for a negative count). */
  lemma {:induction false} IdRangeMembers(n: int)
    ensures forall i :: i in IdRange(n) <==> 1 <= i <= n
    ensures |IdRange(n)| == Max(n, 0)
    decreases n
  {
    if n > 0 {
      IdRangeMembers(n - 1);
      assert n !in IdRange(n - 1);
    }
  }

  class HoleFactory {
    var holeId: int
    const holeSet: HoleSet

    /** The registry holds exactly the holes this factory has made. */
    ghost predicate Valid()
      reads this, holeSet
    {
      0 <= holeId && holeSet.available.Keys + holeSet.unavailable.Keys == IdRange(holeId)
    }

    /** `NewHoleFactory`: a counter at zero and an empty registry. */
    constructor ()
      ensures Valid() && fresh(holeSet) && holeId == 0
      ensures holeSet.available == map[] && holeSet.unavailable == map[]
    {
      holeId := 0;
      holeSet := new HoleSet();
    }

    /**
     * `NewHole`: the next ID, filed as an Unoccupied hole in Available. Filing
     * fails only if that ID is already in Available, which a valid factory rules out.
     */
    method NewHole() returns (r: Result<Hole, AddError>)
      modifies this, holeSet
      ensures holeId == old(holeId) + 1
      ensures old(holeId + 1 in holeSet.available) ==>
                r == Failure(AlreadyExists(holeId)) && holeSet.available == old(holeSet.available)
      ensures old(holeId + 1 !in holeSet.available) ==>
                && r == Success(Hole(holeId, Unoccupied, None))
                && holeSet.available == old(holeSet.available)[holeId := Hole(holeId, Unoccupied, None)]
      ensures holeSet.unavailable == old(holeSet.unavailable)
      ensures old(Valid()) ==> Valid() && r.Success? && holeSet.available == old(holeSet.available)[holeId := Hole(holeId, Unoccupied, None)]
    {
      if Valid() {
        IdRangeMembers(holeId);
      }
      holeId := holeId + 1;
      var h := Hole(holeId, Unoccupied, None);
      ghost var filed := holeSet.available.Keys + holeSet.unavailable.Keys;
      var err := holeSet.AddAvailable(h);
      if err.Some? {
        return Failure(err.value);
      }
      assert holeSet.available.Keys + holeSet.unavailable.Keys == filed + {holeId};
      return Success(h);
    }
  }

  class MoleFactory {
    var moleId: int
    const moleSet: MoleSet

    /** The registry holds exactly the moles this factory has made. */
    ghost predicate Valid()
      reads this, moleSet
    {
      0 <= moleId && moleSet.housed.Keys + moleSet.unhoused.Keys + moleSet.dead.Keys == IdRange(moleId)
    }

    /** `NewMoleFactory`: a counter at zero and an empty registry. */
    constructor ()
      ensures Valid() && fresh(moleSet) && moleId == 0
      ensures moleSet.housed == map[] && moleSet.unhoused == map[] && moleSet.dead == map[]
    {
      moleId := 0;
      moleSet := new MoleSet();
    }

    /**
     * `NewMole`: the next ID, filed as a Tunneling mole in Unhoused. Filing
     * fails only if that ID is already in Unhoused, which a valid factory rules out.
     */
    method NewMole() returns (r: Result<Mole, AddError>)
      modifies this, moleSet
      ensures moleId == old(moleId) + 1
      ensures old(moleId + 1 in moleSet.unhoused) ==>
                r == Failure(AlreadyExists(moleId)) && moleSet.unhoused == old(moleSet.unhoused)
      ensures old(moleId + 1 !in moleSet.unhoused) ==>
                && r == Success(Mole(moleId, TunnelingAlive, None))
                && moleSet.unhoused == old(moleSet.unhoused)[moleId := Mole(moleId, TunnelingAlive, None)]
      ensures moleSet.housed == old(moleSet.housed) && moleSet.dead == old(moleSet.dead)
      ensures old(Valid()) ==> Valid() && r.Success? && moleSet.unhoused == old(moleSet.unhoused)[moleId := Mole(moleId, TunnelingAlive, None)]
    {
      if Valid() {
        IdRangeMembers(moleId);
      }
      moleId := moleId + 1;
      var m := Mole(moleId, TunnelingAlive, None);
      ghost var filed := moleSet.housed.Keys + moleSet.unhoused.Keys + moleSet.dead.Keys;
      var err := moleSet.AddUnhoused(m);
      if err.Some? {
        return Failure(err.value);
      }
      assert moleSet.housed.Keys + moleSet.unhoused.Keys + moleSet.dead.Keys == filed + {moleId};
      return Success(m);
    }
  }
}
