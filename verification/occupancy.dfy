/**
 * The entity operations of the arena, on the shared registries: `Hole.TryOccupy`,
 * `Hole.Free`, `Hole.TryWhack`, `Mole.Tunnel`, `Mole.ToggleState`,
 * `Mole.TryWhack`, `Mole.GetAvailableHole` and `Mole.TryOccupy`.
 *
 * A Go method on a `*Hole` or `*Mole` becomes a method on the two registries
 * taking the entity's ID. A write to a field of the shared entity is a write
 * to the record filed under that ID; where the engine files a pointer and then
 * updates the entity it points to, the model files the updated record. Each
 * method is proved against the transition of the arena it performs.
 */
module Occupancy {
  import opened Wrappers
  import opened Domain
  import opened Registry

  /**
   * `Hole.TryOccupy`: an Occupied hole refuses the mole and nothing changes;
   * otherwise the hole moves to Unavailable, the mole to Housed, the two are
   * linked and become Occupied and Hiding.
   */
  method HoleTryOccupy(hs: HoleSet, ms: MoleSet, h: int, m: int) returns (ok: bool)
    requires Consistent(Snapshot(hs, ms)) && h in HoleIds(Snapshot(hs, ms)) && m in ms.unhoused
    modifies hs, ms
    ensures ok <==> old(h in hs.available)
    ensures Snapshot(hs, ms) == if ok then Occupy(old(Snapshot(hs, ms)), h, m) else old(Snapshot(hs, ms))
    ensures Consistent(Snapshot(hs, ms))
  {
    ghost var b := Snapshot(hs, ms);
    var hole := hs.GetHole(h).value;
    HoleStateMatchesBucket(b, h);
    if hole.state == Occupied {
      return false;
    }
    var mole := ms.unhoused[m];
    hs.RemoveAvailable(h);
    var _ := hs.AddUnavailable(hole.(state := Occupied, occupant := Some(m)));
    ms.RemoveUnhoused(m);
    var _ := ms.AddHoused(mole.(state := HidingAlive, hole := Some(h)));
    OccupyKeepsConsistent(b, h, m);
    return true;
  }

  /**
   * `Hole.Free` on a hole whose occupant is alive: the hole goes back to
   * Available and Unoccupied, the mole back to Unhoused and Tunneling, and
   * both links are cleared.
   */
  method HoleFree(hs: HoleSet, ms: MoleSet, h: int)
    requires Consistent(Snapshot(hs, ms)) && Freeable(Snapshot(hs, ms), h)
    modifies hs, ms
    ensures Snapshot(hs, ms) == Free(old(Snapshot(hs, ms)), h)
    ensures Consistent(Snapshot(hs, ms))
  {
    ghost var b := Snapshot(hs, ms);
    var hole := hs.unavailable[h];
    var m := hole.occupant.value;
    var mole := ms.housed[m];
    var _ := hs.AddAvailable(hole.(state := Unoccupied, occupant := None));
    hs.RemoveUnavailable(h);
    var _ := ms.AddUnhoused(mole.(state := TunnelingAlive, hole := None));
    ms.RemoveHoused(m);
    FreeKeepsConsistent(b, h);
  }

  /**
   * `Mole.TryWhack`: only an Exposed mole is hit; it moves from Housed to Dead
   * and keeps its hole. Any other mole is left as it is.
   */
  method MoleTryWhack(ghost hs: HoleSet, ms: MoleSet, m: int) returns (ok: bool)
    requires Consistent(Snapshot(hs, ms)) && m in MoleIds(Snapshot(hs, ms))
    modifies ms
    ensures ok <==> old(MoleAt(Snapshot(hs, ms), m)).value.state == ExposedAlive
    ensures Snapshot(hs, ms) == if ok then Kill(old(Snapshot(hs, ms)), m) else old(Snapshot(hs, ms))
    ensures Consistent(Snapshot(hs, ms))
  {
    ghost var b := Snapshot(hs, ms);
    var mole := ms.Find(m).value;
    if mole.state != ExposedAlive {
      return false;
    }
    ms.RemoveHoused(m);
    var _ := ms.AddDead(mole.(state := Dead));
    KillKeepsConsistent(b, m);
    return true;
  }

  /**
   * `Hole.TryWhack`: an empty hole is a miss; an occupied one passes the whack
   * on to its occupant, a hit when the occupant is Exposed and a near miss
   * otherwise.
   */
  method HoleTryWhack(hs: HoleSet, ms: MoleSet, h: int) returns (hit: bool, reply: WhackReply)
    requires Consistent(Snapshot(hs, ms)) && h in HoleIds(Snapshot(hs, ms))
    modifies ms
    ensures Whacked(Snapshot(hs, ms), hit, reply) == WhackHole(old(Snapshot(hs, ms)), h)
    ensures Consistent(Snapshot(hs, ms))
  {
    ghost var b := Snapshot(hs, ms);
    var hole := hs.GetHole(h).value;
    HoleStateMatchesBucket(b, h);
    if hole.state == Unoccupied {
      return false, Whiff;
    }
    assert Seated(b, h, hole.occupant.value);
    var ok := MoleTryWhack(hs, ms, hole.occupant.value);
    if ok {
      return true, Bonked;
    }
    return false, Laughing;
  }

  /** `Mole.ToggleState`: Hiding and Exposed swap; a Tunneling or Dead mole is left as it is. */
  method MoleToggleState(ghost hs: HoleSet, ms: MoleSet, m: int)
    requires Consistent(Snapshot(hs, ms)) && m in MoleIds(Snapshot(hs, ms))
    modifies ms
    ensures Snapshot(hs, ms) == Toggle(old(Snapshot(hs, ms)), m)
    ensures Consistent(Snapshot(hs, ms))
  {
    ghost var b := Snapshot(hs, ms);
    ToggleKeepsConsistent(b, m);
    var mole := ms.Find(m).value;
    match mole.state
    case HidingAlive =>
      ms.Rewrite(mole.(state := ExposedAlive));
    case ExposedAlive =>
      ms.Rewrite(mole.(state := HidingAlive));
    case _ =>
      ToggleOnlyHoused(b, m);
  }

  /**
   * `Mole.GetAvailableHole`: no hole for a dead mole or when none is
   * Available; otherwise some Available hole, which one being unspecified.
   */
  method GetAvailableHole(hs: HoleSet, ms: MoleSet, m: int) returns (h: Option<int>)
    requires ms.Find(m).Some?
    ensures h.None? <==> ms.Find(m).value.state == Dead || hs.available == map[]
    ensures h.Some? ==> h.value in hs.available
  {
    if ms.Find(m).value.state == Dead {
      return None;
    }
    if |hs.available| < 1 {
      assert hs.available.Keys == {};
      return None;
    }
    HasElement(hs.available.Keys);
    var k :| k in hs.available;
    return Some(k);
  }

  /**
   * `Mole.TryOccupy` for a Tunneling mole: it takes some Available hole if
   * there is one; `pick` names the hole chosen.
   */
  method MoleTryOccupy(hs: HoleSet, ms: MoleSet, m: int) returns (ok: bool, ghost pick: int)
    requires Consistent(Snapshot(hs, ms)) && m in ms.unhoused
    modifies hs, ms
    ensures ok <==> old(hs.available) != map[]
    ensures ok ==> pick in old(hs.available)
    ensures Snapshot(hs, ms) == if ok then Occupy(old(Snapshot(hs, ms)), pick, m) else old(Snapshot(hs, ms))
    ensures Consistent(Snapshot(hs, ms))
  {
    var h := GetAvailableHole(hs, ms, m);
    if h.None? {
      return false, 0;
    }
    ok := HoleTryOccupy(hs, ms, h.value, m);
    pick := h.value;
  }

  /**
   * `Mole.Tunnel` for a living mole: it leaves its hole, if it has one, and
   * then takes some Available hole if there is one; `pick` names the hole
   * chosen. A mole that was housed always finds a hole: the one it left.
   */
  method MoleTunnel(hs: HoleSet, ms: MoleSet, m: int) returns (ghost pick: int)
    requires Consistent(Snapshot(hs, ms)) && (m in ms.housed || m in ms.unhoused)
    modifies hs, ms
    ensures Snapshot(hs, ms) == TunnelTo(old(Snapshot(hs, ms)), m, pick)
    ensures m in ms.housed <==> old(m in ms.housed) || old(hs.available) != map[]
    ensures m in ms.housed ==> pick in Vacated(old(Snapshot(hs, ms)), m).available && ms.housed[m].state == HidingAlive
    ensures Consistent(Snapshot(hs, ms))
  {
    ghost var b := Snapshot(hs, ms);
    var mole := ms.Find(m).value;
    if mole.hole.Some? {
      assert Seated(b, mole.hole.value, m);
      HoleFree(hs, ms, mole.hole.value);
    }
    assert Snapshot(hs, ms) == Vacated(b, m);
    var tunneling := ms.Find(m).value.(state := TunnelingAlive);
    assert ms.unhoused[m := tunneling] == ms.unhoused;
    ms.Rewrite(tunneling);
    var ok;
    ok, pick := MoleTryOccupy(hs, ms, m);
  }
}
