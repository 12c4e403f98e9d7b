/**
 * The arena as a value: the buckets of the hole registry and of the mole
 * registry, the records filed in them, the invariant that links holes and
 * moles, and the transitions the engine applies to them.
 *
 * In the engine every bucket is a map from ID to a shared pointer whose ID is
 * the key, so a bucket is modelled as a map from ID to the entity's record,
 * and the pointers `OccupyingMole` and `HoleOccupied` become optional IDs.
 */
module Domain {
  import opened Wrappers

  datatype HoleState = Unoccupied | Occupied

  datatype MoleState = TunnelingAlive | HidingAlive | ExposedAlive | Dead

  /** A hole; `occupant` is the ID of the mole inside it, if any. */
  datatype Hole = Hole(id: int, state: HoleState, occupant: Option<int>)

  /** A mole; `hole` is the ID of the hole it sits in, if any. */
  datatype Mole = Mole(id: int, state: MoleState, hole: Option<int>)

  /** Both registries: the hole buckets and the mole buckets. */
  datatype Board = Board(
    available: map<int, Hole>,
    unavailable: map<int, Hole>,
    housed: map<int, Mole>,
    unhoused: map<int, Mole>,
    dead: map<int, Mole>)

  function HoleIds(b: Board): set<int> { b.available.Keys + b.unavailable.Keys }

  function MoleIds(b: Board): set<int> { b.housed.Keys + b.unhoused.Keys + b.dead.Keys }

  /** The record of mole `m`, in whichever bucket it is filed. */
  function MoleAt(b: Board, m: int): (r: Option<Mole>)
    ensures r.Some? <==> m in MoleIds(b)
  {
    if m in b.housed then Some(b.housed[m])
    else if m in b.unhoused then Some(b.unhoused[m])
    else if m in b.dead then Some(b.dead[m])
    else None
  }

  /** The number of living moles, housed or not, and the number of dead ones. */
  function Census(b: Board): (int, int) {
    (|b.housed| + |b.unhoused|, |b.dead|)
  }

  // ---------------------------------------------------------------------------
  // The invariant
  // ---------------------------------------------------------------------------

  ghost predicate HolesKeyed(m: map<int, Hole>) { forall k :: k in m ==> m[k].id == k }

  ghost predicate MolesKeyed(m: map<int, Mole>) { forall k :: k in m ==> m[k].id == k }

  /** Hole `h` holds mole `m`, and `m` (alive or dead) points back to `h`. */
  ghost predicate Seated(b: Board, h: int, m: int) {
    && h in b.unavailable
    && b.unavailable[h].occupant == Some(m)
    && ((m in b.housed && b.housed[m].hole == Some(h)) || (m in b.dead && b.dead[m].hole == Some(h)))
  }

  /**
   * Every record is filed under its own ID, the buckets of each registry are
   * disjoint, a hole is Occupied exactly when it is Unavailable and then its
   * occupant points back to it, housed moles are Hiding or Exposed and seated,
   * unhoused moles are Tunneling with no hole, and dead moles stay seated in the
   * hole they were killed in.
   */
  ghost predicate Consistent(b: Board) {
    && HolesKeyed(b.available) && HolesKeyed(b.unavailable)
    && MolesKeyed(b.housed) && MolesKeyed(b.unhoused) && MolesKeyed(b.dead)
    && b.available.Keys !! b.unavailable.Keys
    && b.housed.Keys !! b.unhoused.Keys
    && b.housed.Keys !! b.dead.Keys
    && b.unhoused.Keys !! b.dead.Keys
    && (forall h :: h in b.available ==>
          b.available[h].state == Unoccupied && b.available[h].occupant == None)
    && (forall h :: h in b.unavailable ==>
          && b.unavailable[h].state == Occupied
          && b.unavailable[h].occupant.Some?
          && Seated(b, h, b.unavailable[h].occupant.value))
    && (forall m :: m in b.housed ==>
          && (b.housed[m].state == HidingAlive || b.housed[m].state == ExposedAlive)
          && b.housed[m].hole.Some?
          && Seated(b, b.housed[m].hole.value, m))
    && (forall m :: m in b.unhoused ==>
          b.unhoused[m].state == TunnelingAlive && b.unhoused[m].hole == None)
    && (forall m :: m in b.dead ==>
          && b.dead[m].state == Dead
          && b.dead[m].hole.Some?
          && Seated(b, b.dead[m].hole.value, m))
  }

  /** A hole's occupancy agrees with its bucket and with its occupant link. */
  lemma HoleStateMatchesBucket(b: Board, h: int)
    requires Consistent(b) && h in HoleIds(b)
    ensures var hole := if h in b.available then b.available[h] else b.unavailable[h];
            && (hole.state == Occupied <==> h in b.unavailable)
            && (hole.state == Occupied <==> hole.occupant.Some?)
  {
  }

  // ---------------------------------------------------------------------------
  // Transitions
  // ---------------------------------------------------------------------------

  /** `Hole.TryOccupy` when the hole is free: file both under their new buckets and link them. */
  function Occupy(b: Board, h: int, m: int): (r: Board)
    requires h in b.available && m in b.unhoused
    ensures Seated(r, h, m)
    ensures m in r.housed && r.unavailable[h].state == Occupied && r.housed[m].state == HidingAlive
    ensures h !in r.available && m !in r.unhoused && r.dead == b.dead
    ensures HoleIds(r) == HoleIds(b) && MoleIds(r) == MoleIds(b)
  {
    b.(available := b.available - {h},
       unavailable := b.unavailable[h := b.available[h].(state := Occupied, occupant := Some(m))],
       unhoused := b.unhoused - {m},
       housed := b.housed[m := b.unhoused[m].(state := HidingAlive, hole := Some(h))])
  }

  /** The hole is Occupied by a living mole: the precondition of `Hole.Free`. */
  ghost predicate Freeable(b: Board, h: int) {
    h in b.unavailable && b.unavailable[h].occupant.Some? && b.unavailable[h].occupant.value in b.housed
  }

  /** `Hole.Free`: the hole goes back to Available, its occupant back to Unhoused, both unlinked. */
  function Free(b: Board, h: int): (r: Board)
    requires Freeable(b, h)
    ensures h in r.available && h !in r.unavailable
    ensures r.available[h].state == Unoccupied && r.available[h].occupant == None
    ensures var m := b.unavailable[h].occupant.value;
            m in r.unhoused && m !in r.housed && r.unhoused[m].state == TunnelingAlive && r.unhoused[m].hole == None
    ensures r.dead == b.dead
    ensures HoleIds(r) == HoleIds(b) && MoleIds(r) == MoleIds(b)
  {
    var m := b.unavailable[h].occupant.value;
    b.(available := b.available[h := b.unavailable[h].(state := Unoccupied, occupant := None)],
       unavailable := b.unavailable - {h},
       unhoused := b.unhoused[m := b.housed[m].(state := TunnelingAlive, hole := None)],
       housed := b.housed - {m})
  }

  /** `Mole.ToggleState` on a state: Hiding and Exposed swap, the other states stay. */
  function Toggled(s: MoleState): (r: MoleState)
    ensures (s == HidingAlive <==> r == ExposedAlive) && (s == ExposedAlive <==> r == HidingAlive)
    ensures (s == TunnelingAlive <==> r == TunnelingAlive) && (s == Dead <==> r == Dead)
  {
    match s
    case HidingAlive => ExposedAlive
    case ExposedAlive => HidingAlive
    case _ => s
  }

  /** `Mole.ToggleState` on the record of mole `m`, wherever it is filed. */
  function Toggle(b: Board, m: int): (r: Board)
    ensures MoleIds(r) == MoleIds(b) && r.housed.Keys == b.housed.Keys
    ensures r.unhoused.Keys == b.unhoused.Keys && r.dead.Keys == b.dead.Keys
    ensures r.available == b.available && r.unavailable == b.unavailable
  {
    if m in b.housed then b.(housed := b.housed[m := b.housed[m].(state := Toggled(b.housed[m].state))])
    else if m in b.unhoused then b.(unhoused := b.unhoused[m := b.unhoused[m].(state := Toggled(b.unhoused[m].state))])
    else if m in b.dead then b.(dead := b.dead[m := b.dead[m].(state := Toggled(b.dead[m].state))])
    else b
  }

  /** The success branch of `Mole.TryWhack`: the mole moves from Housed to Dead and keeps its hole. */
  function Kill(b: Board, m: int): (r: Board)
    requires m in b.housed
    ensures m !in r.housed && m in r.dead && r.dead[m].state == Dead && r.dead[m].hole == b.housed[m].hole
    ensures r.available == b.available && r.unavailable == b.unavailable && r.unhoused == b.unhoused
    ensures MoleIds(r) == MoleIds(b)
  {
    b.(housed := b.housed - {m}, dead := b.dead[m := b.housed[m].(state := Dead)])
  }

  datatype WhackReply = Whiff | Bonked | Laughing

  datatype Whacked = Whacked(board: Board, hit: bool, reply: WhackReply)

  /**
   * `Hole.TryWhack`: a miss on an empty hole, a kill when the occupant is Exposed,
   * a near miss otherwise; the hole itself never changes.
   */
  function WhackHole(b: Board, h: int): (r: Whacked)
    requires Consistent(b) && h in HoleIds(b)
    ensures r.hit <==> r.reply == Bonked
    ensures r.reply == Whiff <==> h in b.available
    ensures r.hit <==> h in b.unavailable && MoleAt(b, b.unavailable[h].occupant.value).value.state == ExposedAlive
    ensures r.hit ==> r.board == Kill(b, b.unavailable[h].occupant.value)
    ensures !r.hit ==> r.board == b
    ensures r.board.available == b.available && r.board.unavailable == b.unavailable
  {
    var hole := if h in b.available then b.available[h] else b.unavailable[h];
    if hole.state == Unoccupied then Whacked(b, false, Whiff)
    else
      var m := hole.occupant.value;
      if MoleAt(b, m).value.state == ExposedAlive then Whacked(Kill(b, m), true, Bonked)
      else Whacked(b, false, Laughing)
  }

  /**
   * The first half of `Mole.Tunnel` for a living mole: if it points to a hole,
   * that hole is freed, which leaves the mole Tunneling in Unhoused.
   */
  function Vacated(b: Board, m: int): (r: Board)
    requires Consistent(b) && (m in b.housed || m in b.unhoused)
    ensures Consistent(r) && m in r.unhoused && m !in r.housed
    ensures m in b.housed ==> b.housed[m].hole.value in r.available
    ensures m in b.unhoused ==> r == b
    ensures r.dead == b.dead && HoleIds(r) == HoleIds(b) && MoleIds(r) == MoleIds(b)
  {
    var mole := MoleAt(b, m).value;
    if mole.hole.Some? then
      assert Seated(b, mole.hole.value, m);
      FreeKeepsConsistent(b, mole.hole.value);
      Free(b, mole.hole.value)
    else b
  }

  /**
   * `Mole.Tunnel` for a living mole: leave its hole if it has one, then take
   * hole `pick` if that hole is available (the engine picks any available one).
   */
  function TunnelTo(b: Board, m: int, pick: int): (r: Board)
    requires Consistent(b) && (m in b.housed || m in b.unhoused)
    ensures r.dead == b.dead && HoleIds(r) == HoleIds(b) && MoleIds(r) == MoleIds(b)
  {
    var b1 := Vacated(b, m);
    if pick in b1.available then Occupy(b1, pick, m) else b1
  }

  // ---------------------------------------------------------------------------
  // Each transition keeps the invariant
  // ---------------------------------------------------------------------------

  lemma OccupyKeepsConsistent(b: Board, h: int, m: int)
    requires Consistent(b) && h in b.available && m in b.unhoused
    ensures Consistent(Occupy(b, h, m))
  {
    var r := Occupy(b, h, m);
    forall g, k | Seated(b, g, k) ensures Seated(r, g, k) {
      assert g != h && k != m;
    }
  }

  lemma FreeKeepsConsistent(b: Board, h: int)
    requires Consistent(b) && Freeable(b, h)
    ensures Consistent(Free(b, h))
  {
    var r := Free(b, h);
    var m := b.unavailable[h].occupant.value;
    assert b.housed[m].hole == Some(h) by { assert Seated(b, h, m); }
    forall g, k | Seated(b, g, k) && g != h ensures Seated(r, g, k) {
      assert k != m;
    }
  }

  /** Toggling a mole that is not housed leaves the board as it is. */
  lemma ToggleOnlyHoused(b: Board, m: int)
    requires Consistent(b) && m !in b.housed
    ensures Toggle(b, m) == b
  {
    if m in b.unhoused {
      assert b.unhoused[m := b.unhoused[m]] == b.unhoused;
    } else if m in b.dead {
      assert b.dead[m := b.dead[m]] == b.dead;
    }
  }

  lemma ToggleKeepsConsistent(b: Board, m: int)
    requires Consistent(b)
    ensures Consistent(Toggle(b, m))
  {
    if m !in b.housed {
      ToggleOnlyHoused(b, m);
      return;
    }
    var r := Toggle(b, m);
    assert r.dead == b.dead && r.unhoused == b.unhoused;
    forall h, k | Seated(b, h, k) ensures Seated(r, h, k) {
    }
  }

  lemma KillKeepsConsistent(b: Board, m: int)
    requires Consistent(b) && m in b.housed
    ensures Consistent(Kill(b, m))
  {
    var r := Kill(b, m);
    forall g, k | Seated(b, g, k) ensures Seated(r, g, k) {
    }
  }

  lemma WhackKeepsConsistent(b: Board, h: int)
    requires Consistent(b) && h in HoleIds(b)
    ensures Consistent(WhackHole(b, h).board)
  {
    var r := WhackHole(b, h);
    if r.hit {
      KillKeepsConsistent(b, b.unavailable[h].occupant.value);
    }
  }

  lemma TunnelKeepsConsistent(b: Board, m: int, pick: int)
    requires Consistent(b) && (m in b.housed || m in b.unhoused)
    ensures Consistent(TunnelTo(b, m, pick))
  {
    var b1 := Vacated(b, m);
    if pick in b1.available {
      OccupyKeepsConsistent(b1, pick, m);
    }
  }

  /** Filing a new Unoccupied hole under an unused ID in Available keeps the invariant. */
  lemma NewHoleKeepsConsistent(b: Board, id: int)
    requires Consistent(b) && id !in HoleIds(b)
    ensures Consistent(b.(available := b.available[id := Hole(id, Unoccupied, None)]))
  {
    var r := b.(available := b.available[id := Hole(id, Unoccupied, None)]);
    forall k | k in r.unavailable
      ensures Seated(r, k, r.unavailable[k].occupant.value)
    {
      assert Seated(b, k, b.unavailable[k].occupant.value);
    }
    forall k | k in r.housed
      ensures Seated(r, r.housed[k].hole.value, k)
    {
      assert Seated(b, b.housed[k].hole.value, k);
    }
    forall k | k in r.dead
      ensures Seated(r, r.dead[k].hole.value, k)
    {
      assert Seated(b, b.dead[k].hole.value, k);
    }
  }

  /** Filing a new Tunneling mole under an unused ID in Unhoused keeps the invariant. */
  lemma NewMoleKeepsConsistent(b: Board, id: int)
    requires Consistent(b) && id !in MoleIds(b)
    ensures Consistent(b.(unhoused := b.unhoused[id := Mole(id, TunnelingAlive, None)]))
  {
    var r := b.(unhoused := b.unhoused[id := Mole(id, TunnelingAlive, None)]);
    forall k | k in r.unavailable
      ensures Seated(r, k, r.unavailable[k].occupant.value)
    {
      assert Seated(b, k, b.unavailable[k].occupant.value);
    }
    forall k | k in r.housed
      ensures Seated(r, r.housed[k].hole.value, k)
    {
      assert Seated(b, b.housed[k].hole.value, k);
    }
    forall k | k in r.dead
      ensures Seated(r, r.dead[k].hole.value, k)
    {
      assert Seated(b, b.dead[k].hole.value, k);
    }
  }
}
