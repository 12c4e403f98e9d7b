/**
 * What the transitions of the arena guarantee beyond keeping the invariant:
 * how they move the bucket counts, that freeing undoes occupying, that the
 * occupied holes and the seated moles are in one-to-one correspondence, and
 * that no sequence of operations brings a dead mole back.
 */
module Laws {
  import opened Wrappers
  import opened Domain

  lemma RemoveCard<T>(m: map<int, T>, k: int)
    requires k in m
    ensures |m - {k}| == |m| - 1
  {
    assert (m - {k}).Keys == m.Keys - {k};
  }

  lemma AddCard<T>(m: map<int, T>, k: int, v: T)
    requires k !in m
    ensures |m[k := v]| == |m| + 1
  {
    assert m[k := v].Keys == m.Keys + {k};
  }

  // ---------------------------------------------------------------------------
  // Bucket counts
  // ---------------------------------------------------------------------------

  /** Occupying moves one hole from Available to Unavailable and one mole from Unhoused to Housed. */
  lemma OccupyCounts(b: Board, h: int, m: int)
    requires h in b.available && m in b.unhoused && h !in b.unavailable && m !in b.housed
    ensures var r := Occupy(b, h, m);
            && |r.available| == |b.available| - 1 && |r.unavailable| == |b.unavailable| + 1
            && |r.housed| == |b.housed| + 1 && |r.unhoused| == |b.unhoused| - 1 && |r.dead| == |b.dead|
  {
    RemoveCard(b.available, h);
    AddCard(b.unavailable, h, b.available[h].(state := Occupied, occupant := Some(m)));
    RemoveCard(b.unhoused, m);
    AddCard(b.housed, m, b.unhoused[m].(state := HidingAlive, hole := Some(h)));
  }

  /** Freeing moves one hole back to Available and one mole back to Unhoused. */
  lemma FreeCounts(b: Board, h: int)
    requires Consistent(b) && Freeable(b, h)
    ensures var r := Free(b, h);
            && |r.available| == |b.available| + 1 && |r.unavailable| == |b.unavailable| - 1
            && |r.housed| == |b.housed| - 1 && |r.unhoused| == |b.unhoused| + 1 && |r.dead| == |b.dead|
  {
    var m := b.unavailable[h].occupant.value;
    AddCard(b.available, h, b.unavailable[h].(state := Unoccupied, occupant := None));
    RemoveCard(b.unavailable, h);
    AddCard(b.unhoused, m, b.housed[m].(state := TunnelingAlive, hole := None));
    RemoveCard(b.housed, m);
  }

  /** A kill moves one mole from Housed to Dead and leaves the holes alone. */
  lemma KillCounts(b: Board, m: int)
    requires Consistent(b) && m in b.housed
    ensures var r := Kill(b, m);
            && |r.housed| == |b.housed| - 1 && |r.dead| == |b.dead| + 1 && |r.unhoused| == |b.unhoused|
            && |r.available| == |b.available| && |r.unavailable| == |b.unavailable|
  {
    RemoveCard(b.housed, m);
    AddCard(b.dead, m, b.housed[m].(state := Dead));
  }

  /**
   * Tunnelling a mole into an available hole: a housed mole ends housed again,
   * an unhoused one becomes housed; either way no hole is left over.
   */
  lemma TunnelCounts(b: Board, m: int, pick: int)
    requires Consistent(b) && (m in b.housed || m in b.unhoused)
    requires pick in Vacated(b, m).available
    ensures var r := TunnelTo(b, m, pick);
            && m in r.housed && |r.dead| == |b.dead|
            && (m in b.housed ==>
                  && |r.housed| == |b.housed| && |r.unhoused| == |b.unhoused|
                  && |r.available| == |b.available| && |r.unavailable| == |b.unavailable|)
            && (m in b.unhoused ==>
                  && |r.housed| == |b.housed| + 1 && |r.unhoused| == |b.unhoused| - 1
                  && |r.available| == |b.available| - 1 && |r.unavailable| == |b.unavailable| + 1)
  {
    if m in b.housed {
      TunnelHousedCounts(b, m, pick);
    } else {
      OccupyCounts(b, pick, m);
    }
  }

  /** A housed mole that tunnels frees its hole and is seated again: every bucket keeps its size. */
  lemma TunnelHousedCounts(b: Board, m: int, pick: int)
    requires Consistent(b) && m in b.housed
    requires pick in Vacated(b, m).available
    ensures var r := TunnelTo(b, m, pick);
            && |r.housed| == |b.housed| && |r.unhoused| == |b.unhoused|
            && |r.available| == |b.available| && |r.unavailable| == |b.unavailable|
  {
    var g := b.housed[m].hole.value;
    assert Seated(b, g, m);
    var b1 := Free(b, g);
    assert Vacated(b, m) == b1;
    FreeCounts(b, g);
    OccupyCounts(b1, pick, m);
  }

  /** Tunnelling a housed mole leaves the set of housed moles as it was. */
  lemma TunnelKeepsHousedKeys(b: Board, m: int, pick: int)
    requires Consistent(b) && m in b.housed
    requires pick in Vacated(b, m).available
    ensures TunnelTo(b, m, pick).housed.Keys == b.housed.Keys
    ensures TunnelTo(b, m, pick).unhoused.Keys == b.unhoused.Keys
  {
    var g := b.housed[m].hole.value;
    assert Seated(b, g, m);
    assert Vacated(b, m) == Free(b, g);
  }

  /**
   * `b` is `b0` after `k` moles were seated: `k` holes moved from Available to
   * Unavailable, `k` moles from Unhoused to Housed, and nothing else changed
   * its bucket or its ID.
   */
  ghost predicate Seats(b0: Board, b: Board, k: int) {
    && |b.housed| == |b0.housed| + k && |b.unhoused| == |b0.unhoused| - k
    && |b.available| == |b0.available| - k && |b.unavailable| == |b0.unavailable| + k
    && b.dead == b0.dead && HoleIds(b) == HoleIds(b0) && MoleIds(b) == MoleIds(b0)
  }

  /** Toggling a housed mole seats nobody and unseats nobody. */
  lemma ToggleSeats(b: Board, m: int)
    requires m in b.housed
    ensures Seats(b, Toggle(b, m), 0)
  {
    var r := Toggle(b, m);
    assert r.housed.Keys == b.housed.Keys;
  }

  /**
   * One more unhoused mole tries to take an available hole: after `done`
   * attempts as many moles are seated as there were holes for them, and one
   * attempt more keeps it so.
   */
  lemma SeatOne(b0: Board, b: Board, done: nat, m: int, pick: int, r: Board)
    requires m in b.unhoused && b.available.Keys !! b.unavailable.Keys && b.housed.Keys !! b.unhoused.Keys
    requires Seats(b0, b, Min(|b0.available|, done))
    requires b.available != map[] ==> pick in b.available && r == Occupy(b, pick, m)
    requires b.available == map[] ==> r == b
    ensures Seats(b0, r, Min(|b0.available|, done + 1))
  {
    MinNext(|b0.available|, done, |b.available|);
    if b.available != map[] {
      assert |b.available| > 0 by { assert pick in b.available.Keys; }
      OccupyCounts(b, pick, m);
      SeatsThen(b0, b, r, Min(|b0.available|, done), 1);
    } else {
      assert |b.available.Keys| == 0;
    }
  }

  /** With `left` of `a` holes still free after `d` tries, one more try seats a mole exactly when one is left. */
  lemma MinNext(a: int, d: int, left: int)
    requires left == a - Min(a, d) && left >= 0
    ensures left > 0 ==> Min(a, d + 1) == Min(a, d) + 1
    ensures left == 0 ==> Min(a, d + 1) == Min(a, d)
  {
  }

  /** Seating `j` moles and then `k` more seats `j + k`. */
  lemma SeatsThen(b0: Board, b: Board, r: Board, j: int, k: int)
    requires Seats(b0, b, j) && Seats(b, r, k)
    ensures Seats(b0, r, j + k)
  {
  }

  /** The bucket sizes of a consistent board add up to the number of distinct IDs. */
  lemma CountsMatchIds(b: Board)
    requires Consistent(b)
    ensures |b.available| + |b.unavailable| == |HoleIds(b)|
    ensures |b.housed| + |b.unhoused| + |b.dead| == |MoleIds(b)|
  {
    assert |b.available.Keys + b.unavailable.Keys| == |b.available.Keys| + |b.unavailable.Keys|;
    assert |b.housed.Keys + b.unhoused.Keys| == |b.housed.Keys| + |b.unhoused.Keys|;
    assert |(b.housed.Keys + b.unhoused.Keys) + b.dead.Keys| == |b.housed.Keys + b.unhoused.Keys| + |b.dead.Keys|;
  }

  // ---------------------------------------------------------------------------
  // Round trips
  // ---------------------------------------------------------------------------

  /** Putting back the entry just removed gives the map back. */
  lemma PutBack<T>(m: map<int, T>, k: int, v: T)
    requires k in m && m[k] == v
    ensures (m - {k})[k := v] == m
  {
  }

  /** Removing the entry just added gives the map back. */
  lemma TakeBack<T>(m: map<int, T>, k: int, v: T)
    requires k !in m
    ensures m[k := v] - {k} == m
  {
  }

  /** Freeing the hole just occupied restores the board exactly. */
  lemma FreeUndoesOccupy(b: Board, h: int, m: int)
    requires Consistent(b) && h in b.available && m in b.unhoused
    ensures Freeable(Occupy(b, h, m), h)
    ensures Free(Occupy(b, h, m), h) == b
  {
    var hole, mole := b.available[h], b.unhoused[m];
    var hole', mole' := hole.(state := Occupied, occupant := Some(m)), mole.(state := HidingAlive, hole := Some(h));
    PutBack(b.available, h, hole'.(state := Unoccupied, occupant := None));
    TakeBack(b.unavailable, h, hole');
    PutBack(b.unhoused, m, mole'.(state := TunnelingAlive, hole := None));
    TakeBack(b.housed, m, mole');
  }

  /** Re-occupying a freed hole with its Hiding occupant restores the board exactly. */
  lemma OccupyUndoesFree(b: Board, h: int)
    requires Consistent(b) && Freeable(b, h)
    requires b.housed[b.unavailable[h].occupant.value].state == HidingAlive
    ensures var m := b.unavailable[h].occupant.value;
            Occupy(Free(b, h), h, m) == b
  {
    var m := b.unavailable[h].occupant.value;
    assert Seated(b, h, m);
    var hole, mole := b.unavailable[h], b.housed[m];
    var hole', mole' := hole.(state := Unoccupied, occupant := None), mole.(state := TunnelingAlive, hole := None);
    TakeBack(b.available, h, hole');
    PutBack(b.unavailable, h, hole'.(state := Occupied, occupant := Some(m)));
    TakeBack(b.unhoused, m, mole');
    PutBack(b.housed, m, mole'.(state := HidingAlive, hole := Some(h)));
  }

  // ---------------------------------------------------------------------------
  // Occupied holes and seated moles
  // ---------------------------------------------------------------------------

  /** A map that is one-to-one from `A` onto `B` shows the two sets are equally large. */
  lemma {:induction false} CardOfBijection(A: set<int>, B: set<int>, f: map<int, int>)
    requires A <= f.Keys
    requires forall a :: a in A ==> f[a] in B
    requires forall y :: y in B ==> exists a :: a in A && f[a] == y
    requires forall a1, a2 :: a1 in A && a2 in A && f[a1] == f[a2] ==> a1 == a2
    ensures |A| == |B|
    decreases |A|
  {
    if A == {} {
      if B != {} {
        HasElement(B);
        assert false;
      }
    } else {
      HasElement(A);
      var a :| a in A;
      var A', B' := A - {a}, B - {f[a]};
      forall y | y in B' ensures exists x :: x in A' && f[x] == y {
        var x :| x in A && f[x] == y;
        assert x != a;
      }
      CardOfBijection(A', B', f);
    }
  }

  /** Each Unavailable hole mapped to the mole it records as its occupant. */
  ghost function SeatMap(b: Board): map<int, int> {
    map h | h in b.unavailable :: if b.unavailable[h].occupant.Some? then b.unavailable[h].occupant.value else 0
  }

  /**
   * On a consistent arena `SeatMap` pairs the Unavailable holes one to one
   * with the moles, housed or dead, that sit in them.
   */
  lemma SeatPairs(b: Board)
    requires Consistent(b)
    ensures forall h :: h in b.unavailable.Keys ==> SeatMap(b)[h] in b.housed.Keys + b.dead.Keys
    ensures forall y :: y in b.housed.Keys + b.dead.Keys ==> exists h :: h in b.unavailable.Keys && SeatMap(b)[h] == y
    ensures forall h1, h2 :: h1 in b.unavailable.Keys && h2 in b.unavailable.Keys && SeatMap(b)[h1] == SeatMap(b)[h2] ==> h1 == h2
  {
    var f := SeatMap(b);
    forall h | h in b.unavailable ensures f[h] in b.housed.Keys + b.dead.Keys {
      assert Seated(b, h, f[h]);
    }
    forall y | y in b.housed.Keys + b.dead.Keys ensures exists h :: h in b.unavailable.Keys && f[h] == y {
      var g := if y in b.housed then b.housed[y].hole.value else b.dead[y].hole.value;
      assert Seated(b, g, y);
      assert f[g] == y;
    }
    forall h1, h2 | h1 in b.unavailable.Keys && h2 in b.unavailable.Keys && f[h1] == f[h2]
      ensures h1 == h2
    {
      assert Seated(b, h1, f[h1]) && Seated(b, h2, f[h2]);
    }
  }

  /** A pairing of the Unavailable holes with the housed and the dead moles, two disjoint buckets, counts them. */
  lemma SeatCard(b: Board, f: map<int, int>)
    requires b.housed.Keys !! b.dead.Keys && b.unavailable.Keys <= f.Keys
    requires forall h :: h in b.unavailable.Keys ==> f[h] in b.housed.Keys + b.dead.Keys
    requires forall y :: y in b.housed.Keys + b.dead.Keys ==> exists h :: h in b.unavailable.Keys && f[h] == y
    requires forall h1, h2 :: h1 in b.unavailable.Keys && h2 in b.unavailable.Keys && f[h1] == f[h2] ==> h1 == h2
    ensures |b.unavailable| == |b.housed| + |b.dead|
  {
    CardOfBijection(b.unavailable.Keys, b.housed.Keys + b.dead.Keys, f);
    assert |b.housed.Keys + b.dead.Keys| == |b.housed.Keys| + |b.dead.Keys|;
  }

  /**
   * Every Unavailable hole holds exactly one seated mole, alive or dead, and
   * every housed or dead mole sits in exactly one Unavailable hole.
   */
  lemma SeatedCount(b: Board)
    requires Consistent(b)
    ensures |b.unavailable| == |b.housed| + |b.dead|
  {
    SeatPairs(b);
    SeatCard(b, SeatMap(b));
  }

  // ---------------------------------------------------------------------------
  // Sequences of operations
  // ---------------------------------------------------------------------------

  /** One call of an entity operation. */
  datatype Step =
    | TryOccupyStep(h: int, m: int)   // Hole.TryOccupy
    | FreeStep(h: int)                // Hole.Free
    | TunnelStep(m: int, pick: int)   // Mole.Tunnel, `pick` standing for the arbitrary choice
    | ToggleStep(m: int)              // Mole.ToggleState
    | WhackStep(h: int)               // Hole.TryWhack, and through it Mole.TryWhack

  /** The guarantees the engine gives before each call. */
  ghost predicate Enabled(b: Board, s: Step) {
    match s
    case TryOccupyStep(h, m) => h in HoleIds(b) && m in b.unhoused
    case FreeStep(h) => Freeable(b, h)
    case TunnelStep(m, _) => m in b.housed || m in b.unhoused
    case ToggleStep(m) => true
    case WhackStep(h) => h in HoleIds(b)
  }

  /** The effect of one call; a call the engine never makes leaves the board as it is. */
  ghost function Apply(b: Board, s: Step): (r: Board)
    requires Consistent(b)
    ensures Consistent(r)
    ensures HoleIds(r) == HoleIds(b) && MoleIds(r) == MoleIds(b)
    ensures forall k :: k in b.dead ==> k in r.dead && r.dead[k] == b.dead[k]
  {
    if !Enabled(b, s) then b
    else match s
      case TryOccupyStep(h, m) =>
        if h in b.available then OccupyKeepsConsistent(b, h, m); Occupy(b, h, m) else b
      case FreeStep(h) =>
        FreeKeepsConsistent(b, h); Free(b, h)
      case TunnelStep(m, pick) =>
        TunnelKeepsConsistent(b, m, pick); TunnelTo(b, m, pick)
      case ToggleStep(m) =>
        ToggleKeepsConsistent(b, m); Toggle(b, m)
      case WhackStep(h) =>
        WhackKeepsConsistent(b, h); WhackHole(b, h).board
  }

  /** The board after a sequence of calls. */
  ghost function Run(b: Board, steps: seq<Step>): (r: Board)
    requires Consistent(b)
    ensures Consistent(r)
    decreases |steps|
  {
    if steps == [] then b else Run(Apply(b, steps[0]), steps[1..])
  }

  /** Dead is terminal: no sequence of calls changes a dead mole's record or bucket. */
  lemma {:induction false} DeadIsTerminal(b: Board, steps: seq<Step>, m: int)
    requires Consistent(b) && m in b.dead
    ensures m in Run(b, steps).dead && Run(b, steps).dead[m] == b.dead[m]
    decreases |steps|
  {
    if steps != [] {
      DeadIsTerminal(Apply(b, steps[0]), steps[1..], m);
    }
  }

  /** No sequence of calls creates or loses a hole or a mole. */
  lemma {:induction false} RunConservesCounts(b: Board, steps: seq<Step>)
    requires Consistent(b)
    ensures HoleIds(Run(b, steps)) == HoleIds(b) && MoleIds(Run(b, steps)) == MoleIds(b)
    ensures var r := Run(b, steps);
            && |r.available| + |r.unavailable| == |b.available| + |b.unavailable|
            && |r.housed| + |r.unhoused| + |r.dead| == |b.housed| + |b.unhoused| + |b.dead|
    decreases |steps|
  {
    if steps != [] {
      RunConservesCounts(Apply(b, steps[0]), steps[1..]);
    }
    CountsMatchIds(b);
    CountsMatchIds(Run(b, steps));
  }
}
