/**
 * A tick of the moles (`ProcessMoleMoves`) as values. Each housed mole takes a
 * turn: it may tunnel to another hole, and it may toggle between Hiding and
 * Exposed; every move writes a line. The two random draws of a turn are inputs
 * here: `move` and `toggle`.
 */
module Moves {
  import opened Wrappers
  import opened Domain
  import opened Laws

  /** What a tick writes: a mole went into hiding, or showed itself in a hole. */
  datatype Event = Vanished(mole: int) | Appeared(mole: int, hole: int)

  /** A housed mole that tunnels lands Hiding in the hole it picked, and the arena stays consistent. */
  lemma TunnelLands(b: Board, m: int, pick: int)
    requires Consistent(b) && m in b.housed && pick in Vacated(b, m).available
    ensures var r := TunnelTo(b, m, pick);
            && Consistent(r) && r.housed.Keys == b.housed.Keys && Seats(b, r, 0)
            && r.housed[m] == Mole(m, HidingAlive, Some(pick))
            && forall y :: y in b.housed && y != m ==> r.housed[y] == b.housed[y]
  {
    TunnelKeepsConsistent(b, m, pick);
    TunnelCounts(b, m, pick);
    TunnelKeepsHousedKeys(b, m, pick);
    var g := b.housed[m].hole.value;
    assert Seated(b, g, m);
  }

  /** The first half of a turn: with `move`, the mole tunnels to hole `pick`. */
  function MoveHalf(b: Board, m: int, move: bool, pick: int): (r: Board)
    requires Consistent(b) && m in b.housed
    requires move ==> pick in Vacated(b, m).available
    ensures r.housed.Keys == b.housed.Keys && r.housed[m].hole.Some?
    ensures forall y :: y in b.housed && y != m ==> r.housed[y] == b.housed[y]
    ensures move ==> r.housed[m] == Mole(m, HidingAlive, Some(pick))
    ensures !move ==> r == b
  {
    if move then
      TunnelLands(b, m, pick);
      TunnelTo(b, m, pick)
    else b
  }

  /** The first half keeps the arena consistent and every bucket's size. */
  lemma MoveHalfKeeps(b: Board, m: int, move: bool, pick: int)
    requires Consistent(b) && m in b.housed
    requires move ==> pick in Vacated(b, m).available
    ensures Consistent(MoveHalf(b, m, move, pick)) && Seats(b, MoveHalf(b, m, move, pick), 0)
  {
    if move {
      TunnelLands(b, m, pick);
    }
  }

  /**
   * The second half of a turn: the mole toggles, then reports that it vanished
   * if it now hides, or the hole it appeared in otherwise.
   */
  function ToggleHalf(b: Board, m: int): (r: (Board, Event))
    requires m in b.housed && b.housed[m].hole.Some?
    ensures r.1.mole == m
  {
    var r := Toggle(b, m);
    var mole := r.housed[m];
    (r, if mole.state == HidingAlive then Vanished(m) else Appeared(m, mole.hole.value))
  }

  /**
   * The toggled mole stays in its hole with its state toggled, no other record
   * changes, and the line it writes names the state it is now in.
   */
  lemma ToggleHalfShows(b: Board, m: int)
    requires m in b.housed && b.housed[m].hole.Some?
    ensures var (r, e) := ToggleHalf(b, m);
            && r.housed.Keys == b.housed.Keys
            && r.housed[m] == b.housed[m].(state := Toggled(b.housed[m].state))
            && (forall y :: y in b.housed && y != m ==> r.housed[y] == b.housed[y])
            && (e == Vanished(m) <==> r.housed[m].state == HidingAlive)
            && (e.Appeared? ==> e == Appeared(m, r.housed[m].hole.value))
  {
  }

  /** The second half keeps the arena consistent and every bucket's size. */
  lemma ToggleHalfKeeps(b: Board, m: int)
    requires Consistent(b) && m in b.housed
    ensures Consistent(Toggle(b, m)) && Seats(b, Toggle(b, m), 0)
  {
    ToggleKeepsConsistent(b, m);
    ToggleSeats(b, m);
  }

  /**
   * The turn of housed mole `m`: with `move` it reports that it vanished and
   * tunnels to hole `pick`; with `toggle` it then toggles and reports how it is.
   */
  function MoleTurn(b: Board, m: int, move: bool, toggle: bool, pick: int): (r: (Board, seq<Event>))
    requires Consistent(b) && m in b.housed
    requires move ==> pick in Vacated(b, m).available
    ensures |r.1| == (if move then 1 else 0) + (if toggle then 1 else 0)
    ensures forall e :: e in r.1 ==> e.mole == m
  {
    var b1 := MoveHalf(b, m, move, pick);
    var e1 := if move then [Vanished(m)] else [];
    if !toggle then (b1, e1)
    else
      var (b2, e2) := ToggleHalf(b1, m);
      (b2, e1 + [e2])
  }

  /** A turn is its first half followed, on the second draw, by its second half. */
  lemma TurnHalves(b: Board, m: int, move: bool, toggle: bool, pick: int)
    requires Consistent(b) && m in b.housed
    requires move ==> pick in Vacated(b, m).available
    ensures var b1 := MoveHalf(b, m, move, pick);
            var e1 := if move then [Vanished(m)] else [];
            MoleTurn(b, m, move, toggle, pick) == if toggle then (ToggleHalf(b1, m).0, e1 + [ToggleHalf(b1, m).1]) else (b1, e1)
  {
  }

  /**
   * Where a turn leaves mole `m` and what it writes. A mole that tunnels lands
   * Hiding in the hole it picked and says it vanished; a mole that stays keeps
   * its state and hole. A toggle then flips the state it had after that, and
   * writes "vanished" when the mole now hides, or the hole it now shows in.
   */
  lemma TurnResult(b: Board, m: int, move: bool, toggle: bool, pick: int)
    requires Consistent(b) && m in b.housed
    requires move ==> pick in Vacated(b, m).available
    ensures b.housed[m].hole.Some?
    ensures var (r, ev) := MoleTurn(b, m, move, toggle, pick);
            var s1 := if move then HidingAlive else b.housed[m].state;
            var g := if move then pick else b.housed[m].hole.value;
            var s2 := if toggle then Toggled(s1) else s1;
            && r.housed[m].state == s2
            && r.housed[m].hole == Some(g)
            && ev == (if move then [Vanished(m)] else [])
                     + (if !toggle then [] else if s2 == HidingAlive then [Vanished(m)] else [Appeared(m, g)])
  {
  }

  /** A turn keeps the arena consistent and every bucket's size. */
  lemma TurnKeeps(b: Board, m: int, move: bool, toggle: bool, pick: int)
    requires Consistent(b) && m in b.housed
    requires move ==> pick in Vacated(b, m).available
    ensures Consistent(MoleTurn(b, m, move, toggle, pick).0) && Seats(b, MoleTurn(b, m, move, toggle, pick).0, 0)
  {
    var b1 := MoveHalf(b, m, move, pick);
    MoveHalfKeeps(b, m, move, pick);
    if toggle {
      ToggleHalfKeeps(b1, m);
      SeatsThen(b, b1, Toggle(b1, m), 0, 0);
    }
  }

  /** A turn keeps every housed mole housed and leaves the records of the other moles alone. */
  lemma TurnOthers(b: Board, m: int, move: bool, toggle: bool, pick: int)
    requires Consistent(b) && m in b.housed
    requires move ==> pick in Vacated(b, m).available
    ensures var r := MoleTurn(b, m, move, toggle, pick).0;
            && r.housed.Keys == b.housed.Keys
            && forall y :: y in b.housed && y != m ==> r.housed[y] == b.housed[y]
  {
    var b1 := MoveHalf(b, m, move, pick);
    if toggle {
      ToggleHalfShows(b1, m);
    }
  }

  /**
   * Where the turn leaves mole `m`: a mole that drew nothing is untouched, a
   * mole that tunnels says it vanished and hides in the hole it picked.
   */
  lemma TurnShowsMove(b: Board, m: int, move: bool, toggle: bool, pick: int)
    requires Consistent(b) && m in b.housed
    requires move ==> pick in Vacated(b, m).available
    ensures var (r, ev) := MoleTurn(b, m, move, toggle, pick);
            && (!move && !toggle ==> r == b && ev == [])
            && (move ==> ev[0] == Vanished(m))
            && (move && !toggle ==> r.housed[m] == Mole(m, HidingAlive, Some(pick)))
  {
  }

  /**
   * A mole that toggles is left in the state it last reported: Hiding when it
   * wrote that it vanished, Exposed in the hole it named when it wrote that it
   * appeared; a mole that tunnelled first always appears.
   */
  lemma TurnShowsToggle(b: Board, m: int, move: bool, pick: int)
    requires Consistent(b) && m in b.housed
    requires move ==> pick in Vacated(b, m).available
    ensures var (r, ev) := MoleTurn(b, m, move, true, pick);
            && r.housed[m].state == (if move then ExposedAlive else Toggled(b.housed[m].state))
            && r.housed[m].hole.Some?
            && (r.housed[m].state == HidingAlive ==> ev[|ev| - 1] == Vanished(m))
            && (r.housed[m].state == ExposedAlive ==> ev[|ev| - 1] == Appeared(m, r.housed[m].hole.value))
  {
    var b1 := MoveHalf(b, m, move, pick);
    ToggleHalfShows(b1, m);
    ToggleLive(b, m);
  }

  /** A housed mole is Hiding or Exposed, so toggling it gives the other one of the two. */
  lemma ToggleLive(b: Board, m: int)
    requires Consistent(b) && m in b.housed
    ensures Toggled(b.housed[m].state) == HidingAlive || Toggled(b.housed[m].state) == ExposedAlive
  {
  }

  /** Every line a turn writes about a mole that appeared names the hole it is Exposed in. */
  lemma TurnAppears(b: Board, m: int, move: bool, toggle: bool, pick: int)
    requires Consistent(b) && m in b.housed
    requires move ==> pick in Vacated(b, m).available
    ensures var (r, ev) := MoleTurn(b, m, move, toggle, pick);
            forall e :: e in ev && e.Appeared? ==> r.housed[m] == Mole(m, ExposedAlive, Some(e.hole))
  {
    var (r, ev) := MoleTurn(b, m, move, toggle, pick);
    var b1 := MoveHalf(b, m, move, pick);
    if toggle {
      ToggleHalfShows(b1, m);
      TurnShowsToggle(b, m, move, pick);
      assert ev == (if move then [Vanished(m)] else []) + [ToggleHalf(b1, m).1];
    }
  }

  // ---------------------------------------------------------------------------
  // A pass over the housed moles
  // ---------------------------------------------------------------------------

  /** How many draws fired for the moles `done`: one per mole in `movers` and one per mole in `togglers`. */
  function Draws(done: set<int>, movers: set<int>, togglers: set<int>): int {
    |done * movers| + |done * togglers|
  }

  /**
   * The lines `events` written by the turns of the moles `done` (the draws
   * being `movers` and `togglers`) agree with arena `b`: one line per draw
   * that fired, each about a mole of `done` that drew, a mole that appeared is
   * still Exposed in that hole, a mole that only tunnelled hides and said so,
   * and a mole that toggled reported the state it is in.
   */
  ghost predicate Reported(b: Board, done: set<int>, events: seq<Event>, movers: set<int>, togglers: set<int>) {
    && done <= b.housed.Keys
    && |events| == Draws(done, movers, togglers)
    && (forall e :: e in events ==> e.mole in done && (e.mole in movers || e.mole in togglers))
    && (forall e :: e in events && e.Appeared? ==> b.housed[e.mole] == Mole(e.mole, ExposedAlive, Some(e.hole)))
    && (forall m :: m in done && m in movers && m !in togglers ==>
          b.housed[m].state == HidingAlive && Vanished(m) in events)
    && (forall m :: m in done && m in togglers ==>
          && (b.housed[m].state == HidingAlive ==> Vanished(m) in events)
          && (b.housed[m].state == ExposedAlive ==>
                b.housed[m].hole.Some? && Appeared(m, b.housed[m].hole.value) in events))
  }

  /**
   * The moles `todo` that have not had their turn, and the moles of `done`
   * that drew nothing, have the records they had in arena `b1`.
   */
  ghost predicate Untouched(b1: Board, b: Board, todo: set<int>, done: set<int>, movers: set<int>, togglers: set<int>) {
    && todo <= b.housed.Keys && done <= b.housed.Keys
    && (forall m :: m in todo ==> m in b1.housed && b.housed[m] == b1.housed[m])
    && (forall m :: m in done && m !in movers && m !in togglers ==> m in b1.housed && b.housed[m] == b1.housed[m])
  }

  /**
   * Halfway through the pass that started from arena `b1`: the moles `todo`
   * are still to have their turn and `done` have had it, the buckets are as
   * they were, and the lines written so far agree with the arena.
   */
  ghost predicate Moving(b1: Board, b: Board, todo: set<int>, done: set<int>, events: seq<Event>,
                         movers: set<int>, togglers: set<int>) {
    && Consistent(b) && b.housed.Keys == b1.housed.Keys && Seats(b1, b, 0)
    && todo !! done && todo + done == b1.housed.Keys
    && Untouched(b1, b, todo, done, movers, togglers)
    && Reported(b, done, events, movers, togglers)
  }

  /** A pass starts with every housed mole to go, none done and no line written. */
  lemma PassStarts(b: Board, movers: set<int>, togglers: set<int>)
    requires Consistent(b)
    ensures Moving(b, b, b.housed.Keys, {}, [], movers, togglers)
  {
    assert Draws({}, movers, togglers) == 0;
  }

  /** A pass with no mole to go has done every mole housed when it began. */
  lemma PassEnds(b1: Board, b: Board, todo: set<int>, done: set<int>, events: seq<Event>, movers: set<int>, togglers: set<int>)
    requires Moving(b1, b, todo, done, events, movers, togglers) && todo == {}
    ensures Moving(b1, b, {}, b1.housed.Keys, events, movers, togglers)
  {
  }

  /** One more mole that had its turn adds the draws that fired for it. */
  lemma DrawsStep(done: set<int>, x: int, movers: set<int>, togglers: set<int>)
    requires x !in done
    ensures Draws(done + {x}, movers, togglers) == Draws(done, movers, togglers) + (if x in movers then 1 else 0) + (if x in togglers then 1 else 0)
  {
    CardStep(done, x, movers);
    CardStep(done, x, togglers);
  }

  /** Adding one element outside `done` adds one to the intersection with `s` exactly when it is in `s`. */
  lemma CardStep(done: set<int>, x: int, s: set<int>)
    requires x !in done
    ensures |(done + {x}) * s| == |done * s| + if x in s then 1 else 0
  {
    if x in s {
      assert (done + {x}) * s == done * s + {x};
    } else {
      assert (done + {x}) * s == done * s;
    }
  }

  /**
   * What the turn of mole `x` that took arena `b` to `r` and wrote `ev` is
   * known to have done: every other record is as it was, one line per draw
   * that fired, all about `x`, and `x` is left in the state it reported last.
   */
  ghost predicate Reports(b: Board, r: Board, ev: seq<Event>, x: int, move: bool, toggle: bool) {
    && x in r.housed && r.housed.Keys == b.housed.Keys
    && (forall y :: y in b.housed && y != x ==> r.housed[y] == b.housed[y])
    && |ev| == (if move then 1 else 0) + (if toggle then 1 else 0)
    && (forall e :: e in ev ==> e.mole == x)
    && (!move && !toggle ==> r == b)
    && (move ==> ev[0] == Vanished(x))
    && (move && !toggle ==> r.housed[x].state == HidingAlive)
    && (toggle ==> r.housed[x].state == HidingAlive ==> ev[|ev| - 1] == Vanished(x))
    && (toggle ==> r.housed[x].state == ExposedAlive ==>
          r.housed[x].hole.Some? && ev[|ev| - 1] == Appeared(x, r.housed[x].hole.value))
    && (forall e :: e in ev && e.Appeared? ==> r.housed[x] == Mole(x, ExposedAlive, Some(e.hole)))
  }

  /** A turn does what `Reports` says. */
  lemma TurnReports(b: Board, x: int, move: bool, toggle: bool, pick: int)
    requires Consistent(b) && x in b.housed
    requires move ==> pick in Vacated(b, x).available
    ensures var (r, ev) := MoleTurn(b, x, move, toggle, pick);
            Reports(b, r, ev, x, move, toggle)
  {
    TurnOthers(b, x, move, toggle, pick);
    TurnShowsMove(b, x, move, toggle, pick);
    if toggle {
      TurnShowsToggle(b, x, move, pick);
    }
    TurnAppears(b, x, move, toggle, pick);
  }

  /** The turn of mole `x` keeps the lines reported so far true, and adds its own. */
  lemma ReportStep(b: Board, r: Board, done: set<int>, events: seq<Event>, ev: seq<Event>,
                   movers: set<int>, togglers: set<int>, x: int)
    requires x in b.housed && x !in done
    requires Reported(b, done, events, movers, togglers)
    requires Reports(b, r, ev, x, x in movers, x in togglers)
    ensures Reported(r, done + {x}, events + ev, movers, togglers)
  {
    DrawsStep(done, x, movers, togglers);
    var all := events + ev;
    forall e | e in all
      ensures e.mole in done + {x} && (e.mole in movers || e.mole in togglers)
      ensures e.Appeared? ==> r.housed[e.mole] == Mole(e.mole, ExposedAlive, Some(e.hole))
    {
      if e in events {
        assert e.mole != x;
      } else {
        assert e in ev;
      }
    }
    forall m | m in done + {x} && m in movers && m !in togglers
      ensures r.housed[m].state == HidingAlive && Vanished(m) in all
    {
      if m == x {
        assert ev[0] in all;
      } else {
        assert Vanished(m) in events;
      }
    }
    forall m | m in done + {x} && m in togglers
      ensures r.housed[m].state == HidingAlive ==> Vanished(m) in all
      ensures r.housed[m].state == ExposedAlive ==> r.housed[m].hole.Some? && Appeared(m, r.housed[m].hole.value) in all
    {
      if m == x {
        assert ev[|ev| - 1] in all;
      }
    }
  }

  /** The turn of mole `x` of `todo` leaves every other mole's record alone. */
  lemma UntouchedStep(b1: Board, b: Board, todo: set<int>, done: set<int>, movers: set<int>, togglers: set<int>,
                      x: int, r: Board)
    requires Untouched(b1, b, todo, done, movers, togglers) && x in todo
    requires r.housed.Keys == b.housed.Keys && forall y :: y in b.housed && y != x ==> r.housed[y] == b.housed[y]
    requires x !in movers && x !in togglers ==> r == b
    ensures Untouched(b1, r, todo - {x}, done + {x}, movers, togglers)
  {
  }

  /** A turn of the next mole of `todo` that keeps the arena consistent and does what `Reports` says keeps the pass on track. */
  lemma MoveStep(b1: Board, b: Board, r: Board, todo: set<int>, done: set<int>, events: seq<Event>, ev: seq<Event>,
                 movers: set<int>, togglers: set<int>, x: int)
    requires Moving(b1, b, todo, done, events, movers, togglers) && x in todo
    requires Consistent(r) && Seats(b, r, 0) && Reports(b, r, ev, x, x in movers, x in togglers)
    ensures Moving(b1, r, todo - {x}, done + {x}, events + ev, movers, togglers)
  {
    SeatsThen(b1, b, r, 0, 0);
    ReportStep(b, r, done, events, ev, movers, togglers, x);
    UntouchedStep(b1, b, todo, done, movers, togglers, x, r);
  }

  /** The turn of the next mole of `todo` keeps the pass on track. */
  lemma TurnStep(b1: Board, b: Board, todo: set<int>, done: set<int>, events: seq<Event>,
                 movers: set<int>, togglers: set<int>, x: int, pick: int, r: Board, ev: seq<Event>)
    requires Moving(b1, b, todo, done, events, movers, togglers) && x in todo
    requires x in movers ==> pick in Vacated(b, x).available
    requires (r, ev) == MoleTurn(b, x, x in movers, x in togglers, pick)
    ensures Moving(b1, r, todo - {x}, done + {x}, events + ev, movers, togglers)
  {
    var move, toggle := x in movers, x in togglers;
    TurnKeeps(b, x, move, toggle, pick);
    TurnReports(b, x, move, toggle, pick);
    MoveStep(b1, b, r, todo, done, events, ev, movers, togglers, x);
  }
}
