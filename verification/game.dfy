/**
 * The game: the two factories with their registries, the game state and the
 * number of dead moles that wins. `Init` builds the arena, `ProcessPlayerInput`
 * plays one line typed by the player and `ProcessMoleMoves` plays one tick of
 * the moles. Output is returned as messages instead of written to a stream.
 */
module Engine {
  import opened Wrappers
  import opened Domain
  import opened Laws
  import opened Registry
  import opened Factories
  import opened Occupancy
  import opened Commands
  import opened Turn
  import opened Moves

  /** `a` with the holes a hole factory files while its counter goes from `lo` to `hi`. */
  function FileHoles(a: map<int, Hole>, lo: int, hi: int): map<int, Hole>
    decreases hi - lo
  {
    if hi <= lo then a else FileHoles(a, lo, hi - 1)[hi := Hole(hi, Unoccupied, None)]
  }

  /** `u` with the moles a mole factory files while its counter goes from `lo` to `hi`. */
  function FileMoles(u: map<int, Mole>, lo: int, hi: int): map<int, Mole>
    decreases hi - lo
  {
    if hi <= lo then u else FileMoles(u, lo, hi - 1)[hi := Mole(hi, TunnelingAlive, None)]
  }

  /** Filed into an empty bucket, the new holes are the IDs 1 to `n`, each Unoccupied and empty. */
  lemma {:induction false} FileHolesContents(n: int)
    ensures FileHoles(map[], 0, n).Keys == IdRange(n)
    ensures forall i :: i in FileHoles(map[], 0, n) ==> FileHoles(map[], 0, n)[i] == Hole(i, Unoccupied, None)
    decreases n
  {
    if n > 0 {
      FileHolesContents(n - 1);
    }
  }

  /** Filed into an empty bucket, the new moles are the IDs 1 to `n`, each Tunneling and unhoused. */
  lemma {:induction false} FileMolesContents(n: int)
    ensures FileMoles(map[], 0, n).Keys == IdRange(n)
    ensures forall i :: i in FileMoles(map[], 0, n) ==> FileMoles(map[], 0, n)[i] == Mole(i, TunnelingAlive, None)
    decreases n
  {
    if n > 0 {
      FileMolesContents(n - 1);
    }
  }

  /** The arena `Init` builds before seating any mole: holes 1 to `h` in Available, moles 1 to `m` in Unhoused. */
  function FreshBoard(h: int, m: int): Board {
    Board(FileHoles(map[], 0, h), map[], map[], FileMoles(map[], 0, m), map[])
  }

  /** That arena is consistent, its IDs are 1 to `h` and 1 to `m`, and its bucket sizes are the two counts. */
  lemma FreshArena(h: nat, m: nat)
    ensures var b := FreshBoard(h, m);
            && Consistent(b) && HoleIds(b) == IdRange(h) && MoleIds(b) == IdRange(m)
            && |b.available| == h && |b.unhoused| == m
  {
    FileHolesContents(h);
    FileMolesContents(m);
    IdRangeMembers(h);
    IdRangeMembers(m);
    assert |FileHoles(map[], 0, h).Keys| == h;
    assert |FileMoles(map[], 0, m).Keys| == m;
  }

  /**
   * Seating moles in the fresh arena until the moles or the holes run out
   * leaves `k` holes Unavailable and `k` moles Housed, the smaller of the two
   * counts, the rest where they were, and no mole dead.
   */
  lemma SeatedArena(h: nat, m: nat, b: Board)
    requires Seats(FreshBoard(h, m), b, Min(h, m))
    ensures var k := Min(h, m);
            && HoleIds(b) == IdRange(h) && MoleIds(b) == IdRange(m)
            && |b.unavailable| == k && |b.housed| == k
            && |b.available| == h - k && |b.unhoused| == m - k
            && b.dead == map[]
  {
    FreshArena(h, m);
  }

  /**
   * Once exactly as many moles are dead as the factory has made, no mole is
   * left alive: the win condition `Init` sets means every mole was whacked.
   */
  lemma AllDeadWhenWon(b: Board, n: int)
    requires Consistent(b) && n >= 0 && MoleIds(b) == IdRange(n) && |b.dead| == n
    ensures b.housed == map[] && b.unhoused == map[]
  {
    CountsMatchIds(b);
    IdRangeMembers(n);
    assert |b.housed.Keys| == 0 && |b.unhoused.Keys| == 0;
  }

  /**
   * A killed mole keeps its hole Unavailable, so no more moles die than there
   * are holes: with fewer holes than the winning number of dead moles, the
   * win condition is never met.
   */
  lemma DeadNeedHoles(b: Board, h: int, win: int)
    requires Consistent(b) && h >= 0 && HoleIds(b) == IdRange(h)
    ensures |b.dead| <= h
    ensures h < win ==> |b.dead| != win
  {
    SeatedCount(b);
    CountsMatchIds(b);
    IdRangeMembers(h);
  }

  /** `GetMoleStats` accounts for every mole made: the living and the dead add up to the counter. */
  lemma StatsCountEveryMole(b: Board, n: int)
    requires Consistent(b) && n >= 0 && MoleIds(b) == IdRange(n)
    ensures (|b.housed| + |b.unhoused|) + |b.dead| == n
  {
    CountsMatchIds(b);
    IdRangeMembers(n);
  }

  /** `PrintHolesString` lists every hole made, each once. */
  lemma HoleListCoversEveryHole(b: Board, n: int)
    requires Consistent(b) && n >= 0 && HoleIds(b) == IdRange(n)
    ensures b.available.Keys + b.unavailable.Keys == IdRange(n)
    ensures b.available.Keys !! b.unavailable.Keys
    ensures |b.available| + |b.unavailable| == n
  {
    CountsMatchIds(b);
    IdRangeMembers(n);
  }

  /**
   * Where `HouseMoles` stands with the moles `todo` still to try and `done`
   * tried: the arena is consistent, the moles still to try are unhoused, and
   * as many moles are seated as the tries so far could seat.
   */
  ghost predicate Housing(b0: Board, b: Board, todo: set<int>, done: nat) {
    && Consistent(b) && todo <= b.unhoused.Keys && |todo| + done == |b0.unhoused|
    && Seats(b0, b, Min(|b0.available|, done))
  }

  /** The moles housed in `b0` are still housed in `b`, with the same records. */
  ghost predicate StayPut(b0: Board, b: Board) {
    forall m :: m in b0.housed ==> m in b.housed && b.housed[m] == b0.housed[m]
  }

  /** An unhoused mole that tunnels takes hole `pick` if that hole is available, and otherwise nothing happens. */
  lemma TunnelUnhoused(b: Board, m: int, pick: int)
    requires Consistent(b) && m in b.unhoused
    ensures TunnelTo(b, m, pick) == if pick in b.available then Occupy(b, pick, m) else b
  {
  }

  /** One more unhoused mole tries to take an available hole, and the loop of `HouseMoles` goes on. */
  lemma HouseStep(b0: Board, b: Board, todo: set<int>, done: nat, m: int, pick: int, r: Board)
    requires Housing(b0, b, todo, done) && m in todo
    requires b.available != map[] ==> pick in b.available && r == Occupy(b, pick, m)
    requires b.available == map[] ==> r == b
    ensures Housing(b0, r, todo - {m}, done + 1)
  {
    SeatOne(b0, b, done, m, pick, r);
    if b.available != map[] {
      OccupyKeepsConsistent(b, pick, m);
    }
  }

  /** `Housing`, and the moles housed at the start have not moved. */
  ghost predicate Burrowing(b0: Board, b: Board, todo: set<int>, done: nat) {
    Housing(b0, b, todo, done) && StayPut(b0, b)
  }

  /** One more unhoused mole tunnels towards an available hole, and the first loop of `ProcessMoleMoves` goes on. */
  lemma BurrowStep(b0: Board, b: Board, todo: set<int>, done: nat, m: int, pick: int, r: Board)
    requires Burrowing(b0, b, todo, done) && m in todo
    requires r == TunnelTo(b, m, pick)
    requires m in r.housed <==> b.available != map[]
    requires m in r.housed ==> pick in Vacated(b, m).available
    ensures Burrowing(b0, r, todo - {m}, done + 1)
  {
    TunnelUnhoused(b, m, pick);
    HouseStep(b0, b, todo, done, m, pick, r);
    assert m !in b.housed;
  }

  /**
   * What the second loop of `ProcessMoleMoves` does to housed mole `m`: on
   * the first draw it says it vanished and tunnels, on the second it toggles
   * and says whether it vanished or where it appeared. `pick` names the hole
   * the tunnel chose.
   */
  method TakeTurn(hs: HoleSet, ms: MoleSet, m: int, move: bool, toggle: bool) returns (ev: seq<Event>, ghost pick: int)
    requires Consistent(Snapshot(hs, ms)) && m in ms.housed
    modifies hs, ms
    ensures move ==> pick in Vacated(old(Snapshot(hs, ms)), m).available
    ensures (Snapshot(hs, ms), ev) == MoleTurn(old(Snapshot(hs, ms)), m, move, toggle, pick)
  {
    ghost var b := Snapshot(hs, ms);
    pick := 0;
    var e1: seq<Event> := [];
    if move {
      e1 := [Vanished(m)];
      pick := MoleTunnel(hs, ms, m);
    }
    ghost var bm := Snapshot(hs, ms);
    assert bm == MoveHalf(b, m, move, pick);
    ev := e1;
    if toggle {
      MoleToggleState(hs, ms, m);
      var mole := ms.Find(m).value;
      var e2 := if mole.state == HidingAlive then Vanished(m) else Appeared(m, mole.hole.value);
      assert (Snapshot(hs, ms), e2) == ToggleHalf(bm, m);
      ev := e1 + [e2];
    }
    TurnHalves(b, m, move, toggle, pick);
  }

  /**
   * The body of the second loop of `ProcessMoleMoves`: some mole `m` of
   * `rest` takes its turn, and moves from `rest` to `turned`.
   */
  method TurnNext(hs: HoleSet, ms: MoleSet, ghost b1: Board, rest: set<int>, ghost turned: set<int>,
                  events: seq<Event>, movers: set<int>, togglers: set<int>)
    returns (rest': set<int>, ghost turned': set<int>, events': seq<Event>)
    requires Moving(b1, Snapshot(hs, ms), rest, turned, events, movers, togglers) && rest != {}
    modifies hs, ms
    ensures Moving(b1, Snapshot(hs, ms), rest', turned', events', movers, togglers)
    ensures |rest'| < |rest|
  {
    HasElement(rest);
    var m :| m in rest;
    ghost var b := Snapshot(hs, ms);
    var ev;
    ghost var pick;
    ev, pick := TakeTurn(hs, ms, m, m in movers, m in togglers);
    TurnStep(b1, b, rest, turned, events, movers, togglers, m, pick, Snapshot(hs, ms), ev);
    rest', turned', events' := rest - {m}, turned + {m}, events + ev;
  }

  /**
   * The second loop of `ProcessMoleMoves`: every mole Housed when the loop
   * begins takes its turn, in some order.
   */
  method TakeTurns(hs: HoleSet, ms: MoleSet, movers: set<int>, togglers: set<int>) returns (events: seq<Event>)
    requires Consistent(Snapshot(hs, ms))
    modifies hs, ms
    ensures Moving(old(Snapshot(hs, ms)), Snapshot(hs, ms), {}, old(Snapshot(hs, ms)).housed.Keys, events, movers, togglers)
  {
    ghost var b1 := Snapshot(hs, ms);
    PassStarts(b1, movers, togglers);
    var rest := ms.housed.Keys;
    ghost var turned: set<int> := {};
    events := [];
    while rest != {}
      invariant Moving(b1, Snapshot(hs, ms), rest, turned, events, movers, togglers)
      decreases |rest|
    {
      rest, turned, events := TurnNext(hs, ms, b1, rest, turned, events, movers, togglers);
    }
    PassEnds(b1, Snapshot(hs, ms), rest, turned, events, movers, togglers);
  }

  /** After the second loop: the housed moles, and those that drew nothing, are where they were, and every line is accounted for. */
  lemma TurnsDone(b1: Board, b: Board, events: seq<Event>, movers: set<int>, togglers: set<int>)
    requires Moving(b1, b, {}, b1.housed.Keys, events, movers, togglers)
    ensures b.housed.Keys == b1.housed.Keys
    ensures forall m :: m in b1.housed && m !in movers && m !in togglers ==> b.housed[m] == b1.housed[m]
    ensures Reported(b, b.housed.Keys, events, movers, togglers)
  {
  }

  /** After both loops of a tick: the moles housed at the start are still housed, and those that drew nothing have not moved. */
  lemma TickKeeps(b0: Board, b1: Board, b: Board, movers: set<int>, togglers: set<int>)
    requires StayPut(b0, b1) && b.housed.Keys == b1.housed.Keys
    requires forall m :: m in b1.housed && m !in movers && m !in togglers ==> b.housed[m] == b1.housed[m]
    ensures b0.housed.Keys <= b.housed.Keys
    ensures forall m :: m in b0.housed && m !in movers && m !in togglers ==> b.housed[m] == b0.housed[m]
  {
    forall m | m in b0.housed.Keys
      ensures m in b.housed.Keys
    {
      assert m in b1.housed;
    }
  }

  class Game {
    const holeFactory: HoleFactory
    const moleFactory: MoleFactory
    const winCondition: int
    var state: GameState

    /** Both registries as one value. */
    function Arena(): Board
      reads holeFactory.holeSet, moleFactory.moleSet
    {
      Snapshot(holeFactory.holeSet, moleFactory.moleSet)
    }

    /** Each factory's registry holds exactly what it made, and the arena is consistent. */
    ghost predicate Valid()
      reads holeFactory, moleFactory, holeFactory.holeSet, moleFactory.moleSet
    {
      holeFactory.Valid() && moleFactory.Valid() && Consistent(Arena())
    }

    /**
     * `Init`: `holes` holes and `moles` moles (none for a negative count), then
     * as many moles seated as there are holes for them; `moles` dead moles win.
     */
    constructor Init(holes: int, moles: int)
      ensures Valid() && state == Initializing && winCondition == moles
      ensures holeFactory.holeId == Max(holes, 0) && moleFactory.moleId == Max(moles, 0)
      ensures var b, k := Arena(), Min(Max(holes, 0), Max(moles, 0));
              && HoleIds(b) == IdRange(Max(holes, 0)) && MoleIds(b) == IdRange(Max(moles, 0))
              && |b.unavailable| == k && |b.housed| == k
              && |b.available| == Max(holes, 0) - k && |b.unhoused| == Max(moles, 0) - k
              && b.dead == map[]
    {
      winCondition := moles;
      state := Initializing;
      holeFactory := new HoleFactory();
      moleFactory := new MoleFactory();
      new;
      MakeHoles(holes);
      assert state == Initializing;
      MakeMoles(moles);
      assert state == Initializing;
      ghost var h, m := holeFactory.holeId, moleFactory.moleId;
      FreshArena(h, m);
      assert Arena() == FreshBoard(h, m);
      HouseMoles();
      assert state == Initializing;
      SeatedArena(h, m, Arena());
    }

    /** `MakeHoles`: `holes` new holes (none for a negative count), filed as Available. */
    method MakeHoles(holes: int)
      requires holeFactory.Valid()
      modifies holeFactory, holeFactory.holeSet
      ensures holeFactory.Valid()
      ensures holeFactory.holeId == old(holeFactory.holeId) + Max(holes, 0)
      ensures holeFactory.holeSet.available == FileHoles(old(holeFactory.holeSet.available), old(holeFactory.holeId), holeFactory.holeId)
      ensures holeFactory.holeSet.unavailable == old(holeFactory.holeSet.unavailable)
    {
      var hs := holeFactory.holeSet;
      ghost var a0 := hs.available;
      ghost var lo := holeFactory.holeId;
      var i := 0;
      while i < holes
        invariant 0 <= i <= Max(holes, 0)
        invariant holeFactory.holeId == lo + i
        invariant holeFactory.Valid()
        invariant hs.available == FileHoles(a0, lo, holeFactory.holeId)
        invariant hs.unavailable == old(hs.unavailable)
      {
        var _ := holeFactory.NewHole();
        i := i + 1;
      }
    }

    /** `MakeMoles`: `moles` new moles (none for a negative count), filed as Unhoused. */
    method MakeMoles(moles: int)
      requires moleFactory.Valid()
      modifies moleFactory, moleFactory.moleSet
      ensures moleFactory.Valid()
      ensures moleFactory.moleId == old(moleFactory.moleId) + Max(moles, 0)
      ensures moleFactory.moleSet.unhoused == FileMoles(old(moleFactory.moleSet.unhoused), old(moleFactory.moleId), moleFactory.moleId)
      ensures moleFactory.moleSet.housed == old(moleFactory.moleSet.housed)
      ensures moleFactory.moleSet.dead == old(moleFactory.moleSet.dead)
    {
      var ms := moleFactory.moleSet;
      ghost var u0 := ms.unhoused;
      ghost var lo := moleFactory.moleId;
      var i := 0;
      while i < moles
        invariant 0 <= i <= Max(moles, 0)
        invariant moleFactory.moleId == lo + i
        invariant moleFactory.Valid()
        invariant ms.unhoused == FileMoles(u0, lo, moleFactory.moleId)
        invariant ms.housed == old(ms.housed) && ms.dead == old(ms.dead)
      {
        var _ := moleFactory.NewMole();
        i := i + 1;
      }
    }

    /**
     * `HouseMoles`: every Unhoused mole in turn tries to take an Available
     * hole, so as many moles are seated as there are holes for them.
     */
    method HouseMoles()
      requires Valid()
      modifies holeFactory.holeSet, moleFactory.moleSet
      ensures Valid()
      ensures Seats(old(Arena()), Arena(), Min(|old(Arena()).available|, |old(Arena()).unhoused|))
    {
      var hs, ms := holeFactory.holeSet, moleFactory.moleSet;
      ghost var b0 := Snapshot(hs, ms);
      var todo := ms.unhoused.Keys;
      ghost var done: nat := 0;
      while todo != {}
        invariant Housing(b0, Snapshot(hs, ms), todo, done)
        decreases |todo|
      {
        HasElement(todo);
        var m :| m in todo;
        ghost var b := Snapshot(hs, ms);
        var ok;
        ghost var pick;
        ok, pick := MoleTryOccupy(hs, ms, m);
        HouseStep(b0, b, todo, done, m, pick, Snapshot(hs, ms));
        todo := todo - {m};
        done := done + 1;
      }
    }

    /**
     * `ProcessMoleMoves`: every Unhoused mole tunnels into an Available hole
     * while there is one, then every Housed mole takes its turn. The random
     * draws are inputs: the first draw fires for the moles `movers`, which
     * vanish and tunnel, the second for the moles `togglers`, which toggle.
     * Each loop goes over the IDs its bucket held when the loop began.
     */
    method ProcessMoleMoves(movers: set<int>, togglers: set<int>) returns (events: seq<Event>)
      requires Valid()
      modifies holeFactory.holeSet, moleFactory.moleSet
      ensures Valid()
      ensures Seats(old(Arena()), Arena(), Min(|old(Arena()).available|, |old(Arena()).unhoused|))
      ensures old(Arena()).housed.Keys <= Arena().housed.Keys
      ensures forall m :: m in old(Arena()).housed && m !in movers && m !in togglers ==>
                Arena().housed[m] == old(Arena()).housed[m]
      ensures Reported(Arena(), Arena().housed.Keys, events, movers, togglers)
    {
      ghost var b0 := Arena();
      MoveUnhoused();
      ghost var b1 := Arena();
      events := TakeTurns(holeFactory.holeSet, moleFactory.moleSet, movers, togglers);
      TurnsDone(b1, Arena(), events, movers, togglers);
      TickKeeps(b0, b1, Arena(), movers, togglers);
      SeatsThen(b0, b1, Arena(), Min(|b0.available|, |b0.unhoused|), 0);
    }

    /** The first loop of `ProcessMoleMoves`: every Unhoused mole tunnels into an Available hole while there is one. */
    method MoveUnhoused()
      requires Valid()
      modifies holeFactory.holeSet, moleFactory.moleSet
      ensures Valid()
      ensures Seats(old(Arena()), Arena(), Min(|old(Arena()).available|, |old(Arena()).unhoused|))
      ensures StayPut(old(Arena()), Arena())
    {
      var hs, ms := holeFactory.holeSet, moleFactory.moleSet;
      ghost var b0 := Snapshot(hs, ms);
      var todo := ms.unhoused.Keys;
      ghost var done: nat := 0;
      while todo != {}
        invariant Burrowing(b0, Snapshot(hs, ms), todo, done)
        decreases |todo|
      {
        HasElement(todo);
        var m :| m in todo;
        ghost var b := Snapshot(hs, ms);
        ghost var pick := MoleTunnel(hs, ms, m);
        BurrowStep(b0, b, todo, done, m, pick, Snapshot(hs, ms));
        todo := todo - {m};
        done := done + 1;
      }
    }

    /** `CheckWin`: exactly `moles` moles are dead. */
    function CheckWin(moles: int): (r: bool)
      reads this, moleFactory.moleSet
      ensures r <==> |moleFactory.moleSet.dead| == moles
    {
      moles == |moleFactory.moleSet.dead|
    }

    /** `winCheck`: the game ends, with a message, once the winning number of moles is dead. */
    method WinCheck() returns (out: seq<Message>)
      requires Valid()
      modifies this
      ensures Valid() && Arena() == old(Arena())
      ensures (state, out) == Turn.WinCheck(Arena(), old(state), winCondition)
    {
      out := [];
      if |moleFactory.moleSet.dead| == winCondition {
        out := [YouWin];
        state := End;
      }
    }

    /** `handleWhack`: the whack at the hole named by `hole`, as `Turn.Whack` describes it. */
    method HandleWhack(hole: string) returns (out: seq<Message>)
      requires Valid()
      modifies this, moleFactory.moleSet
      ensures Valid()
      ensures Outcome(Arena(), state, out) == Whack(old(Arena()), old(state), winCondition, hole)
    {
      ghost var b, st := Arena(), state;
      var id := Atoi(hole);
      if id.None? {
        return [Shlonk, BadHoleId];
      }
      var h := holeFactory.holeSet.GetHole(id.value);
      if h.None? {
        return [Shlonk, BadHoleId];
      }
      var hit, reply := HoleTryWhack(holeFactory.holeSet, moleFactory.moleSet, id.value);
      assert MoleIds(Arena()) == MoleIds(b);
      WhackAt(b, st, winCondition, hole, id.value);
      var won := [];
      if hit {
        won := WinCheck();
      }
      out := [Shlonk] + won + [WhackMsg(reply)];
    }

    /** `handleMoles`: the counts of living and dead moles. */
    method HandleMoles() returns (out: seq<Message>)
      ensures out == [Stats(Census(Arena()).0, Census(Arena()).1)]
    {
      var stats := moleFactory.moleSet.GetMoleStats();
      out := [Stats(stats.0, stats.1)];
    }

    /** `handleQuit`: the game ends, with a goodbye. */
    method HandleQuit() returns (out: seq<Message>)
      requires Valid()
      modifies this
      ensures Valid() && Arena() == old(Arena())
      ensures state == End && out == [Goodbye]
    {
      out := [Goodbye];
      state := End;
    }

    /** `ProcessPlayerInput`: one line typed by the player, as `Turn.Dispatch` describes it. */
    method ProcessPlayerInput(line: string) returns (out: seq<Message>)
      requires Valid()
      modifies this, holeFactory.holeSet, moleFactory.moleSet
      ensures Valid()
      ensures Outcome(Arena(), state, out) == Dispatch(old(Arena()), old(state), winCondition, line)
    {
      ghost var b, st := Arena(), state;
      var parts := Fields(line);
      if |parts| == 0 {
        return [];
      }
      match parts[0] {
        case "whack" =>
          if |parts| > 1 {
            out := HandleWhack(parts[1]);
          } else {
            out := [NoHoleId];
          }
          assert Outcome(Arena(), state, out) == Command(b, st, winCondition, parts);
        case "moles" =>
          out := HandleMoles();
          assert Outcome(Arena(), state, out) == Command(b, st, winCondition, parts);
        case "holes" =>
          out := [HoleList(holeFactory.holeSet.available.Keys, holeFactory.holeSet.unavailable.Keys)];
          assert Outcome(Arena(), state, out) == Command(b, st, winCondition, parts);
        case "help" =>
          out := [Help];
          assert Outcome(Arena(), state, out) == Command(b, st, winCondition, parts);
        case "quit" =>
          out := HandleQuit();
          assert Outcome(Arena(), state, out) == Command(b, st, winCondition, parts);
        case _ =>
          out := [UnknownCommand];
          assert Outcome(Arena(), state, out) == Command(b, st, winCondition, parts);
      }
      out := out + [Prompt];
      assert Outcome(Arena(), state, out) == Dispatch(b, st, winCondition, line);
    }
  }
}
