/**
 * What one line typed by the player does to the game, as a value: the new
 * arena, the new game state and the messages written back. The `Game` class
 * performs these effects in place and is proved to agree with `Dispatch`.
 */
module Turn {
  import opened Wrappers
  import opened Domain
  import opened Commands
  import opened Laws

  datatype GameState = Initializing | Playing | End

  /** The messages the engine writes, one constructor per distinct text. */
  datatype Message =
    | Shlonk                                                  // the sound of every whack with an argument
    | BadHoleId                                               // not an integer, or no such hole
    | NoHoleId                                                // `whack` without an argument
    | WhackMsg(reply: WhackReply)                             // the hole's answer to the whack
    | YouWin
    | Stats(alive: int, dead: int)                           // `GetMoleStats`
    | HoleList(available: set<int>, unavailable: set<int>)   // `PrintHolesString`; its order is a map range
    | Help
    | Goodbye
    | UnknownCommand
    | Prompt

  datatype Outcome = Outcome(board: Board, state: GameState, out: seq<Message>)

  /** `winCheck`: the game ends once exactly the winning number of moles is dead. */
  function WinCheck(b: Board, st: GameState, win: int): (r: (GameState, seq<Message>))
    ensures r.0 == End <==> |b.dead| == win || st == End
    ensures r.0 != st ==> r.0 == End && |b.dead| == win
    ensures |r.1| <= 1 && (r.1 == [YouWin] <==> |b.dead| == win)
  {
    if |b.dead| == win then (End, [YouWin]) else (st, [])
  }

  /**
   * `handleWhack`: an argument that is not an integer or names no hole is
   * reported; otherwise the hole is whacked and, on a hit, the win is checked
   * before the hole's answer is written.
   */
  function Whack(b: Board, st: GameState, win: int, arg: string): (o: Outcome)
    requires Consistent(b)
    ensures |o.out| >= 2 && o.out[0] == Shlonk
    ensures o.out[1] == BadHoleId <==> Atoi(arg).None? || Atoi(arg).value !in HoleIds(b)
    ensures o.out[1] == BadHoleId ==> o.board == b && o.state == st
  {
    var id := Atoi(arg);
    if id.None? || id.value !in HoleIds(b) then Outcome(b, st, [Shlonk, BadHoleId])
    else
      var w := WhackHole(b, id.value);
      if !w.hit then Outcome(b, st, [Shlonk, WhackMsg(w.reply)])
      else
        var (st', won) := WinCheck(w.board, st, win);
        Outcome(w.board, st', [Shlonk] + won + [WhackMsg(w.reply)])
  }

  /** The effect of a command word with its arguments, before the prompt is written. */
  function Command(b: Board, st: GameState, win: int, parts: seq<string>): (o: Outcome)
    requires Consistent(b) && |parts| > 0
  {
    match parts[0]
    case "whack" => if |parts| > 1 then Whack(b, st, win, parts[1]) else Outcome(b, st, [NoHoleId])
    case "moles" => Outcome(b, st, [Stats(Census(b).0, Census(b).1)])
    case "holes" => Outcome(b, st, [HoleList(b.available.Keys, b.unavailable.Keys)])
    case "help" => Outcome(b, st, [Help])
    case "quit" => Outcome(b, End, [Goodbye])
    case _ => Outcome(b, st, [UnknownCommand])
  }

  /**
   * `ProcessPlayerInput`: a blank line does nothing; any other line is split
   * into words, the first word picks the command, and the prompt follows.
   */
  function Dispatch(b: Board, st: GameState, win: int, line: string): (o: Outcome)
    requires Consistent(b)
    ensures Fields(line) == [] <==> o.out == []
    ensures Fields(line) != [] ==> |o.out| >= 2 && o.out[|o.out| - 1] == Prompt
  {
    var parts := Fields(line);
    if |parts| == 0 then Outcome(b, st, [])
    else
      var o := Command(b, st, win, parts);
      o.(out := o.out + [Prompt])
  }

  // ---------------------------------------------------------------------------
  // What a command can and cannot change
  // ---------------------------------------------------------------------------

  /** The first word of a line whose effect is a successful whack. */
  ghost predicate WinningWhack(b: Board, win: int, line: string)
    requires Consistent(b)
  {
    var parts := Fields(line);
    && |parts| > 1 && parts[0] == "whack"
    && Atoi(parts[1]).Some? && Atoi(parts[1]).value in HoleIds(b)
    && WhackHole(b, Atoi(parts[1]).value).hit
    && |WhackHole(b, Atoi(parts[1]).value).board.dead| == win
  }

  /** A whack changes the arena only when it hits, and the state only when that hit wins. */
  lemma WhackEffect(b: Board, st: GameState, win: int, arg: string)
    requires Consistent(b)
    ensures var o := Whack(b, st, win, arg);
            var id := Atoi(arg);
            if id.Some? && id.value in HoleIds(b) && WhackHole(b, id.value).hit then
              && o.board == WhackHole(b, id.value).board
              && o.state == (if |o.board.dead| == win then End else st)
            else o.board == b && o.state == st
  {
    var id := Atoi(arg);
    if id.Some? && id.value in HoleIds(b) {
      WhackAt(b, st, win, arg, id.value);
    }
  }

  /** A whack at an existing hole `h`: the hole's answer, preceded on a hit by the win check. */
  lemma WhackAt(b: Board, st: GameState, win: int, arg: string, h: int)
    requires Consistent(b) && Atoi(arg) == Some(h) && h in HoleIds(b)
    ensures var w := WhackHole(b, h);
            Whack(b, st, win, arg) ==
              if w.hit then Outcome(w.board, WinCheck(w.board, st, win).0, [Shlonk] + WinCheck(w.board, st, win).1 + [WhackMsg(w.reply)])
              else Outcome(b, st, [Shlonk, WhackMsg(w.reply)])
  {
  }

  /**
   * What a whack at an existing hole `h` writes: on a hit, "You win" comes
   * exactly when the kill brings the dead to the winning number, and then
   * between the sound and the hole's answer; a whiff or a laugh writes only
   * the sound and that answer, and changes nothing.
   */
  lemma WhackOutput(b: Board, st: GameState, win: int, arg: string, h: int)
    requires Consistent(b) && Atoi(arg) == Some(h) && h in HoleIds(b)
    ensures var o := Whack(b, st, win, arg);
            var w := WhackHole(b, h);
            && (w.hit ==> (YouWin in o.out <==> |b.dead| + 1 == win))
            && (w.hit && |b.dead| + 1 == win ==> o.out == [Shlonk, YouWin, WhackMsg(Bonked)] && o.state == End)
            && (w.hit && |b.dead| + 1 != win ==> o.out == [Shlonk, WhackMsg(Bonked)] && o.state == st)
            && (!w.hit ==> o.out == [Shlonk, WhackMsg(w.reply)] && w.reply != Bonked && o.board == b && o.state == st)
  {
    var w := WhackHole(b, h);
    var o := Whack(b, st, win, arg);
    if w.hit {
      var m := b.unavailable[h].occupant.value;
      assert Seated(b, h, m);
      KillCounts(b, m);
      assert o == Outcome(w.board, WinCheck(w.board, st, win).0, [Shlonk] + WinCheck(w.board, st, win).1 + [WhackMsg(Bonked)]);
      HitLines(w.board, st, win);
    } else {
      assert o == Outcome(b, st, [Shlonk, WhackMsg(w.reply)]);
    }
  }

  /** The lines a hit writes around the win check on the arena after the kill. */
  lemma HitLines(d: Board, st: GameState, win: int)
    ensures var (st', won) := WinCheck(d, st, win);
            var out := [Shlonk] + won + [WhackMsg(Bonked)];
            && (YouWin in out <==> |d.dead| == win)
            && (|d.dead| == win ==> out == [Shlonk, YouWin, WhackMsg(Bonked)] && st' == End)
            && (|d.dead| != win ==> out == [Shlonk, WhackMsg(Bonked)] && st' == st)
  {
  }

  /** What a command does to the arena and the state is what its whack, if any, does. */
  lemma CommandEffect(b: Board, st: GameState, win: int, parts: seq<string>)
    requires Consistent(b) && |parts| > 0
    ensures var o := Command(b, st, win, parts);
            if |parts| > 1 && parts[0] == "whack" then
              o.board == Whack(b, st, win, parts[1]).board && o.state == Whack(b, st, win, parts[1]).state
            else if parts[0] == "quit" then o.board == b && o.state == End
            else o.board == b && o.state == st
  {
    if |parts| > 1 && parts[0] == "whack" {
      assert Command(b, st, win, parts) == Whack(b, st, win, parts[1]);
    } else if parts[0] == "quit" {
      assert Command(b, st, win, parts) == Outcome(b, End, [Goodbye]);
    } else {
      assert Command(b, st, win, parts).board == b;
    }
  }

  /** What a line does to the arena and the state is what its command does. */
  lemma DispatchEffect(b: Board, st: GameState, win: int, line: string)
    requires Consistent(b)
    ensures var o := Dispatch(b, st, win, line);
            var parts := Fields(line);
            if |parts| > 1 && parts[0] == "whack" then
              o.board == Whack(b, st, win, parts[1]).board && o.state == Whack(b, st, win, parts[1]).state
            else if parts != [] && parts[0] == "quit" then o.board == b && o.state == End
            else o.board == b && o.state == st
  {
    var parts := Fields(line);
    if parts != [] {
      CommandEffect(b, st, win, parts);
    }
  }

  /**
   * Only `quit` and a whack whose kill brings the dead to the winning number
   * change the game state, and both set it to End.
   */
  lemma StateChangesOnlyToEnd(b: Board, st: GameState, win: int, line: string)
    requires Consistent(b)
    ensures var o := Dispatch(b, st, win, line);
            o.state != st ==> o.state == End
    ensures var o := Dispatch(b, st, win, line);
            var parts := Fields(line);
            o.state == End <==> st == End || (parts != [] && parts[0] == "quit") || WinningWhack(b, win, line)
  {
    DispatchEffect(b, st, win, line);
    var parts := Fields(line);
    if |parts| > 1 && parts[0] == "whack" {
      WhackEffect(b, st, win, parts[1]);
    }
  }

  /** Only a whack that hits changes the arena, and then exactly by killing one Exposed mole. */
  lemma BoardChangesOnlyByKill(b: Board, st: GameState, win: int, line: string)
    requires Consistent(b)
    ensures var o := Dispatch(b, st, win, line);
            o.board != b ==> exists m :: m in b.housed && b.housed[m].state == ExposedAlive && o.board == Kill(b, m)
  {
    DispatchEffect(b, st, win, line);
    var o := Dispatch(b, st, win, line);
    var parts := Fields(line);
    if o.board != b {
      assert |parts| > 1 && parts[0] == "whack";
      WhackEffect(b, st, win, parts[1]);
      var h := Atoi(parts[1]).value;
      var w := WhackHole(b, h);
      assert w.hit && o.board == w.board;
      var m := b.unavailable[h].occupant.value;
      assert m in b.housed && b.housed[m].state == ExposedAlive;
    }
  }

  /**
   * Blank lines, `moles`, `holes`, `help`, unknown words, `whack` without an
   * argument and `whack` at an unknown hole change neither the arena nor the state.
   */
  lemma QuietCommands(b: Board, st: GameState, win: int, line: string)
    requires Consistent(b)
    requires var parts := Fields(line);
             || parts == []
             || (parts[0] != "whack" && parts[0] != "quit")
             || (parts[0] == "whack" && |parts| == 1)
             || (parts[0] == "whack" && (Atoi(parts[1]).None? || Atoi(parts[1]).value !in HoleIds(b)))
    ensures Dispatch(b, st, win, line).board == b && Dispatch(b, st, win, line).state == st
  {
    DispatchEffect(b, st, win, line);
    var parts := Fields(line);
    if |parts| > 1 && parts[0] == "whack" {
      WhackEffect(b, st, win, parts[1]);
    }
  }

  /** A line of nothing but white space (tabs and new lines included) does nothing and writes nothing. */
  lemma BlankLine(b: Board, st: GameState, win: int, line: string)
    requires Consistent(b)
    requires forall i :: 0 <= i < |line| ==> IsSpace(line[i])
    ensures Dispatch(b, st, win, line) == Outcome(b, st, [])
  {
    FieldsOfBlank(line);
  }

  /** White space around a line, before or after its words, does not change what the line does. */
  lemma PaddedLine(b: Board, st: GameState, win: int, pre: string, line: string, post: string)
    requires Consistent(b)
    requires forall i :: 0 <= i < |pre| ==> IsSpace(pre[i])
    requires forall i :: 0 <= i < |post| ==> IsSpace(post[i])
    ensures Dispatch(b, st, win, pre + line + post) == Dispatch(b, st, win, line)
  {
    FieldsPadded(pre, line, post);
  }

  /** A whack that misses or only makes the mole laugh changes nothing either. */
  lemma MissChangesNothing(b: Board, st: GameState, win: int, h: int)
    requires Consistent(b) && h in HoleIds(b) && MinInt64 <= h <= MaxInt64 && !WhackHole(b, h).hit
    ensures Dispatch(b, st, win, "whack " + DecimalString(h)) == Outcome(b, st, [Shlonk, WhackMsg(WhackHole(b, h).reply), Prompt])
  {
    WhackLine(h);
    AtoiOfDecimalString(h);
  }

  /** A hit at hole `h` kills its occupant and ends the game exactly when that makes `win` dead moles. */
  lemma HitKills(b: Board, st: GameState, win: int, h: int)
    requires Consistent(b) && h in HoleIds(b) && MinInt64 <= h <= MaxInt64 && WhackHole(b, h).hit
    ensures h in b.unavailable && b.unavailable[h].occupant.value in b.housed
    ensures var o := Dispatch(b, st, win, "whack " + DecimalString(h));
            && o.board == Kill(b, b.unavailable[h].occupant.value)
            && |o.board.dead| == |b.dead| + 1
            && (o.state == End <==> |b.dead| + 1 == win || st == End)
  {
    var line := "whack " + DecimalString(h);
    WhackLine(h);
    AtoiOfDecimalString(h);
    var m := b.unavailable[h].occupant.value;
    assert Seated(b, h, m);
    assert m in b.housed;
    DispatchEffect(b, st, win, line);
    WhackEffect(b, st, win, DecimalString(h));
    KillCounts(b, m);
  }

  /** The line `whack <h>` splits into the verb and the number written in decimal. */
  lemma WhackLine(h: int)
    ensures Fields("whack " + DecimalString(h)) == ["whack", DecimalString(h)]
  {
    var d := DecimalString(h);
    assert IsWord(d) by {
      if h < 0 {
        assert d == "-" + Digits(-h);
      }
    }
    assert IsWord("whack");
    assert Unwords(["whack", d]) == "whack " + d;
    FieldsOfUnwords(["whack", d]);
  }
}
