# Whack-a-mole engine, modelled in Dafny

This project models the in-memory engine of a terminal whack-a-mole game. The
engine lives in `cmd/main.go`. It keeps two registries:

- a hole registry, with the buckets Available and Unavailable;
- a mole registry, with the buckets Unhoused, Housed and Dead.

Two factories hand out sequential IDs and file every new entity in its starting
bucket. Holes and moles move between buckets through the occupancy operations:

- `Hole.TryOccupy`, `Hole.Free` and `Hole.TryWhack`;
- `Mole.Tunnel`, `Mole.ToggleState`, `Mole.TryWhack`, `Mole.GetAvailableHole`
  and `Mole.TryOccupy`.

On top of these, the `Game` sets up the arena (`Init`), plays one line typed by
the player (`ProcessPlayerInput` and its `handle*` helpers) and plays one tick
of the moles (`ProcessMoleMoves`).

The model has three layers:

- **Pure layer.** `Domain` holds the whole arena as a value (`Board`), the
  invariant `Consistent` that links holes and moles, and one transition function
  per operation. `Laws`, `Moves` and `Turn` prove what those transitions
  guarantee: bucket counts, undo laws, Dead being terminal, what a mole's turn
  reports, and which commands can change the game.
- **Imperative layer.** The classes `HoleSet` and `MoleSet` in `Registry` hold
  the bucket maps, which the engine updates in place. The factory classes in
  `Factories` and the `Game` class in `Engine` change them through their
  methods. `Occupancy` is a module of methods over a `HoleSet` and a `MoleSet`
  that stand for the entity methods of the engine. Each method is proved
  against the pure transition: `Snapshot(hs, ms) == F(old(Snapshot(hs, ms)), …)`.
- **Text handling.** `Commands` models `strings.Fields` and `strconv.Atoi`, the
  two library routines the command dispatcher relies on. It proves the round
  trips that let a `whack <id>` line be reasoned about.

The entities are records filed in the bucket maps under their own IDs. The Go
pointers `OccupyingMole` and `HoleOccupied` become optional IDs. Output written
to the `io.Writer` becomes a sequence of `Message` values (player commands) or
`Event` values (mole moves).

## Model

| member | source | states |
|---|---|---|
| Registry.AddToMap | cmd/main.go:109-115 | Filing fails with `AlreadyExists` exactly when the ID is already in the bucket; otherwise the bucket gains that key with that record, and every other entry is kept |
| Registry.HoleSet.constructor | cmd/main.go:175-182 | A new hole registry has both buckets empty |
| Registry.HoleSet.AddAvailable | cmd/main.go:149-151 | A duplicate ID errors and leaves Available unchanged; otherwise the hole is filed; Unavailable is never touched |
| Registry.HoleSet.RemoveAvailable | cmd/main.go:153-155 | The ID is deleted from Available only |
| Registry.HoleSet.AddUnavailable | cmd/main.go:157-159 | A duplicate ID errors and leaves Unavailable unchanged; otherwise the hole is filed; Available is never touched |
| Registry.HoleSet.RemoveUnavailable | cmd/main.go:161-163 | The ID is deleted from Unavailable only |
| Registry.HoleSet.GetHole | cmd/main.go:97-107 | Finds a hole exactly when the ID is in either bucket, and returns the record filed there |
| Registry.MoleSet.constructor | cmd/main.go:184-192 | A new mole registry has all three buckets empty |
| Registry.MoleSet.AddHoused | cmd/main.go:117-119 | A duplicate ID errors and leaves Housed unchanged; otherwise the mole is filed; the other buckets are untouched |
| Registry.MoleSet.RemoveHoused | cmd/main.go:121-123 | The ID is deleted from Housed only |
| Registry.MoleSet.AddUnhoused | cmd/main.go:125-127 | A duplicate ID errors and leaves Unhoused unchanged; otherwise the mole is filed; the other buckets are untouched |
| Registry.MoleSet.RemoveUnhoused | cmd/main.go:129-131 | The ID is deleted from Unhoused only |
| Registry.MoleSet.AddDead | cmd/main.go:133-135 | A duplicate ID errors and leaves Dead unchanged; otherwise the mole is filed; the other buckets are untouched |
| Registry.MoleSet.RemoveDead | cmd/main.go:137-139 | The ID is deleted from Dead only |
| Registry.MoleSet.GetMoleStats | cmd/main.go:93-95 | Alive is the size of Housed plus Unhoused; Dead is the size of Dead |
| Factories.IdRangeMembers | cmd/main.go:165-173 | After `n` calls a factory has handed out exactly the IDs 1 to `n`, which is `n` IDs |
| Factories.HoleFactory.constructor | cmd/main.go:175-182 | The counter is zero and the registry is fresh and empty |
| Factories.HoleFactory.NewHole | cmd/main.go:165-173 | The counter goes up by one. The new hole has that ID, is Unoccupied and is filed in Available. If that ID was already in Available, the result is the duplicate error and Available is unchanged. A valid factory never hits that case and stays valid |
| Factories.MoleFactory.constructor | cmd/main.go:184-192 | The counter is zero and the registry is fresh and empty |
| Factories.MoleFactory.NewMole | cmd/main.go:201-209 | The counter goes up by one. The new mole has that ID, is Tunneling and is filed in Unhoused. If that ID was already in Unhoused, the result is the duplicate error and Unhoused is unchanged. A valid factory never hits that case and stays valid |
| Domain.HoleStateMatchesBucket | cmd/main.go:211-237 | On a consistent arena a hole is Occupied exactly when it is Unavailable, and exactly when it has an occupant |
| Domain.Occupy | cmd/main.go:211-225 | The hole moves to Unavailable and becomes Occupied. The mole moves to Housed and becomes Hiding. The two are linked both ways. No ID is created or lost |
| Domain.Free | cmd/main.go:227-237 | The hole goes back to Available, Unoccupied and empty. Its occupant goes back to Unhoused, Tunneling and with no hole. Dead moles and the ID sets are unchanged |
| Domain.Toggled | cmd/main.go:251-258 | Hiding and Exposed swap; Tunneling and Dead stay as they are |
| Domain.Toggle | cmd/main.go:251-258 | Toggling changes no bucket and no hole |
| Domain.ToggleOnlyHoused | cmd/main.go:251-258 | On a consistent arena, toggling a mole that is not housed changes nothing |
| Domain.Kill | cmd/main.go:272-280 | The mole moves from Housed to Dead, becomes Dead and keeps its hole; the holes are untouched |
| Domain.WhackHole | cmd/main.go:260-270 | A hit happens exactly when the reply is "bonked". The reply is "whiff" exactly on an empty hole. A hit happens exactly when the hole's occupant is Exposed, and then the arena is `Kill` of that occupant. A miss changes nothing, and the holes never change |
| Domain.Vacated | cmd/main.go:243-246 | A housed mole frees its hole, which becomes Available. Either way the mole ends Unhoused, and the arena stays consistent |
| Domain.TunnelTo | cmd/main.go:243-249 | Tunnelling creates or loses no hole and no mole, and leaves the dead untouched |
| Domain.OccupyKeepsConsistent | cmd/main.go:211-225 | `Hole.TryOccupy` on an Available hole and an Unhoused mole keeps the invariant |
| Domain.FreeKeepsConsistent | cmd/main.go:227-237 | `Hole.Free` on a hole with a living occupant keeps the invariant |
| Domain.ToggleKeepsConsistent | cmd/main.go:251-258 | `Mole.ToggleState` keeps the invariant |
| Domain.KillKeepsConsistent | cmd/main.go:272-280 | A successful `Mole.TryWhack` keeps the invariant |
| Domain.WhackKeepsConsistent | cmd/main.go:260-270 | `Hole.TryWhack` keeps the invariant |
| Domain.TunnelKeepsConsistent | cmd/main.go:243-249 | `Mole.Tunnel` of a living mole keeps the invariant, whichever Available hole it picks |
| Domain.NewHoleKeepsConsistent | cmd/main.go:165-173 | Filing a new Unoccupied hole under an unused ID keeps the invariant |
| Domain.NewMoleKeepsConsistent | cmd/main.go:201-209 | Filing a new Tunneling mole under an unused ID keeps the invariant |
| Laws.OccupyCounts | cmd/main.go:211-225 | Occupying moves one hole from Available to Unavailable and one mole from Unhoused to Housed |
| Laws.FreeCounts | cmd/main.go:227-237 | Freeing moves one hole back to Available and one mole back to Unhoused |
| Laws.KillCounts | cmd/main.go:272-280 | A kill moves one mole from Housed to Dead and leaves every other bucket's size alone |
| Laws.TunnelCounts | cmd/main.go:243-249 | A tunnelling mole ends housed. A housed mole leaves every bucket size as it was; an unhoused one is seated in one Available hole |
| Laws.TunnelHousedCounts | cmd/main.go:243-249 | A housed mole that tunnels leaves its hole and takes another, so every bucket keeps its size |
| Laws.TunnelKeepsHousedKeys | cmd/main.go:243-249 | Tunnelling a housed mole keeps the sets of Housed and Unhoused IDs |
| Laws.ToggleSeats | cmd/main.go:251-258 | Toggling a housed mole seats nobody and unseats nobody |
| Laws.SeatOne | cmd/main.go:332-336 | After one more try, the number of moles seated is the smaller of the tries made and the holes that were Available |
| Laws.SeatsThen | cmd/main.go:465-485 | Seating `j` moles and then `k` more seats `j + k` |
| Laws.CountsMatchIds | cmd/main.go:69-78 | On a consistent arena the buckets are disjoint, so their sizes add up to the number of hole IDs and of mole IDs |
| Laws.FreeUndoesOccupy | cmd/main.go:211-237 | Freeing the hole just occupied restores the arena exactly |
| Laws.OccupyUndoesFree | cmd/main.go:211-237 | Re-occupying a freed hole with its Hiding occupant restores the arena exactly |
| Laws.SeatedCount | cmd/main.go:211-280 | Occupied holes and seated moles, living or dead, correspond one to one, so the number of Unavailable holes is the number of Housed plus Dead moles |
| Laws.Apply | cmd/main.go:211-280 | Every entity operation keeps the invariant and the ID sets, and keeps each dead mole dead with the same record |
| Laws.Run | cmd/main.go:211-280 | Any sequence of entity operations keeps the invariant |
| Laws.DeadIsTerminal | cmd/main.go:251-280 | No sequence of operations moves a dead mole out of Dead or changes its record |
| Laws.RunConservesCounts | cmd/main.go:211-280 | No sequence of operations creates or loses a hole or a mole: the bucket sizes of each registry keep their sum |
| Occupancy.HoleTryOccupy | cmd/main.go:211-225 | The call succeeds exactly when the hole was Available. Then the registries are `Occupy` of the old arena; otherwise they are unchanged. The invariant is kept |
| Occupancy.HoleFree | cmd/main.go:227-237 | The registries become `Free` of the old arena, and the invariant is kept |
| Occupancy.MoleTryWhack | cmd/main.go:272-280 | The call succeeds exactly when the mole was Exposed. Then the registries are `Kill` of the old arena; otherwise they are unchanged |
| Occupancy.HoleTryWhack | cmd/main.go:260-270 | The hit flag, the reply and the new registries are `WhackHole` of the old arena, so an empty hole is a miss |
| Occupancy.MoleToggleState | cmd/main.go:251-258 | The registries become `Toggle` of the old arena |
| Occupancy.GetAvailableHole | cmd/main.go:282-293 | No hole is returned exactly when the mole is Dead or Available is empty; any hole returned is Available |
| Occupancy.MoleTryOccupy | cmd/main.go:295-301 | The call succeeds exactly when some hole was Available. Then the mole is seated in an Available hole; otherwise nothing changes |
| Occupancy.MoleTunnel | cmd/main.go:243-249 | The registries become `TunnelTo` of the old arena. The mole ends housed exactly when it was housed or a hole was Available, and then it is Hiding in a hole that was Available after it left its own |
| Commands.WordSpan | cmd/main.go:422 | The first word ends at the first space or at the end of the line |
| Commands.Fields | cmd/main.go:422 | Every field is a non-empty word with no white space in it |
| Commands.FieldsOfUnwords | cmd/main.go:422 | Splitting words joined by single spaces gives the words back |
| Commands.FieldsOfBlank | cmd/main.go:422 | A line of nothing but white space has no fields |
| Commands.WordSpanAppend | cmd/main.go:422 | Text after the first word does not change where that word ends, unless the word runs to the end |
| Commands.FieldsSplit | cmd/main.go:422 | Any white-space character splits the fields into those before it and those after it, so runs of white space count as one separator |
| Commands.FieldsLeading | cmd/main.go:422 | Leading white space does not change the fields |
| Commands.FieldsTrailing | cmd/main.go:422 | Trailing white space does not change the fields |
| Commands.FieldsPadded | cmd/main.go:422 | White space on both sides of a line does not change its fields |
| Commands.Atoi | cmd/main.go:383 | A parsed value fits in 64 bits, comes from an optional sign and all-decimal digits, and has the sign written |
| Commands.AtoiOfDecimalString | cmd/main.go:383-388 | Parsing an ID written in decimal gives the ID back |
| Commands.AtoiOfSignedDigits | cmd/main.go:383 | An optional `+` or `-` followed by at least one digit parses to the value it stands for whenever that fits in 64 bits, leading zeros included |
| Commands.AtoiSplits | cmd/main.go:383 | Whatever parses is an optional sign followed by at least one digit, and its value is the one they stand for |
| Commands.AtoiRefuses | cmd/main.go:383-388 | The empty string, a sign alone, a trailing non-digit and a value past 64 bits are all refused |
| Turn.WinCheck | cmd/main.go:375-380 | The game ends, with a win message, exactly when the dead count equals the win threshold; otherwise the state is kept |
| Turn.Whack | cmd/main.go:382-399 | The output always starts with `SHLONK`. It reports an unrecognised hole exactly when the argument does not parse or names no hole, and then nothing changes |
| Turn.Dispatch | cmd/main.go:420-447 | A line with no fields produces no output; any other line ends with the prompt |
| Turn.WhackEffect | cmd/main.go:382-399 | A whack changes the arena only on a hit, to `WhackHole`'s result, and then ends the game exactly when the dead count reaches the threshold |
| Turn.WhackOutput | cmd/main.go:382-399 | At an existing hole, a hit writes "You win" exactly when the kill brings the dead to the threshold, between `SHLONK` and the bonk; a whiff or a laugh writes only `SHLONK` and that reply, and changes nothing |
| Turn.HitLines | cmd/main.go:375-380 | Around a hit, the win line appears exactly when the dead count equals the threshold, and the state becomes End exactly then |
| Turn.CommandEffect | cmd/main.go:427-444 | Only `whack <arg>` can change the arena; `quit` sets End; every other command changes neither the arena nor the state |
| Turn.DispatchEffect | cmd/main.go:420-447 | What a line does to the arena and the state is what its first word's command does |
| Turn.StateChangesOnlyToEnd | cmd/main.go:420-447 | The state changes only to End. It is End afterwards exactly when it was End already, the line is `quit`, or the line is a whack that kills the last mole needed to win |
| Turn.BoardChangesOnlyByKill | cmd/main.go:420-447 | The arena changes only by killing one Exposed housed mole |
| Turn.QuietCommands | cmd/main.go:420-447 | Blank lines, `moles`, `holes`, `help`, unknown words, `whack` without an argument and `whack` at an unknown hole change neither the arena nor the state |
| Turn.BlankLine | cmd/main.go:420-424 | A line of nothing but white space, tabs and new lines included, changes nothing and writes nothing |
| Turn.PaddedLine | cmd/main.go:420-447 | White space before or after a line's words does not change its effect or its output |
| Turn.MissChangesNothing | cmd/main.go:382-399 | `whack <h>` at a hole where the whack misses writes `SHLONK`, the reply and the prompt, and changes nothing |
| Turn.HitKills | cmd/main.go:382-399 | `whack <h>` that hits kills the occupant, adds one to the dead count, and ends the game exactly when that reaches the threshold |
| Turn.WhackLine | cmd/main.go:420-430 | The line `whack <h>` splits into the verb and the decimal ID |
| Moves.TunnelLands | cmd/main.go:243-249 | A housed mole that tunnels lands Hiding in the hole it picked. The arena stays consistent, every bucket keeps its size and the other records are unchanged |
| Moves.MoveHalf | cmd/main.go:472-475 | On the first draw the mole tunnels and ends Hiding in the hole it picked. Without the draw nothing changes. Either way the other moles are untouched |
| Moves.MoveHalfKeeps | cmd/main.go:472-475 | The first half of a turn keeps the invariant and every bucket's size |
| Moves.ToggleHalf | cmd/main.go:476-483 | The line written is about the mole that toggled |
| Moves.ToggleHalfShows | cmd/main.go:476-483 | The mole stays in its hole with its state toggled. It writes "vanished" exactly when it now hides; otherwise it writes "appeared" with its own hole |
| Moves.ToggleHalfKeeps | cmd/main.go:476-483 | The second half of a turn keeps the invariant and every bucket's size |
| Moves.MoleTurn | cmd/main.go:471-484 | A turn writes one line per draw that fired, all about that mole |
| Moves.TurnResult | cmd/main.go:471-484 | A mole that tunnels lands Hiding in the hole it picked and says it vanished; a toggle then flips its state and reports vanished or the hole it shows in; a mole with no draw keeps state and hole |
| Moves.TurnKeeps | cmd/main.go:471-484 | A turn keeps the invariant and every bucket's size |
| Moves.TurnOthers | cmd/main.go:471-484 | A turn keeps every housed mole housed and leaves the other moles' records alone |
| Moves.TurnShowsMove | cmd/main.go:471-484 | A mole that draws nothing is untouched and writes nothing. A mole that tunnels first writes "vanished"; if it does not also toggle, it hides in the hole it picked |
| Moves.TurnShowsToggle | cmd/main.go:476-483 | A toggling mole is left in the state its last line reports, in a hole. One that tunnelled first always appears |
| Moves.ToggleLive | cmd/main.go:251-258 | A housed mole toggles to Hiding or Exposed, never to Tunneling or Dead |
| Moves.TurnAppears | cmd/main.go:478-481 | Every "appeared" line names the hole the mole is left Exposed in |
| Moves.PassStarts | cmd/main.go:471 | A pass starts with every housed mole still to go, none done and no line written |
| Moves.PassEnds | cmd/main.go:471-484 | A pass with no mole left to go has done every mole that was housed when it began |
| Moves.DrawsStep | cmd/main.go:472-476 | One more mole's turn adds one line per draw that fired for it |
| Moves.TurnReports | cmd/main.go:471-484 | A turn does all that `Reports` states: other records are unchanged, one line per draw, and the mole is left in the state it last reported |
| Moves.ReportStep | cmd/main.go:471-484 | One more turn keeps every line reported so far true of the new arena, and adds its own |
| Moves.UntouchedStep | cmd/main.go:471-484 | A turn leaves the moles still to go, and those that drew nothing, with their records |
| Moves.MoveStep | cmd/main.go:471-484 | One more consistent turn that keeps every bucket's size keeps the pass's invariant |
| Moves.TurnStep | cmd/main.go:471-484 | The turn of any mole still to go keeps the pass's invariant |
| Engine.FileHolesContents | cmd/main.go:320-324 | `MakeHoles` into an empty registry files the holes 1 to `n`, each Unoccupied and empty |
| Engine.FileMolesContents | cmd/main.go:326-330 | `MakeMoles` into an empty registry files the moles 1 to `n`, each Tunneling and unhoused |
| Engine.FreshArena | cmd/main.go:343-349 | The arena before seating is consistent. Its IDs are 1 to `h` and 1 to `m`, and Available and Unhoused hold all of them |
| Engine.SeatedArena | cmd/main.go:343-350 | After seating, the smaller of the two counts is Unavailable and Housed, the rest stay Available and Unhoused, and nobody is dead |
| Engine.AllDeadWhenWon | cmd/main.go:352-358 | When the dead count equals the number of moles made, no mole is left alive |
| Engine.DeadNeedHoles | cmd/main.go:272-280 | A dead mole keeps its hole, so no more moles die than there are holes; with fewer holes than the win threshold the game can never be won |
| Engine.StatsCountEveryMole | cmd/main.go:93-95 | The living and the dead add up to the number of moles made |
| Engine.HoleListCoversEveryHole | cmd/main.go:80-91 | The two buckets listed are disjoint, together are the IDs 1 to `n`, and have `n` holes |
| Engine.TunnelUnhoused | cmd/main.go:243-249 | An unhoused mole that tunnels takes the picked hole if it is Available, and otherwise nothing happens |
| Engine.HouseStep | cmd/main.go:332-336 | One more unhoused mole tries to take a hole, and the `HouseMoles` loop invariant is kept |
| Engine.BurrowStep | cmd/main.go:467-469 | One more unhoused mole tunnels, and the first loop's invariant is kept: the moles housed before the loop have not moved |
| Engine.TakeTurn | cmd/main.go:471-484 | The registries and the lines written are `MoleTurn` of the old arena, for the hole the tunnel picked |
| Engine.TurnNext | cmd/main.go:471-484 | One more mole takes its turn; the pass invariant is kept and fewer moles are left to go |
| Engine.TakeTurns | cmd/main.go:471-484 | Every mole housed when the pass began has had its turn; the pass invariant holds at the end |
| Engine.TurnsDone | cmd/main.go:471-484 | After the pass, the housed set is unchanged, moles that drew nothing keep their records, and every line is accounted for |
| Engine.TickKeeps | cmd/main.go:465-485 | After both loops, the moles housed at the start are still housed, and those that drew nothing have not moved |
| Engine.Game.Init | cmd/main.go:343-350 | IDs are 1 to `holes` and 1 to `moles` (none for a negative count). The smaller count is seated, the rest stay Available or Unhoused, nobody is dead, the win threshold is `moles`, and the game is valid |
| Engine.Game.MakeHoles | cmd/main.go:320-324 | The counter grows by `holes` (by none if negative), and the new holes are filed in Available |
| Engine.Game.MakeMoles | cmd/main.go:326-330 | The counter grows by `moles` (by none if negative), and the new moles are filed in Unhoused |
| Engine.Game.HouseMoles | cmd/main.go:332-336 | As many Unhoused moles are seated as there are Available holes for them, and the game stays valid |
| Engine.Game.MoveUnhoused | cmd/main.go:467-469 | Unhoused moles are seated while holes remain, moles already housed are not moved, and the game stays valid |
| Engine.Game.ProcessMoleMoves | cmd/main.go:465-485 | As many moles are seated as there were holes for them. Moles housed before the tick stay housed, and those that drew nothing keep their records. Every line written agrees with the new arena. The game stays valid |
| Engine.Game.CheckWin | cmd/main.go:352-358 | True exactly when the dead count equals the argument |
| Engine.Game.WinCheck | cmd/main.go:375-380 | The state and the output are `Turn.WinCheck`'s, and the arena is unchanged |
| Engine.Game.HandleWhack | cmd/main.go:382-399 | The new arena, state and output are `Turn.Whack`'s |
| Engine.Game.HandleMoles | cmd/main.go:401-404 | The output is the count of living and dead moles |
| Engine.Game.HandleQuit | cmd/main.go:414-418 | The game ends with a goodbye, and the arena is unchanged |
| Engine.Game.ProcessPlayerInput | cmd/main.go:420-447 | The new arena, state and output are `Turn.Dispatch`'s |

## Left out

- **Writing output.** The `Output` writer, `fmt.Fprintf` and message texts are
  left out. Output is a sequence of `Message` or `Event` values, one
  constructor per distinct text. The help and welcome banners are single
  constructors.
- **The play loop.** `RunPlayLoop` (the one-second ticker and the select over
  the command channel) and `ReadCommands` (the goroutine reading standard
  input) are left out: they are I/O and concurrency.
- **Other entry points.** `InitForPlayer` and `main` are I/O.
- `NewGame` only builds a `Game` whose factories are replaced by `Init`.
- The packages `mole/`, `watcher/` and `hole/` are not part of this model.
- `Hole.ParentHoleSet` and `Mole.ParentMoleSet` are copies of a registry
  struct that share its maps. The model keeps one registry object of each kind
  and files records in it; a write through a `*Mole` or `*Hole` pointer is a
  write to the record filed under that ID.
- `Mole.Occupy` (cmd/main.go:239-241) only forwards to `Hole.TryOccupy`. It is
  inlined into `Occupancy.MoleTryOccupy`.
- `handleHoles` and `handleHelp` only write text. They are modelled inside
  `Turn.Command` as the `HoleList` and `Help` messages, with no separate method.
- `PrintHolesString`: Go map iteration order is unspecified, so the hole list
  is a pair of ID sets, not an ordered text.
- Engine.Game.ProcessMoleMoves: the draws `rand.Intn(100) < entropy` are
  inputs. They are the sets `movers` (first draw fired) and `togglers` (second
  draw fired), so randomness and the `entropy` argument are not modelled.
- Engine.Game.ProcessMoleMoves: each loop goes over the IDs its bucket held
  when the loop began, in an unspecified order. This is a modelling choice. For
  the first loop it matches Go, since nothing is added to Unhoused during it.
  For the second loop Go does not guarantee it: `Mole.Tunnel` deletes a mole
  from Housed and adds it back during the `range`, and Go may or may not visit
  an entry added during iteration, so a mole might take a second turn. The model
  gives each mole exactly one turn.
- Occupancy.GetAvailableHole, Occupancy.MoleTryOccupy, Occupancy.MoleTunnel: Go
  returns whichever Available hole map iteration yields first. The model picks
  some Available hole (`:|`) and reports it as a ghost `pick`, so the contracts
  say "some Available hole", not which one.
- Occupancy.HoleFree requires a hole with a living, housed occupant. Its only
  caller, `Mole.Tunnel`, guarantees this. Go's `Free` on an empty hole would
  dereference nil.
- Occupancy.HoleTryOccupy requires an Unhoused mole, which every caller passes.
- Occupancy.MoleTryWhack, Occupancy.MoleToggleState: the state a Go test
  reaches by setting `State` by hand on an unhoused mole is outside the
  invariant and is not modelled.
- Factories.HoleFactory.NewHole, Factories.MoleFactory.NewMole: the
  `ParentHoleSet`/`ParentMoleSet` copy stored in each entity is not a field of
  the record (see above).
- Commands.Fields, Commands.Atoi: `strings.Fields` and `strconv.Atoi` work on
  the UTF-8 decoding of the line, which is taken as already done. Atoi models
  the 64-bit range of Go's `int` and rejects out-of-range values, as
  `strconv.Atoi` does.
- A dead mole's hole is never freed, so it stays Unavailable and Occupied by
  its dead mole. This is kept as written: the model preserves it, and
  `Engine.DeadNeedHoles` states its consequence that a game with more moles
  than holes can never be won.
