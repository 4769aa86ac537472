# Battleship engine — a Dafny model

A model of the gameplay engine of a single-player Battleship game (`main.go`).
The game has an N×N board of cell markers, a fleet of ships and an N×N shot log.
Setup places each requested ship at the first random (row, col, orientation)
draw that fits. Each turn attacks one cell: the attack is rejected, misses, hits
a ship, or sinks it. The game is won once every ship is sunk.

The model is functional. `Game` is an immutable record, and `Attack` is a pure
function returning the new game together with the source's boolean result.
The string markers `"-"`, `"S"`, `"x"` and `"+"` become the `Cell` values
`Empty`, `ShipCell`, `Miss` and `Hit`. The orientation strings become `H | V`;
the source treats everything other than `"H"` as vertical. Randomness becomes
a parameter: `NewGame` takes the stream of draws the random source would
produce and consumes it exactly as the retry loop does.

Modules, one per component:

- `Board` (board.dfy): cells, orientations, ships, footprints, grid writes.
- `Placement` (placement.dfy): the placement check and the placement write.
- `Battleship` (game.dfy): the game record, setup, attack resolution and the win check.
- `Counting` (counting.dfy): the shot and hit counts the invariant relates.
- `Invariants` (invariants.dfy): the game invariant and what attacks preserve.
- `Scenarios` (scenarios.dfy): worked games on a 10×10 board.

The central invariant is `Invariants.Valid`. It holds for every game setup
produces and is preserved by every attack. It says:

- the grids are N×N and every ship lies on the board;
- no two ships overlap;
- each cell shows exactly what the fleet and the shot log say it should
  (`"S"` unshot ship cell, `"+"` shot ship cell, `"x"` shot water, `"-"` unshot water);
- each ship's `hits` equals the number of its footprint cells shot at;
- `numShots` is the fleet's total hits;
- `numAttempts` is the number of cells shot at;
- `numShots <= numAttempts`.

Notes on the source that the model keeps:

- `Attack` returns a boolean: true for a hit, false for a miss or a rejected attack.
- Only accepted attacks (on the board, not shot before) count as attempts.
- A cell that is not `"-"` but lies on no ship (main.go:141) returns false after
  logging the shot. `Valid` rules this case out, but the model keeps it.
- Sinking is tested with `hits == length` (main.go:110). The win check uses
  `hits < length` (main.go:146).

## Model

| member | source | states |
|---|---|---|
| Board.Paint | main.go:110-113 | every footprint cell of the ship receives the marker and every other cell keeps its value; the board stays N×N |
| Board.CoversIsFootCell | main.go:107 | the attack's coverage test on a cell agrees with the footprint walked by the placement loops: a cell is covered iff it is the cell at some offset 0..length-1 |
| Placement.EmptyFrom | main.go:180-193 | the cell-by-cell scan returns true iff every footprint cell from offset k on holds `"-"` |
| Placement.IsValidShipPlacement | main.go:175-196 | for a start cell on the board, accepts iff every cell the candidate footprint covers is on the board and holds `"-"`; acceptance implies the footprint is in bounds |
| Placement.PlaceShip | main.go:198-208 | exactly the footprint cells become `"S"`; every other cell is unchanged |
| Placement.TooLongNeverFits | main.go:177-188 | a ship longer than the board is rejected at every start and orientation |
| Battleship.PlaceShips | main.go:36-50 | a finished placement keeps the earlier ships first and appends one unhit ship per size, in order, each as long as its size; with no sizes left it returns the board and fleet unchanged |
| Battleship.FleetExtends | main.go:35-47 | a fleet that begins with the earlier ships and the new ship, followed by ships of the remaining sizes, lists one ship per size in the order given |
| Battleship.FirstAccepted | main.go:41-48 | the next ship is placed at the first draw the placement check accepts: the draws before it are skipped, the ship is painted and appended, and placement continues with the remaining sizes and the draws after it |
| Battleship.NoneAccepted | main.go:41-50 | when no draw is accepted for the next ship, placement runs out of draws and returns None |
| Battleship.PlaceKeepsArranged | main.go:45-47 | placing an accepted candidate keeps the board showing `"S"` exactly on the fleet's footprints and keeps the fleet free of overlaps |
| Battleship.PlaceShipsArranged | main.go:36-51 | every fleet setup produces is on the board and pairwise disjoint, and the board shows `"S"` exactly on its footprints and `"-"` elsewhere |
| Battleship.NewGame | main.go:24-60 | a finished setup has an N×N board and shot log, ship i of length `shipSizes[i]` with no hits, in-bounds and pairwise disjoint footprints, `"S"` exactly on the footprints and `"-"` elsewhere, no shots and both counters 0; with no ships it always finishes |
| Battleship.NewGameFirstShip | main.go:35-48 | the first ship of a finished setup is the candidate at the first draw accepted on the empty board |
| Battleship.NewGameNoneAccepted | main.go:41-50 | setup fails when no draw fits the first ship on the empty board |
| Battleship.PlaceShipsTooLong | main.go:41-50 | when some requested ship is longer than the board, placement never completes, for any draw stream |
| Battleship.NewGameTooLong | main.go:24-51 | setup with a ship longer than the board never finishes |
| Battleship.FirstCover | main.go:105-107 | the index returned is the first ship whose footprint covers the cell; None iff no ship covers it |
| Battleship.Attack | main.go:86-142 | off-board or repeated attacks return false and change nothing; otherwise the shot is logged, every other log entry is kept, and attempts go up by one; the result is true iff the cell is not `"-"` and lies on a ship; a miss marks only that cell `"x"` and leaves ships and hits alone; a hit bumps only the first covering ship's hits and `numShots`, marking its whole footprint `"+"` if it is now sunk and otherwise only the attacked cell |
| Battleship.AllSunk | main.go:145-150 | the scan over the fleet returns true iff every ship has `hits >= length` |
| Battleship.IsOver | main.go:144-151 | the game is over iff every ship is sunk |
| Invariants.NewGameValid | main.go:24-60 | every game setup produces satisfies the game invariant |
| Invariants.MissPreservesValid | main.go:97-103 | a fresh attack on open water keeps the invariant |
| Invariants.HitKeepsShotCounts | main.go:104-109 | a fresh hit on ship k adds one shot to k's footprint and none to any other ship's, since footprints are disjoint |
| Invariants.HitKeepsView | main.go:110-120 | after a fresh hit the board still shows exactly what the fleet and shot log say, including when the whole footprint is marked on sinking |
| Invariants.HitKeepsHitCounts | main.go:104-109 | after a fresh hit on ship k, every ship's `hits` still equals the number of its footprint cells shot at |
| Invariants.HitKeepsValid | main.go:104-137 | a fresh hit keeps the invariant: per-ship hits equal shots on the footprint, `numShots` equals the total hits, `numAttempts` equals the cells shot |
| Invariants.AttackPreservesValid | main.go:86-142 | every attack, rejected or not, keeps the game invariant |
| Invariants.CountersBounded | main.go:97-109 | in a valid game, `0 <= hits <= ` footprint size for every ship, and `0 <= numShots <= numAttempts <= N*N` |
| Invariants.IsOverIffNoShipCells | main.go:144-151 | in a valid game, the game is over iff no `"S"` cell is left on the board |
| Invariants.AllShotIsOver | main.go:144-151 | once every cell has been shot at, the game is over |
| Invariants.RepeatAttackRejected | main.go:92-95 | attacking the same cell twice in a row: the second attack returns false and changes nothing |
| Invariants.Play | main.go:158-170 | the turn loop keeps the game well formed and the board size fixed |
| Invariants.PlayPreservesValid | main.go:158-170 | the invariant holds after any sequence of turns |
| Invariants.PlayKeepsShots | main.go:92-97 | a shot-log entry once true stays true through any sequence of turns |
| Invariants.PlayEveryCellWins | main.go:158-170 | a move list naming every board cell ends the game |
| Scenarios.OneShipSetup | main.go:24-60 | a 10×10 setup with one length-4 ship and the draw (2, 3, H) finishes with that ship and a valid game |
| Scenarios.SetupHitsSoFar | main.go:24-60 | the one-ship setup is valid, has a 10×10 board, no hits, both counters 0 and its footprint unshot |
| Scenarios.NextHit | main.go:104-137 | in that game after h hits, attacking the next footprint cell is a hit, leaves h+1 hits with both counters at h+1, and wins exactly when it is the fourth |
| Scenarios.TwoHits | main.go:104-151 | two consecutive fresh footprint cells are both hits; the first never wins, the second wins exactly when it sinks the ship |
| Scenarios.SinkOneShip | main.go:104-137 | attacking (2,3), (2,4), (2,5) hits without winning; (2,6) sinks the ship and wins, with 4 hits in 4 attempts |
| Scenarios.OffBoardRejected | main.go:87-90 | attacks at (-1, 0) and (10, 5) on a 10×10 board are rejected and change nothing |
| Scenarios.MissThenRepeat | main.go:92-103 | a miss at (0, 0) is marked `"x"` and counted once; attacking it again is rejected |
| Scenarios.TooLongForBoard | main.go:41-50 | a 2×2 board never takes a length-3 ship, whatever the draws |

## Left out

- `ShowBoard` (main.go:62-84): console rendering only, no logic.
- `main` (main.go:153-173): console input and output. `Invariants.Play` models its turn loop, with the moves given as a list.
- `randInt` and `randOrient` (main.go:210-222): replaced by the `draws` parameter of `NewGame`. Each draw must be on the board, as `rand.Intn(boardSize)` guarantees.
- Termination of the placement retry loop (main.go:41-50): it depends on the random source. It can run forever when a ship cannot fit. The model returns `None` when the supplied draws run out before every ship is placed.
- The `fmt.Println` messages inside `Attack`: output only; the model keeps the returned boolean and the state change.
- Go runtime panics: a negative `boardSize` panics in `make`, and `rand.Intn(0)` panics when the board is empty but ships are requested. `NewGame` requires `boardSize >= 0`. With an empty board, no draw can exist, so setup with ships returns `None`.
- Integer width: Go's `int` is 64 bits. Every counter is bounded by N*N, and ship lengths in practice are small, so wrap-around is not modelled.
- CountersBounded: bounds each ship's hits by its footprint size (its length when positive) instead of by its length. The source accepts a ship of length 0 or less; such a ship covers nothing and keeps hits 0, which exceeds a negative length.
