/** The game state and its three operations: setting up a game, resolving an
    attack, and deciding whether the game is won. */
module Battleship {
  import opened Board
  import opened Placement

  /** The board, the fleet, the shot log, the number of hits and the number
      of accepted attacks. */
  datatype Game = Game(board: Grid<Cell>, ships: seq<Ship>, shots: Grid<bool>, numShots: int, numAttempts: int)

  /** One draw of the random source during setup: a start cell and an orientation. */
  datatype Draw = Draw(row: int, col: int, orient: Orient)

  /** The shape every game has: an n-by-n board, an n-by-n shot log, and
      every ship on the board. */
  predicate WellFormed(g: Game) {
    IsGrid(g.board, |g.board|) && IsGrid(g.shots, |g.board|) &&
    forall k :: 0 <= k < |g.ships| ==> FootprintInBoard(|g.board|, g.ships[k])
  }

  /** (row, col) is on the board and has not been attacked yet. */
  predicate Unshot(g: Game, row: int, col: int)
    requires WellFormed(g)
  {
    InBoard(|g.board|, row, col) && !g.shots[row][col]
  }

  // ---------------------------------------------------------------------
  // Setup

  /** The board holds a ship cell exactly where some ship of the fleet lies
      and open water everywhere else; the ships are on the board and never
      overlap. */
  ghost predicate Arranged(b: Grid<Cell>, ships: seq<Ship>) {
    && IsGrid(b, |b|)
    && (forall k :: 0 <= k < |ships| ==> FootprintInBoard(|b|, ships[k]))
    && PairwiseDisjoint(ships)
    && forall i, j :: InBoard(|b|, i, j) ==> b[i][j] == (if Occupied(ships, i, j) then ShipCell else Empty)
  }

  /** Placing an accepted candidate keeps the board and the fleet in step. */
  lemma PlaceKeepsArranged(b: Grid<Cell>, placed: seq<Ship>, row: int, col: int, length: int, orient: Orient)
    requires Arranged(b, placed) && InBoard(|b|, row, col)
    requires IsValidShipPlacement(row, col, length, orient, b)
    ensures Arranged(PlaceShip(row, col, length, orient, b), placed + [Candidate(row, col, length, orient)])
  {
    var s := Candidate(row, col, length, orient);
    var b' := PlaceShip(row, col, length, orient, b);
    var ships := placed + [s];
    forall x | 0 <= x < |placed|
      ensures Disjoint(ships[x], s) && Disjoint(s, ships[x])
    {
      forall i, j | Covers(s, i, j)
        ensures !Covers(placed[x], i, j)
      {
        assert b[i][j] == Empty;
      }
    }
    forall i, j | InBoard(|b|, i, j)
      ensures b'[i][j] == (if Occupied(ships, i, j) then ShipCell else Empty)
    {
      if Covers(s, i, j) {
        assert Covers(ships[|placed|], i, j);
      } else if Occupied(placed, i, j) {
        var k :| 0 <= k < |placed| && Covers(placed[k], i, j);
        assert Covers(ships[k], i, j);
      }
    }
  }

  /** `ships` is `placed` followed by one unhit ship per entry of `sizes`,
      in order, each as long as its size. */
  predicate Extends(ships: seq<Ship>, placed: seq<Ship>, sizes: seq<int>) {
    && |ships| == |placed| + |sizes| && ships[..|placed|] == placed
    && forall i :: |placed| <= i < |ships| ==> ships[i].length == sizes[i - |placed|] && ships[i].hits == 0
  }

  /** A fleet that extends the earlier ships and the new ship `s` by the
      remaining sizes extends the earlier ships by all the sizes. */
  lemma FleetExtends(ships: seq<Ship>, placed: seq<Ship>, s: Ship, sizes: seq<int>)
    requires |sizes| > 0 && s.length == sizes[0] && s.hits == 0
    requires Extends(ships, placed + [s], sizes[1..])
    ensures Extends(ships, placed, sizes)
  {
    var n := |placed|;
    assert ships[..n] == ships[..n + 1][..n];
    assert ships[n] == ships[..n + 1][n];
    forall i | n + 1 <= i < |ships|
      ensures ships[i].length == sizes[i - n] && ships[i].hits == 0
    {
      assert ships[i].length == sizes[1..][i - (n + 1)];
    }
  }

  /** Places one ship per size, in order. For each size the draws are tried
      one after another until the placement check accepts one; that draw
      becomes the ship. None when the draws run out before every ship is
      placed. */
  function PlaceShips(b: Grid<Cell>, placed: seq<Ship>, sizes: seq<int>, draws: seq<Draw>): (r: Option<(Grid<Cell>, seq<Ship>)>)
    requires IsGrid(b, |b|)
    requires forall k :: 0 <= k < |draws| ==> InBoard(|b|, draws[k].row, draws[k].col)
    ensures r.Some? ==> IsGrid(r.value.0, |b|)
    ensures r.Some? ==> Extends(r.value.1, placed, sizes)
    ensures |sizes| == 0 ==> r == Some((b, placed))
    decreases |draws|
  {
    if |sizes| == 0 then Some((b, placed))
    else if |draws| == 0 then None
    else
      var d := draws[0];
      if IsValidShipPlacement(d.row, d.col, sizes[0], d.orient, b) then
        var s := Candidate(d.row, d.col, sizes[0], d.orient);
        var r := PlaceShips(PlaceShip(d.row, d.col, sizes[0], d.orient, b), placed + [s], sizes[1..], draws[1..]);
        if r.Some? then FleetExtends(r.value.1, placed, s, sizes); r else r
      else
        PlaceShips(b, placed, sizes, draws[1..])
  }

  /** Whether the placement check accepts draw `d` for a ship of length `size`. */
  predicate Accepts(b: Grid<Cell>, size: int, d: Draw)
    requires IsGrid(b, |b|) && InBoard(|b|, d.row, d.col)
  {
    IsValidShipPlacement(d.row, d.col, size, d.orient, b)
  }

  /** The next ship goes where the first accepted draw puts it: the draws
      before it are skipped, the ship is drawn on the board and appended to
      the fleet, and setup carries on with the remaining sizes and draws. */
  lemma {:induction false} FirstAccepted(b: Grid<Cell>, placed: seq<Ship>, sizes: seq<int>, draws: seq<Draw>, m: int)
    requires IsGrid(b, |b|)
    requires forall k :: 0 <= k < |draws| ==> InBoard(|b|, draws[k].row, draws[k].col)
    requires |sizes| > 0 && 0 <= m < |draws|
    requires Accepts(b, sizes[0], draws[m])
    requires forall k :: 0 <= k < m ==> !Accepts(b, sizes[0], draws[k])
    ensures var d := draws[m];
            PlaceShips(b, placed, sizes, draws) ==
            PlaceShips(PlaceShip(d.row, d.col, sizes[0], d.orient, b),
                       placed + [Candidate(d.row, d.col, sizes[0], d.orient)], sizes[1..], draws[m + 1..])
    decreases m
  {
    if m > 0 {
      assert !Accepts(b, sizes[0], draws[0]);
      assert draws[1..][m..] == draws[m + 1..];
      FirstAccepted(b, placed, sizes, draws[1..], m - 1);
    }
  }

  /** When no draw is accepted for the next ship, setup runs out of draws. */
  lemma {:induction false} NoneAccepted(b: Grid<Cell>, placed: seq<Ship>, sizes: seq<int>, draws: seq<Draw>)
    requires IsGrid(b, |b|)
    requires forall k :: 0 <= k < |draws| ==> InBoard(|b|, draws[k].row, draws[k].col)
    requires |sizes| > 0
    requires forall k :: 0 <= k < |draws| ==> !Accepts(b, sizes[0], draws[k])
    ensures PlaceShips(b, placed, sizes, draws) == None
    decreases |draws|
  {
    if |draws| > 0 {
      assert !Accepts(b, sizes[0], draws[0]);
      NoneAccepted(b, placed, sizes, draws[1..]);
    }
  }

  /** Every fleet that setup produces is on the board, free of overlaps, and
      drawn on the board as ship cells over open water. */
  lemma {:induction false} PlaceShipsArranged(b: Grid<Cell>, placed: seq<Ship>, sizes: seq<int>, draws: seq<Draw>)
    requires Arranged(b, placed)
    requires forall k :: 0 <= k < |draws| ==> InBoard(|b|, draws[k].row, draws[k].col)
    ensures var r := PlaceShips(b, placed, sizes, draws); r.Some? ==> Arranged(r.value.0, r.value.1)
    decreases |draws|
  {
    if |sizes| > 0 && |draws| > 0 {
      var d := draws[0];
      if IsValidShipPlacement(d.row, d.col, sizes[0], d.orient, b) {
        PlaceKeepsArranged(b, placed, d.row, d.col, sizes[0], d.orient);
        var s := Candidate(d.row, d.col, sizes[0], d.orient);
        PlaceShipsArranged(PlaceShip(d.row, d.col, sizes[0], d.orient, b), placed + [s], sizes[1..], draws[1..]);
      } else {
        PlaceShipsArranged(b, placed, sizes, draws[1..]);
      }
    }
  }

  function EmptyBoard(n: nat): (b: Grid<Cell>)
    ensures IsGrid(b, n) && forall i, j :: InBoard(n, i, j) ==> b[i][j] == Empty
  {
    seq(n, _ => seq(n, _ => Empty))
  }

  function NoShots(n: nat): (s: Grid<bool>)
    ensures IsGrid(s, n) && forall i, j :: InBoard(n, i, j) ==> !s[i][j]
  {
    seq(n, _ => seq(n, _ => false))
  }

  /** Sets up a game on a boardSize-by-boardSize board with one ship per
      entry of shipSizes, taking start cells and orientations from `draws`
      (each draw on the board, as the random source guarantees). */
  function NewGame(boardSize: int, shipSizes: seq<int>, draws: seq<Draw>): (r: Option<Game>)
    requires boardSize >= 0
    requires forall k :: 0 <= k < |draws| ==> InBoard(boardSize, draws[k].row, draws[k].col)
    ensures r.Some? ==> WellFormed(r.value) && |r.value.board| == boardSize
    ensures r.Some? ==> |r.value.ships| == |shipSizes|
    ensures r.Some? ==> forall i :: 0 <= i < |shipSizes| ==>
              r.value.ships[i].length == shipSizes[i] && r.value.ships[i].hits == 0
    ensures r.Some? ==> PairwiseDisjoint(r.value.ships)
    ensures r.Some? ==> forall i, j :: InBoard(boardSize, i, j) ==>
              r.value.board[i][j] == (if Occupied(r.value.ships, i, j) then ShipCell else Empty)
    ensures r.Some? ==> forall i, j :: InBoard(boardSize, i, j) ==> !r.value.shots[i][j]
    ensures r.Some? ==> r.value.numShots == 0 && r.value.numAttempts == 0
    ensures |shipSizes| == 0 ==> r.Some?
  {
    var b := EmptyBoard(boardSize);
    PlaceShipsArranged(b, [], shipSizes, draws);
    match PlaceShips(b, [], shipSizes, draws)
    case None => None
    case Some(placed) => Some(Game(placed.0, placed.1, NoShots(boardSize), 0, 0))
  }

  /** The first ship of a finished setup sits at the first draw the
      placement check accepts on the empty board. */
  lemma NewGameFirstShip(boardSize: int, shipSizes: seq<int>, draws: seq<Draw>, m: int)
    requires boardSize >= 0
    requires forall k :: 0 <= k < |draws| ==> InBoard(boardSize, draws[k].row, draws[k].col)
    requires |shipSizes| > 0 && 0 <= m < |draws|
    requires Accepts(EmptyBoard(boardSize), shipSizes[0], draws[m])
    requires forall k :: 0 <= k < m ==> !Accepts(EmptyBoard(boardSize), shipSizes[0], draws[k])
    ensures var r := NewGame(boardSize, shipSizes, draws);
            r.Some? ==> r.value.ships[0] == Candidate(draws[m].row, draws[m].col, shipSizes[0], draws[m].orient)
  {
    var b := EmptyBoard(boardSize);
    var d := draws[m];
    var s := Candidate(d.row, d.col, shipSizes[0], d.orient);
    var p := PlaceShips(b, [], shipSizes, draws);
    FirstAccepted(b, [], shipSizes, draws, m);
    FirstShipOf(p, s, shipSizes[1..]);
  }

  /** A fleet extending `[s]` starts with `s`. */
  lemma FirstShipOf(p: Option<(Grid<Cell>, seq<Ship>)>, s: Ship, sizes: seq<int>)
    requires p.Some? ==> Extends(p.value.1, [s], sizes)
    ensures p.Some? ==> |p.value.1| > 0 && p.value.1[0] == s
  {
    if p.Some? {
      assert p.value.1[0] == p.value.1[..1][0];
    }
  }

  /** Setup fails when no draw fits the first ship on the empty board. */
  lemma NewGameNoneAccepted(boardSize: int, shipSizes: seq<int>, draws: seq<Draw>)
    requires boardSize >= 0
    requires forall k :: 0 <= k < |draws| ==> InBoard(boardSize, draws[k].row, draws[k].col)
    requires |shipSizes| > 0
    requires forall k :: 0 <= k < |draws| ==> !Accepts(EmptyBoard(boardSize), shipSizes[0], draws[k])
    ensures NewGame(boardSize, shipSizes, draws) == None
  {
    NoneAccepted(EmptyBoard(boardSize), [], shipSizes, draws);
  }

  /** A ship longer than the board never finds a place, so setup runs out
      of draws however many are supplied. */
  lemma {:induction false} PlaceShipsTooLong(b: Grid<Cell>, placed: seq<Ship>, sizes: seq<int>, draws: seq<Draw>, i: int)
    requires IsGrid(b, |b|)
    requires forall k :: 0 <= k < |draws| ==> InBoard(|b|, draws[k].row, draws[k].col)
    requires 0 <= i < |sizes| && sizes[i] > |b|
    ensures PlaceShips(b, placed, sizes, draws) == None
    decreases |draws|
  {
    if |draws| > 0 {
      var d := draws[0];
      if IsValidShipPlacement(d.row, d.col, sizes[0], d.orient, b) {
        var s := Candidate(d.row, d.col, sizes[0], d.orient);
        PlaceShipsTooLong(PlaceShip(d.row, d.col, sizes[0], d.orient, b), placed + [s], sizes[1..], draws[1..], i - 1);
      } else {
        PlaceShipsTooLong(b, placed, sizes, draws[1..], i);
      }
    }
  }

  /** Setup with a ship longer than the board never completes. */
  lemma NewGameTooLong(boardSize: int, shipSizes: seq<int>, draws: seq<Draw>, i: int)
    requires boardSize >= 0
    requires forall k :: 0 <= k < |draws| ==> InBoard(boardSize, draws[k].row, draws[k].col)
    requires 0 <= i < |shipSizes| && shipSizes[i] > boardSize
    ensures NewGame(boardSize, shipSizes, draws) == None
  {
    PlaceShipsTooLong(EmptyBoard(boardSize), [], shipSizes, draws, i);
  }

  // ---------------------------------------------------------------------
  // Attack

  /** Index of the first ship, in fleet order, whose footprint covers (r, c). */
  function FirstCover(ships: seq<Ship>, r: int, c: int): (k: Option<nat>)
    ensures k.Some? ==> k.value < |ships| && Covers(ships[k.value], r, c) &&
                        forall m :: 0 <= m < k.value ==> !Covers(ships[m], r, c)
    ensures k.None? <==> !Occupied(ships, r, c)
  {
    if |ships| == 0 then None
    else if Covers(ships[0], r, c) then Some(0)
    else match FirstCover(ships[1..], r, c)
      case None => None
      case Some(k) => Some(k + 1)
  }

  /** Fires at (row, col); returns the new game and whether a ship was hit. */
  function Attack(g: Game, row: int, col: int): (r: (Game, bool))
    requires WellFormed(g)
    ensures WellFormed(r.0) && |r.0.board| == |g.board| && |r.0.ships| == |g.ships|
    // Off the board, or already attacked: nothing changes.
    ensures !Unshot(g, row, col) ==> r == (g, false)
    // Otherwise the shot is logged and counted.
    ensures Unshot(g, row, col) ==>
              r.0.numAttempts == g.numAttempts + 1 &&
              forall i, j :: InBoard(|g.board|, i, j) ==>
                r.0.shots[i][j] == (g.shots[i][j] || (i == row && j == col))
    // A hit is reported exactly for a fresh cell that is not open water and lies on a ship.
    ensures r.1 <==> Unshot(g, row, col) && g.board[row][col] != Empty && Occupied(g.ships, row, col)
    // Open water: the cell becomes a miss; the fleet and hit count stay.
    ensures Unshot(g, row, col) && g.board[row][col] == Empty ==>
              r.0.ships == g.ships && r.0.numShots == g.numShots &&
              forall i, j :: InBoard(|g.board|, i, j) ==>
                r.0.board[i][j] == (if i == row && j == col then Miss else g.board[i][j])
    // A hit on the first covering ship: only that ship's hits go up, and so does the hit count.
    ensures r.1 ==>
              var k := FirstCover(g.ships, row, col).value;
              r.0.ships == g.ships[k := g.ships[k].(hits := g.ships[k].hits + 1)] &&
              r.0.numShots == g.numShots + 1
    // The hit sinks the ship: its whole footprint is marked as hit.
    ensures r.1 ==>
              var s := g.ships[FirstCover(g.ships, row, col).value];
              s.hits + 1 == s.length ==>
                forall i, j :: InBoard(|g.board|, i, j) ==>
                  r.0.board[i][j] == (if Covers(s, i, j) then Hit else g.board[i][j])
    // The hit does not sink it: only the attacked cell is marked.
    ensures r.1 ==>
              var s := g.ships[FirstCover(g.ships, row, col).value];
              s.hits + 1 != s.length ==>
                forall i, j :: InBoard(|g.board|, i, j) ==>
                  r.0.board[i][j] == (if i == row && j == col then Hit else g.board[i][j])
    // Neither open water nor on a ship: only the shot log and attempt count change.
    ensures Unshot(g, row, col) && g.board[row][col] != Empty && !Occupied(g.ships, row, col) ==>
              r.0.board == g.board && r.0.ships == g.ships && r.0.numShots == g.numShots
  {
    if !Unshot(g, row, col) then (g, false)
    else
      var logged := g.(shots := SetCell(g.shots, row, col, true), numAttempts := g.numAttempts + 1);
      if g.board[row][col] == Empty then
        (logged.(board := SetCell(g.board, row, col, Miss)), false)
      else
        match FirstCover(g.ships, row, col)
        case None => (logged, false)
        case Some(k) =>
          var s := g.ships[k].(hits := g.ships[k].hits + 1);
          var board := if s.hits == s.length then Paint(g.board, s, Hit) else SetCell(g.board, row, col, Hit);
          (logged.(board := board, ships := g.ships[k := s], numShots := g.numShots + 1), true)
  }

  // ---------------------------------------------------------------------
  // Win check

  /** Scans the fleet in order and stops at the first ship not yet sunk. */
  function AllSunk(ships: seq<Ship>): (all: bool)
    ensures all <==> forall k :: 0 <= k < |ships| ==> ships[k].hits >= ships[k].length
  {
    |ships| == 0 || (ships[0].hits >= ships[0].length && AllSunk(ships[1..]))
  }

  /** The game is over once every ship is sunk. */
  function IsOver(g: Game): (over: bool)
    ensures over <==> forall k :: 0 <= k < |g.ships| ==> Sunk(g.ships[k])
  {
    AllSunk(g.ships)
  }
}
