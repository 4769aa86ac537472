/** What every game reachable from setup satisfies, and how attacks keep it. */
module Invariants {
  import opened Board
  import opened Placement
  import opened Counting
  import opened Battleship

  /** What a cell must show, given whether a ship covers it and whether it
      has been shot at. */
  function View(ships: seq<Ship>, shot: bool, r: int, c: int): Cell {
    if Occupied(ships, r, c) then (if shot then Hit else ShipCell)
    else (if shot then Miss else Empty)
  }

  /** The game invariant: the board is the view of the fleet and the shot
      log, ships never overlap, each ship's hits are the shots that landed
      on it, the hit count is the fleet's total hits and the attempt count
      is the number of cells shot at. */
  ghost predicate Valid(g: Game) {
    && WellFormed(g)
    && PairwiseDisjoint(g.ships)
    && (forall i, j {:trigger g.board[i][j]} :: InBoard(|g.board|, i, j) ==> g.board[i][j] == View(g.ships, g.shots[i][j], i, j))
    && (forall k {:trigger ShotCount(g.shots, g.ships[k])} :: 0 <= k < |g.ships| ==> g.ships[k].hits == ShotCount(g.shots, g.ships[k]))
    && g.numShots == SumHits(g.ships)
    && g.numAttempts == CountShots(g.shots)
    && g.numShots <= g.numAttempts
  }

  /** Every game that setup produces satisfies the invariant. */
  lemma NewGameValid(boardSize: int, shipSizes: seq<int>, draws: seq<Draw>)
    requires boardSize >= 0
    requires forall k :: 0 <= k < |draws| ==> InBoard(boardSize, draws[k].row, draws[k].col)
    ensures var r := NewGame(boardSize, shipSizes, draws); r.Some? ==> Valid(r.value)
  {
    var r := NewGame(boardSize, shipSizes, draws);
    if r.Some? {
      var g := r.value;
      CountShotsNone(g.shots);
      SumHitsZero(g.ships);
      forall k | 0 <= k < |g.ships|
        ensures g.ships[k].hits == ShotCount(g.shots, g.ships[k])
      {
        ShotsInNone(g.shots, g.ships[k], g.ships[k].length);
      }
    }
  }

  /** Changing a ship's hit counter moves none of the footprints. */
  lemma FootprintsIgnoreHits(ships: seq<Ship>, k: int, h: int)
    requires 0 <= k < |ships|
    ensures forall i, j :: Occupied(ships[k := ships[k].(hits := h)], i, j) == Occupied(ships, i, j)
    ensures PairwiseDisjoint(ships) ==> PairwiseDisjoint(ships[k := ships[k].(hits := h)])
  {
    var ships' := ships[k := ships[k].(hits := h)];
    forall i, j
      ensures Occupied(ships', i, j) == Occupied(ships, i, j)
    {
      if Occupied(ships, i, j) {
        var m :| 0 <= m < |ships| && Covers(ships[m], i, j);
        assert Covers(ships'[m], i, j);
      }
      if Occupied(ships', i, j) {
        var m :| 0 <= m < |ships'| && Covers(ships'[m], i, j);
        assert Covers(ships[m], i, j);
      }
    }
    if PairwiseDisjoint(ships) {
      forall x, y | 0 <= x < |ships'| && 0 <= y < |ships'| && x != y
        ensures Disjoint(ships'[x], ships'[y])
      {
        assert Disjoint(ships[x], ships[y]);
        forall i, j
          ensures !(Covers(ships'[x], i, j) && Covers(ships'[y], i, j))
        {
          assert !(Covers(ships[x], i, j) && Covers(ships[y], i, j));
        }
      }
    }
  }

  /** A fresh shot into open water keeps the invariant. */
  lemma MissPreservesValid(g: Game, row: int, col: int)
    requires Valid(g) && Unshot(g, row, col) && g.board[row][col] == Empty
    ensures Valid(Attack(g, row, col).0)
  {
    var g' := Attack(g, row, col).0;
    assert g'.shots == SetCell(g.shots, row, col, true);
    CountShotsAfterShot(g.shots, row, col);
    assert !Occupied(g.ships, row, col);
    forall k | 0 <= k < |g.ships|
      ensures g'.ships[k].hits == ShotCount(g'.shots, g'.ships[k])
    {
      ShotCountAfterShot(g.shots, g.ships[k], row, col);
    }
  }

  /** After a fresh shot lands on ship k, ship k has one more shot on its
      footprint and every other ship the same number as before. */
  lemma HitKeepsShotCounts(shots: Grid<bool>, ships: seq<Ship>, k: int, row: int, col: int)
    requires IsGrid(shots, |shots|) && InBoard(|shots|, row, col) && !shots[row][col]
    requires forall m :: 0 <= m < |ships| ==> FootprintInBoard(|shots|, ships[m])
    requires PairwiseDisjoint(ships)
    requires 0 <= k < |ships| && Covers(ships[k], row, col)
    ensures forall m :: 0 <= m < |ships| ==>
              ShotCount(SetCell(shots, row, col, true), ships[m]) ==
              ShotCount(shots, ships[m]) + (if m == k then 1 else 0)
  {
    forall m | 0 <= m < |ships|
      ensures ShotCount(SetCell(shots, row, col, true), ships[m]) ==
              ShotCount(shots, ships[m]) + (if m == k then 1 else 0)
    {
      if m != k {
        assert Disjoint(ships[m], ships[k]);
      }
      ShotCountAfterShot(shots, ships[m], row, col);
    }
  }

  /** The game a fresh hit on ship k leaves behind: the shot logged and
      counted, ship k one hit further, and either its whole footprint or
      just the attacked cell marked as hit. */
  function AfterHit(g: Game, row: int, col: int, k: int): Game
    requires WellFormed(g) && InBoard(|g.board|, row, col) && 0 <= k < |g.ships|
  {
    var s := g.ships[k].(hits := g.ships[k].hits + 1);
    var board := if s.hits == s.length then Paint(g.board, s, Hit) else SetCell(g.board, row, col, Hit);
    Game(board, g.ships[k := s], SetCell(g.shots, row, col, true), g.numShots + 1, g.numAttempts + 1)
  }

  lemma HitResult(g: Game, row: int, col: int)
    requires WellFormed(g) && Unshot(g, row, col) && g.board[row][col] != Empty && Occupied(g.ships, row, col)
    ensures Attack(g, row, col).0 == AfterHit(g, row, col, FirstCover(g.ships, row, col).value)
  {
  }

  /** After a fresh hit on ship k, the board is still the view of the fleet
      and the shot log. */
  lemma HitKeepsView(g: Game, row: int, col: int, k: int)
    requires Valid(g) && Unshot(g, row, col) && 0 <= k < |g.ships| && Covers(g.ships[k], row, col)
    ensures var g' := AfterHit(g, row, col, k);
            forall i, j :: InBoard(|g.board|, i, j) ==> g'.board[i][j] == View(g'.ships, g'.shots[i][j], i, j)
  {
    var g' := AfterHit(g, row, col, k);
    var s := g.ships[k];
    var shots' := SetCell(g.shots, row, col, true);
    FootprintsIgnoreHits(g.ships, k, s.hits + 1);
    if s.hits + 1 == s.length {
      ShotCountAfterShot(g.shots, s, row, col);
      ShotCountFull(shots', s);
      forall i, j | InBoard(|g.board|, i, j)
        ensures g'.board[i][j] == View(g'.ships, shots'[i][j], i, j)
      {
        if Covers(s, i, j) {
          assert Occupied(g.ships, i, j);
        }
      }
    } else {
      forall i, j | InBoard(|g.board|, i, j)
        ensures g'.board[i][j] == View(g'.ships, shots'[i][j], i, j)
      {
        if i == row && j == col {
          assert Occupied(g.ships, i, j);
        }
      }
    }
  }

  /** After a fresh hit on ship k, every ship's hit counter still equals the
      number of its footprint cells shot at. */
  lemma HitKeepsHitCounts(g: Game, row: int, col: int, k: int)
    requires Valid(g) && Unshot(g, row, col) && 0 <= k < |g.ships| && Covers(g.ships[k], row, col)
    ensures var g' := AfterHit(g, row, col, k);
            forall m :: 0 <= m < |g'.ships| ==> g'.ships[m].hits == ShotCount(g'.shots, g'.ships[m])
  {
    var s := g.ships[k];
    HitKeepsShotCounts(g.shots, g.ships, k, row, col);
    ShotsInIgnoresHits(SetCell(g.shots, row, col, true), s, s.hits + 1, s.length);
  }

  /** A fresh hit on ship k keeps the invariant. */
  lemma HitKeepsValid(g: Game, row: int, col: int, k: int)
    requires Valid(g) && Unshot(g, row, col) && 0 <= k < |g.ships| && Covers(g.ships[k], row, col)
    ensures Valid(AfterHit(g, row, col, k))
  {
    var g' := AfterHit(g, row, col, k);
    var s := g.ships[k];
    var s' := s.(hits := s.hits + 1);
    assert PairwiseDisjoint(g'.ships) by {
      FootprintsIgnoreHits(g.ships, k, s.hits + 1);
    }
    assert g'.numShots == SumHits(g'.ships) by {
      SumHitsUpdate(g.ships, k, s');
    }
    assert g'.numAttempts == CountShots(g'.shots) by {
      CountShotsAfterShot(g.shots, row, col);
    }
    HitKeepsHitCounts(g, row, col, k);
    HitKeepsView(g, row, col, k);
  }

  /** Attacks preserve the invariant. */
  lemma AttackPreservesValid(g: Game, row: int, col: int)
    requires Valid(g)
    ensures Valid(Attack(g, row, col).0)
  {
    if !Unshot(g, row, col) {
    } else if g.board[row][col] == Empty {
      MissPreservesValid(g, row, col);
    } else {
      assert Occupied(g.ships, row, col);
      HitResult(g, row, col);
      HitKeepsValid(g, row, col, FirstCover(g.ships, row, col).value);
    }
  }

  /** The invariant bounds the counters: hits stay within each footprint, and
      there are no more hits than attempts and no more attempts than cells. */
  lemma CountersBounded(g: Game)
    requires Valid(g)
    ensures forall k :: 0 <= k < |g.ships| ==> 0 <= g.ships[k].hits <= Area(g.ships[k])
    ensures 0 <= g.numShots <= g.numAttempts <= |g.board| * |g.board|
  {
    forall k | 0 <= k < |g.ships|
      ensures 0 <= g.ships[k].hits <= Area(g.ships[k])
    {
      ShotCountFull(g.shots, g.ships[k]);
    }
    SumHitsNonNegative(g.ships);
    CountShotsBound(g.shots, |g.board|);
  }

  /** The game is won exactly when no unrevealed ship cell is left on the board. */
  lemma IsOverIffNoShipCells(g: Game)
    requires Valid(g)
    ensures IsOver(g) <==> forall i, j :: InBoard(|g.board|, i, j) ==> g.board[i][j] != ShipCell
  {
    var n := |g.board|;
    if IsOver(g) {
      forall i, j | InBoard(n, i, j)
        ensures g.board[i][j] != ShipCell
      {
        if Occupied(g.ships, i, j) {
          var k :| 0 <= k < |g.ships| && Covers(g.ships[k], i, j);
          ShotCountFull(g.shots, g.ships[k]);
        }
      }
    }
    if forall i, j :: InBoard(n, i, j) ==> g.board[i][j] != ShipCell {
      forall k | 0 <= k < |g.ships|
        ensures Sunk(g.ships[k])
      {
        forall i, j | Covers(g.ships[k], i, j)
          ensures g.shots[i][j]
        {
          assert Occupied(g.ships, i, j);
          assert g.board[i][j] != ShipCell;
        }
        ShotCountFull(g.shots, g.ships[k]);
      }
    }
  }

  /** Once every cell has been shot at, the game is over. */
  lemma AllShotIsOver(g: Game)
    requires Valid(g)
    requires forall i, j :: InBoard(|g.board|, i, j) ==> g.shots[i][j]
    ensures IsOver(g)
  {
    IsOverIffNoShipCells(g);
  }

  /** Attacking the same cell a second time is rejected and changes nothing. */
  lemma RepeatAttackRejected(g: Game, row: int, col: int)
    requires WellFormed(g)
    ensures var g1 := Attack(g, row, col).0; Attack(g1, row, col) == (g1, false)
  {
  }

  /** The turn loop: while the game is not over, attack the next move. */
  function Play(g: Game, moves: seq<(int, int)>): (g': Game)
    requires WellFormed(g)
    ensures WellFormed(g') && |g'.board| == |g.board|
    decreases |moves|
  {
    if |moves| == 0 || IsOver(g) then g
    else Play(Attack(g, moves[0].0, moves[0].1).0, moves[1..])
  }

  /** The invariant holds after any sequence of turns. */
  lemma {:induction false} PlayPreservesValid(g: Game, moves: seq<(int, int)>)
    requires Valid(g)
    ensures Valid(Play(g, moves))
    decreases |moves|
  {
    if |moves| > 0 && !IsOver(g) {
      AttackPreservesValid(g, moves[0].0, moves[0].1);
      PlayPreservesValid(Attack(g, moves[0].0, moves[0].1).0, moves[1..]);
    }
  }

  /** A cell once shot at stays shot at, whatever turns follow. */
  lemma {:induction false} PlayKeepsShots(g: Game, moves: seq<(int, int)>)
    requires WellFormed(g)
    ensures forall i, j :: InBoard(|g.board|, i, j) && g.shots[i][j] ==> Play(g, moves).shots[i][j]
    decreases |moves|
  {
    if |moves| > 0 && !IsOver(g) {
      PlayKeepsShots(Attack(g, moves[0].0, moves[0].1).0, moves[1..]);
    }
  }

  /** A move list that names every cell of the board wins the game. */
  lemma {:induction false} PlayEveryCellWins(g: Game, moves: seq<(int, int)>)
    requires Valid(g)
    requires forall i, j :: InBoard(|g.board|, i, j) ==> g.shots[i][j] || (i, j) in moves
    ensures IsOver(Play(g, moves))
    decreases |moves|
  {
    if IsOver(g) {
    } else if |moves| == 0 {
      AllShotIsOver(g);
    } else {
      var (r, c) := moves[0];
      var g1 := Attack(g, r, c).0;
      AttackPreservesValid(g, r, c);
      forall i, j | InBoard(|g1.board|, i, j)
        ensures g1.shots[i][j] || (i, j) in moves[1..]
      {
        if (i, j) != (r, c) && !g.shots[i][j] {
          assert (i, j) in moves;
        }
      }
      PlayEveryCellWins(g1, moves[1..]);
    }
  }
}
