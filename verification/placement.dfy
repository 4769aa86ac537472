/** The placement check and the placement write used while setting up a game. */
module Placement {
  import opened Board

  /** The ship a placement candidate would become, with no hits yet. */
  function Candidate(row: int, col: int, length: int, orient: Orient): Ship {
    Ship(row, col, length, orient, 0)
  }

  /** Scans footprint offsets k, k+1, ... and reports whether every one of
      them is open water, stopping at the first cell that is not. */
  function EmptyFrom(b: Grid<Cell>, s: Ship, k: int): (ok: bool)
    requires IsGrid(b, |b|) && FootprintInBoard(|b|, s) && 0 <= k
    ensures ok <==> forall j :: k <= j < s.length ==> At(b, FootCell(s, j)) == Empty
    decreases s.length - k
  {
    if k >= s.length then true
    else At(b, FootCell(s, k)) == Empty && EmptyFrom(b, s, k + 1)
  }

  /** A ship of `length` cells starting at (row, col) fits when its far end
      stays on the board and every cell it would cover is open water.
      Only the far end is bounds-checked: the start cell comes from the
      random draw and is always on the board. */
  function IsValidShipPlacement(row: int, col: int, length: int, orient: Orient, b: Grid<Cell>): (ok: bool)
    requires IsGrid(b, |b|) && InBoard(|b|, row, col)
    ensures ok <==> forall i, j :: Covers(Candidate(row, col, length, orient), i, j) ==>
                      InBoard(|b|, i, j) && b[i][j] == Empty
    ensures ok ==> FootprintInBoard(|b|, Candidate(row, col, length, orient))
  {
    var s := Candidate(row, col, length, orient);
    if orient == H && col + length > |b| then
      assert Covers(s, row, |b|);
      false
    else if orient == V && row + length > |b| then
      assert Covers(s, |b|, col);
      false
    else
      var ok := EmptyFrom(b, s, 0);
      assert ok <==> forall i, j :: Covers(s, i, j) ==> InBoard(|b|, i, j) && b[i][j] == Empty by {
        forall i, j | Covers(s, i, j) {
          CoversIsFootCell(s, i, j);
        }
        CoversIsFootCell(s, 0, 0);
      }
      ok
  }

  /** Marks every footprint cell of the new ship as a ship cell; nothing
      else on the board changes. */
  function PlaceShip(row: int, col: int, length: int, orient: Orient, b: Grid<Cell>): (b': Grid<Cell>)
    requires IsGrid(b, |b|) && FootprintInBoard(|b|, Candidate(row, col, length, orient))
    ensures IsGrid(b', |b|)
    ensures forall i, j :: InBoard(|b|, i, j) ==>
              b'[i][j] == (if Covers(Candidate(row, col, length, orient), i, j) then ShipCell else b[i][j])
  {
    Paint(b, Candidate(row, col, length, orient), ShipCell)
  }

  /** A ship longer than the board is never accepted, whatever its start and orientation. */
  lemma TooLongNeverFits(row: int, col: int, length: int, orient: Orient, b: Grid<Cell>)
    requires IsGrid(b, |b|) && InBoard(|b|, row, col)
    requires length > |b|
    ensures !IsValidShipPlacement(row, col, length, orient, b)
  {
  }
}
