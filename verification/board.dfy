/** Board geometry of the Battleship engine: cell markers, ship records,
    footprints, and the grid updates the engine performs on them. */
module Board {

  /** A partial result: the first ship covering a cell, or a finished setup. */
  datatype Option<T> = None | Some(value: T)

  /** The four cell markers of the board: "-" open water, "S" an unrevealed
      ship cell, "x" a miss and "+" a hit. */
  datatype Cell = Empty | ShipCell | Miss | Hit

  /** Ship orientation. The engine treats every orientation other than
      horizontal as vertical, so two values are all there is. */
  datatype Orient = H | V

  /** A placed ship: its first cell, its length and orientation, and how many
      times it has been hit. */
  datatype Ship = Ship(rowStart: int, colStart: int, length: int, orient: Orient, hits: int)

  /** Rows of cells (or of shot flags), indexed `g[row][col]`. */
  type Grid<T> = seq<seq<T>>

  predicate IsGrid<T>(g: Grid<T>, n: int) {
    |g| == n && forall i :: 0 <= i < n ==> |g[i]| == n
  }

  predicate InBoard(n: int, r: int, c: int) {
    0 <= r < n && 0 <= c < n
  }

  function At<T>(g: Grid<T>, p: (int, int)): T
    requires 0 <= p.0 < |g| && 0 <= p.1 < |g[p.0]|
  {
    g[p.0][p.1]
  }

  /** The cell a ship occupies at offset `k` along its orientation. */
  function FootCell(s: Ship, k: int): (int, int) {
    if s.orient == H then (s.rowStart, s.colStart + k) else (s.rowStart + k, s.colStart)
  }

  /** The offset along the ship's orientation at which (r, c) would lie. */
  function Offset(s: Ship, r: int, c: int): int {
    if s.orient == H then c - s.colStart else r - s.rowStart
  }

  /** Whether the ship's footprint covers (r, c), tested as the attack scan tests it. */
  predicate Covers(s: Ship, r: int, c: int) {
    if s.orient == H then r == s.rowStart && s.colStart <= c < s.colStart + s.length
    else c == s.colStart && s.rowStart <= r < s.rowStart + s.length
  }

  /** Number of cells in the footprint; a length of zero or less covers nothing. */
  function Area(s: Ship): nat {
    if s.length > 0 then s.length else 0
  }

  /** A ship is sunk once its hits reach its length. */
  predicate Sunk(s: Ship) {
    s.hits >= s.length
  }

  /** The footprint lies inside an n-by-n board. */
  predicate FootprintInBoard(n: int, s: Ship) {
    s.length <= 0 ||
    (0 <= s.rowStart && 0 <= s.colStart &&
     if s.orient == H then s.rowStart < n && s.colStart + s.length <= n
     else s.colStart < n && s.rowStart + s.length <= n)
  }

  /** No cell is covered by both ships. */
  ghost predicate Disjoint(a: Ship, b: Ship) {
    forall i, j {:trigger Covers(a, i, j), Covers(b, i, j)} :: !(Covers(a, i, j) && Covers(b, i, j))
  }

  ghost predicate PairwiseDisjoint(ships: seq<Ship>) {
    forall x, y {:trigger Disjoint(ships[x], ships[y])} ::
      0 <= x < |ships| && 0 <= y < |ships| && x != y ==> Disjoint(ships[x], ships[y])
  }

  /** Some ship of the fleet covers (r, c). */
  predicate Occupied(ships: seq<Ship>, r: int, c: int) {
    exists k :: 0 <= k < |ships| && Covers(ships[k], r, c)
  }

  /** The footprint is exactly the cells at offsets 0 .. length-1. */
  lemma CoversIsFootCell(s: Ship, r: int, c: int)
    ensures Covers(s, r, c) <==> 0 <= Offset(s, r, c) < s.length && FootCell(s, Offset(s, r, c)) == (r, c)
    ensures forall k :: 0 <= k < s.length ==> Covers(s, FootCell(s, k).0, FootCell(s, k).1)
  {
  }

  /** Writes one cell of a grid. */
  function SetCell<T>(g: Grid<T>, r: int, c: int, v: T): (g': Grid<T>)
    requires IsGrid(g, |g|) && InBoard(|g|, r, c)
    ensures IsGrid(g', |g|)
    ensures forall i, j :: InBoard(|g|, i, j) ==> g'[i][j] == (if i == r && j == c then v else g[i][j])
  {
    g[r := g[r][c := v]]
  }

  /** Writes `v` into every footprint cell of `s`, one cell at a time from the
      far end back; the cells are distinct, so the order does not matter. */
  function Paint(b: Grid<Cell>, s: Ship, v: Cell): (b': Grid<Cell>)
    requires IsGrid(b, |b|) && FootprintInBoard(|b|, s)
    ensures IsGrid(b', |b|)
    ensures forall i, j :: InBoard(|b|, i, j) ==> b'[i][j] == (if Covers(s, i, j) then v else b[i][j])
    decreases s.length
  {
    if s.length <= 0 then b
    else
      var p := FootCell(s, s.length - 1);
      SetCell(Paint(b, s.(length := s.length - 1), v), p.0, p.1, v)
  }
}
