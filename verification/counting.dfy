/** Counts kept in step with the game's counters: shot cells of one ship's
    footprint, shot cells of the whole board, and the fleet's total hits. */
module Counting {
  import opened Board

  /** How many of the ship's footprint offsets 0 .. k-1 have been shot at. */
  function ShotsIn(shots: Grid<bool>, s: Ship, k: int): nat
    requires IsGrid(shots, |shots|) && FootprintInBoard(|shots|, s) && k <= s.length
    decreases k
  {
    if k <= 0 then 0
    else ShotsIn(shots, s, k - 1) + (if At(shots, FootCell(s, k - 1)) then 1 else 0)
  }

  /** How many cells of the ship's footprint have been shot at. */
  function ShotCount(shots: Grid<bool>, s: Ship): nat
    requires IsGrid(shots, |shots|) && FootprintInBoard(|shots|, s)
  {
    ShotsIn(shots, s, s.length)
  }

  lemma {:induction false} ShotsInFull(shots: Grid<bool>, s: Ship, k: int)
    requires IsGrid(shots, |shots|) && FootprintInBoard(|shots|, s) && k <= s.length
    ensures ShotsIn(shots, s, k) <= (if k > 0 then k else 0)
    ensures ShotsIn(shots, s, k) == (if k > 0 then k else 0) <==>
            forall j :: 0 <= j < k ==> At(shots, FootCell(s, j))
    decreases k
  {
    if k > 0 {
      ShotsInFull(shots, s, k - 1);
    }
  }

  /** The shot count never exceeds the footprint, and reaches it exactly
      when every footprint cell has been shot at. */
  lemma ShotCountFull(shots: Grid<bool>, s: Ship)
    requires IsGrid(shots, |shots|) && FootprintInBoard(|shots|, s)
    ensures ShotCount(shots, s) <= Area(s)
    ensures ShotCount(shots, s) == Area(s) <==> forall i, j :: Covers(s, i, j) ==> shots[i][j]
  {
    ShotsInFull(shots, s, s.length);
    forall i, j | Covers(s, i, j) {
      CoversIsFootCell(s, i, j);
    }
    CoversIsFootCell(s, 0, 0);
  }

  lemma {:induction false} ShotsInAfterShot(shots: Grid<bool>, s: Ship, r: int, c: int, k: int)
    requires IsGrid(shots, |shots|) && FootprintInBoard(|shots|, s) && k <= s.length
    requires InBoard(|shots|, r, c)
    ensures ShotsIn(SetCell(shots, r, c, true), s, k) ==
            ShotsIn(shots, s, k) +
            (if 0 <= Offset(s, r, c) < k && FootCell(s, Offset(s, r, c)) == (r, c) && !shots[r][c] then 1 else 0)
    decreases k
  {
    if k > 0 {
      ShotsInAfterShot(shots, s, r, c, k - 1);
    }
  }

  /** Shooting at (r, c) adds one to a ship's shot count exactly when the
      ship covers that cell and it had not been shot at before. */
  lemma ShotCountAfterShot(shots: Grid<bool>, s: Ship, r: int, c: int)
    requires IsGrid(shots, |shots|) && FootprintInBoard(|shots|, s) && InBoard(|shots|, r, c)
    ensures ShotCount(SetCell(shots, r, c, true), s) ==
            ShotCount(shots, s) + (if Covers(s, r, c) && !shots[r][c] then 1 else 0)
  {
    ShotsInAfterShot(shots, s, r, c, s.length);
    CoversIsFootCell(s, r, c);
  }

  /** The shot count depends on where the ship lies, not on its hit counter. */
  lemma {:induction false} ShotsInIgnoresHits(shots: Grid<bool>, s: Ship, h: int, k: int)
    requires IsGrid(shots, |shots|) && FootprintInBoard(|shots|, s) && k <= s.length
    ensures ShotsIn(shots, s.(hits := h), k) == ShotsIn(shots, s, k)
    decreases k
  {
    if k > 0 {
      ShotsInIgnoresHits(shots, s, h, k - 1);
    }
  }

  /** With no shot fired, every ship's shot count is zero. */
  lemma {:induction false} ShotsInNone(shots: Grid<bool>, s: Ship, k: int)
    requires IsGrid(shots, |shots|) && FootprintInBoard(|shots|, s) && k <= s.length
    requires forall i, j :: InBoard(|shots|, i, j) ==> !shots[i][j]
    ensures ShotsIn(shots, s, k) == 0
    decreases k
  {
    if k > 0 {
      ShotsInNone(shots, s, k - 1);
    }
  }

  /** Number of true entries in one row of the shot log. */
  function CountRow(row: seq<bool>): nat
  {
    if |row| == 0 then 0 else CountRow(row[..|row| - 1]) + (if row[|row| - 1] then 1 else 0)
  }

  /** Number of cells of the shot log that have been shot at. */
  function CountShots(g: Grid<bool>): nat
  {
    if |g| == 0 then 0 else CountShots(g[..|g| - 1]) + CountRow(g[|g| - 1])
  }

  lemma {:induction false} CountRowSet(row: seq<bool>, j: int)
    requires 0 <= j < |row|
    ensures CountRow(row[j := true]) == CountRow(row) + (if row[j] then 0 else 1)
    decreases |row|
  {
    var last := |row| - 1;
    if j < last {
      assert row[j := true][..last] == row[..last][j := true];
      CountRowSet(row[..last], j);
    } else {
      assert row[j := true][..last] == row[..last];
    }
  }

  lemma {:induction false} CountRowBound(row: seq<bool>)
    ensures CountRow(row) <= |row|
    decreases |row|
  {
    if |row| > 0 {
      CountRowBound(row[..|row| - 1]);
    }
  }

  lemma {:induction false} CountRowNone(row: seq<bool>)
    requires forall j :: 0 <= j < |row| ==> !row[j]
    ensures CountRow(row) == 0
    decreases |row|
  {
    if |row| > 0 {
      CountRowNone(row[..|row| - 1]);
    }
  }

  /** Marking one fresh cell of the shot log adds exactly one to the count. */
  lemma CountShotsAfterShot(g: Grid<bool>, r: int, c: int)
    requires IsGrid(g, |g|) && InBoard(|g|, r, c)
    ensures CountShots(SetCell(g, r, c, true)) == CountShots(g) + (if g[r][c] then 0 else 1)
  {
    CountShotsRowSet(g, r, c);
  }

  lemma {:induction false} CountShotsRowSet(g: Grid<bool>, r: int, c: int)
    requires 0 <= r < |g| && 0 <= c < |g[r]|
    ensures CountShots(g[r := g[r][c := true]]) == CountShots(g) + (if g[r][c] then 0 else 1)
    decreases |g|
  {
    var g' := g[r := g[r][c := true]];
    var last := |g| - 1;
    CountRowSet(g[r], c);
    if r < last {
      assert g'[..last] == g[..last][r := g[r][c := true]];
      CountShotsRowSet(g[..last], r, c);
    } else {
      assert g'[..last] == g[..last];
    }
  }

  /** A shot log of n rows of n cells holds at most n * n shots. */
  lemma {:induction false} CountShotsBound(g: Grid<bool>, n: nat)
    requires forall i :: 0 <= i < |g| ==> |g[i]| == n
    ensures CountShots(g) <= |g| * n
    decreases |g|
  {
    if |g| > 0 {
      CountShotsBound(g[..|g| - 1], n);
      CountRowBound(g[|g| - 1]);
    }
  }

  lemma {:induction false} CountShotsNone(g: Grid<bool>)
    requires forall i, j :: 0 <= i < |g| && 0 <= j < |g[i]| ==> !g[i][j]
    ensures CountShots(g) == 0
    decreases |g|
  {
    if |g| > 0 {
      CountShotsNone(g[..|g| - 1]);
      CountRowNone(g[|g| - 1]);
    }
  }

  /** Sum of the hit counters of a fleet. */
  function SumHits(ships: seq<Ship>): int
  {
    if |ships| == 0 then 0 else SumHits(ships[..|ships| - 1]) + ships[|ships| - 1].hits
  }

  /** Replacing one ship changes the fleet total by the change in its hits. */
  lemma {:induction false} SumHitsUpdate(ships: seq<Ship>, k: int, t: Ship)
    requires 0 <= k < |ships|
    ensures SumHits(ships[k := t]) == SumHits(ships) - ships[k].hits + t.hits
    decreases |ships|
  {
    var last := |ships| - 1;
    if k < last {
      assert ships[k := t][..last] == ships[..last][k := t];
      SumHitsUpdate(ships[..last], k, t);
    } else {
      assert ships[k := t][..last] == ships[..last];
    }
  }

  lemma {:induction false} SumHitsZero(ships: seq<Ship>)
    requires forall k :: 0 <= k < |ships| ==> ships[k].hits == 0
    ensures SumHits(ships) == 0
    decreases |ships|
  {
    if |ships| > 0 {
      SumHitsZero(ships[..|ships| - 1]);
    }
  }

  lemma {:induction false} SumHitsNonNegative(ships: seq<Ship>)
    requires forall k :: 0 <= k < |ships| ==> ships[k].hits >= 0
    ensures SumHits(ships) >= 0
    decreases |ships|
  {
    if |ships| > 0 {
      SumHitsNonNegative(ships[..|ships| - 1]);
    }
  }
}
