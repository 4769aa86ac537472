/** Worked games on a 10-by-10 board. */
module Scenarios {
  import opened Board
  import opened Placement
  import opened Battleship
  import opened Invariants

  /** A single horizontal ship of length 4 at (2, 3), placed by the first draw. */
  lemma OneShipSetup()
    ensures var r := NewGame(10, [4], [Draw(2, 3, H)]);
            r.Some? && r.value.ships == [Ship(2, 3, 4, H, 0)] && Valid(r.value)
  {
    var b := EmptyBoard(10);
    assert IsValidShipPlacement(2, 3, 4, H, b);
    NewGameValid(10, [4], [Draw(2, 3, H)]);
  }

  /** The one-ship game after `h` hits on its first `h` cells: valid, the
      ship hit `h` times, both counters at `h`, its other cells unshot. */
  ghost predicate HitsSoFar(g: Game, h: int) {
    && Valid(g) && |g.board| == 10
    && g.ships == [Ship(2, 3, 4, H, h)]
    && g.numShots == h && g.numAttempts == h
    && forall c :: 3 + h <= c < 7 ==> !g.shots[2][c]
  }

  /** The one-ship setup is the game after zero hits. */
  lemma SetupHitsSoFar()
    ensures NewGame(10, [4], [Draw(2, 3, H)]).Some?
    ensures HitsSoFar(NewGame(10, [4], [Draw(2, 3, H)]).value, 0)
  {
    OneShipSetup();
  }

  /** The next cell along the ship is a hit, and the game moves on to `h + 1` hits. */
  lemma NextHit(g: Game, h: int)
    requires HitsSoFar(g, h) && 0 <= h < 4
    ensures Attack(g, 2, 3 + h).1 && HitsSoFar(Attack(g, 2, 3 + h).0, h + 1)
    ensures IsOver(Attack(g, 2, 3 + h).0) <==> h == 3
  {
    assert Covers(g.ships[0], 2, 3 + h);
    assert Occupied(g.ships, 2, 3 + h);
    assert g.board[2][3 + h] == View(g.ships, g.shots[2][3 + h], 2, 3 + h);
    AttackPreservesValid(g, 2, 3 + h);
    var a := Attack(g, 2, 3 + h).0;
    forall c | 3 + h + 1 <= c < 7
      ensures !a.shots[2][c]
    {
      assert InBoard(|g.board|, 2, c);
    }
  }

  /** Two further cells along the ship are both hits. */
  lemma TwoHits(g: Game, h: int)
    requires HitsSoFar(g, h) && 0 <= h <= 2
    ensures var a1 := Attack(g, 2, 3 + h);
            var a2 := Attack(a1.0, 2, 4 + h);
            a1.1 && a2.1 && HitsSoFar(a2.0, h + 2)
    ensures IsOver(Attack(Attack(g, 2, 3 + h).0, 2, 4 + h).0) <==> h == 2
    ensures !IsOver(Attack(g, 2, 3 + h).0)
  {
    NextHit(g, h);
    NextHit(Attack(g, 2, 3 + h).0, h + 1);
  }

  /** Attacking (2,3), (2,4), (2,5) hits without sinking; (2,6) sinks the
      ship and wins the game. */
  lemma SinkOneShip()
    ensures var g0 := NewGame(10, [4], [Draw(2, 3, H)]).value;
            var a1 := Attack(g0, 2, 3);
            var a2 := Attack(a1.0, 2, 4);
            var a3 := Attack(a2.0, 2, 5);
            var a4 := Attack(a3.0, 2, 6);
            && a1.1 && a2.1 && a3.1 && a4.1
            && !IsOver(a3.0) && IsOver(a4.0)
            && a4.0.numShots == 4 && a4.0.numAttempts == 4
  {
    SetupHitsSoFar();
    var g0 := NewGame(10, [4], [Draw(2, 3, H)]).value;
    TwoHits(g0, 0);
    TwoHits(Attack(Attack(g0, 2, 3).0, 2, 4).0, 2);
  }

  /** Off-board attacks are rejected and leave the attempt count at zero. */
  lemma OffBoardRejected()
    ensures var g0 := NewGame(10, [4], [Draw(2, 3, H)]).value;
            Attack(g0, -1, 0) == (g0, false) && Attack(g0, 10, 5) == (g0, false) && g0.numAttempts == 0
  {
    OneShipSetup();
  }

  /** A miss at (0, 0) is marked; attacking it again is rejected. */
  lemma MissThenRepeat()
    ensures var g0 := NewGame(10, [4], [Draw(2, 3, H)]).value;
            var a1 := Attack(g0, 0, 0);
            && !a1.1 && a1.0.board[0][0] == Miss && a1.0.numAttempts == 1
            && Attack(a1.0, 0, 0) == (a1.0, false)
  {
    OneShipSetup();
    var g0 := NewGame(10, [4], [Draw(2, 3, H)]).value;
    assert !Occupied(g0.ships, 0, 0);
  }

  /** A 2-by-2 board cannot take a ship of length 3, whatever the draws. */
  lemma TooLongForBoard(draws: seq<Draw>)
    requires forall k :: 0 <= k < |draws| ==> InBoard(2, draws[k].row, draws[k].col)
    ensures NewGame(2, [3], draws) == None
  {
    NewGameTooLong(2, [3], draws, 0);
  }
}
