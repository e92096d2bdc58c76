/** Concrete drops on the real 6 x 7 board: player 1 builds a bottom-row run
    in columns 0..3 while player 2 stacks in column 6.
 */
module Scenarios {
  import opened Board
  import opened Win
  import opened Engine

  /** The board after player 1 has dropped into columns 0 .. a-1 and player 2
      has dropped c pieces into column 6. */
  function Position(a: int, c: int): (b: Grid)
    ensures Shaped(b)
  {
    seq(HEIGHT, y => seq(WIDTH, x =>
      if y == HEIGHT - 1 && 0 <= x < a then Piece(1)
      else if x == WIDTH - 1 && HEIGHT - c <= y then Piece(2)
      else Empty))
  }

  /** Two 6 x 7 boards with the same cells are the same board. */
  lemma SameCells(b1: Grid, b2: Grid)
    requires Shaped(b1) && Shaped(b2)
    requires forall y, x :: InBounds(y, x) ==> b1[y][x] == b2[y][x]
    ensures b1 == b2
  {
    forall y | 0 <= y < HEIGHT
      ensures b1[y] == b2[y]
    {
      assert forall x :: 0 <= x < WIDTH ==> b1[y][x] == b2[y][x];
    }
  }

  /** While player 1 has at most three pieces and player 2 at most three, the
      position is undecided: no four in a row for either, and not full. */
  lemma PositionUndecided(a: int, c: int)
    requires 0 <= a <= 3 && 0 <= c <= 3
    ensures !HasFour(Position(a, c), 1) && !HasFour(Position(a, c), 2) && !IsFull(Position(a, c))
  {
    NoLineInSmallBox(Position(a, c), 1, HEIGHT - 1, 0);
    NoLineInSmallBox(Position(a, c), 2, HEIGHT - 3, WIDTH - 3);
    assert !Truthy(Position(a, c)[0][0]);
  }

  /** Four player-1 pieces in columns 0 .. 3 of the bottom row are a
      horizontal line starting at (5, 0). */
  lemma RunOfFourWins()
    ensures LineAt(Position(4, 3), 1, HEIGHT - 1, 0, Horiz) && HasFour(Position(4, 3), 1)
  {
    var b := Position(4, 3);
    assert Owns(b, 1, HEIGHT - 1, 0) && Owns(b, 1, HEIGHT - 1, 1);
    assert Owns(b, 1, HEIGHT - 1, 2) && Owns(b, 1, HEIGHT - 1, 3);
    assert LineAt(b, 1, HEIGHT - 1, 0, Horiz);
  }

  /** The fresh board is the position with no pieces. */
  lemma InitialIsEmptyPosition()
    ensures Initial() == Game(Position(0, 0), 1, false)
  {
    SameCells(Initial().board, Position(0, 0));
  }

  /** Column a, just right of player 1's run, is empty down to the bottom row. */
  lemma SpotBesideRun(a: int, c: int)
    requires 0 <= a <= 3 && 0 <= c <= 3
    ensures FindSpot(Position(a, c), a) == Some(HEIGHT - 1)
  {
    assert NullAt(Position(a, c)[HEIGHT - 1], a);
  }

  /** In column 6 the spot is the cell just above player 2's c pieces. */
  lemma SpotOnStack(a: int, c: int)
    requires 0 <= a <= 3 && 0 <= c <= 2
    ensures FindSpot(Position(a, c), WIDTH - 1) == Some(HEIGHT - 1 - c)
  {
    var b := Position(a, c);
    assert NullAt(b[HEIGHT - 1 - c], WIDTH - 1);
    assert forall y :: HEIGHT - 1 - c < y < HEIGHT ==> !NullAt(b[y], WIDTH - 1);
  }

  /** Player 1's piece at the bottom of column a extends the run by one. */
  lemma RunGrows(a: int, c: int)
    requires 0 <= a <= 3 && 0 <= c <= 3
    ensures SetCell(Position(a, c), HEIGHT - 1, a, Piece(1)) == Position(a + 1, c)
  {
    SameCells(SetCell(Position(a, c), HEIGHT - 1, a, Piece(1)), Position(a + 1, c));
  }

  /** Player 2's piece on top of its c pieces in column 6 makes the stack c + 1 high. */
  lemma StackGrows(a: int, c: int)
    requires 0 <= a <= 3 && 0 <= c <= 2
    ensures SetCell(Position(a, c), HEIGHT - 1 - c, WIDTH - 1, Piece(2)) == Position(a, c + 1)
  {
    SameCells(SetCell(Position(a, c), HEIGHT - 1 - c, WIDTH - 1, Piece(2)), Position(a, c + 1));
  }

  /** Player 1's drop into column a (a = 0, 1, 2) extends the bottom-row run to
      a + 1 pieces, which is no win, and passes the turn to player 2. */
  lemma PlayerOneExtendsRun(a: int, c: int)
    requires 0 <= a <= 2 && 0 <= c <= 3
    ensures Drop(Game(Position(a, c), 1, false), a) == Move(Game(Position(a + 1, c), 2, false), Continued)
  {
    var g := Game(Position(a, c), 1, false);
    SpotBesideRun(a, c);
    RunGrows(a, c);
    PositionUndecided(a + 1, c);
    DropContinues(g, a, HEIGHT - 1, Position(a + 1, c));
  }

  /** Player 2's drop into column 6 lands on top of its c pieces there, which
      is no win, and passes the turn back to player 1. */
  lemma PlayerTwoStacks(a: int, c: int)
    requires 1 <= a <= 3 && 0 <= c <= 2
    ensures Drop(Game(Position(a, c), 2, false), WIDTH - 1) == Move(Game(Position(a, c + 1), 1, false), Continued)
  {
    var g := Game(Position(a, c), 2, false);
    SpotOnStack(a, c);
    StackGrows(a, c);
    PositionUndecided(a, c + 1);
    DropContinues(g, WIDTH - 1, HEIGHT - 1 - c, Position(a, c + 1));
  }

  /** Player 1's fourth bottom-row piece, in column 3, wins: the game is over
      and player 1 stays the current player. */
  lemma PlayerOneCompletesRun()
    ensures Drop(Game(Position(3, 3), 1, false), 3) == Move(Game(Position(4, 3), 1, true), Won)
  {
    var g := Game(Position(3, 3), 1, false);
    SpotBesideRun(3, 3);
    RunGrows(3, 3);
    RunOfFourWins();
    DropWins(g, 3, HEIGHT - 1, Position(4, 3));
  }

  /** Column 7 is off the board: dropping there leaves the fresh game as it is. */
  lemma ColumnSevenIsRejected()
    ensures Drop(Initial(), 7) == Move(Initial(), NoSpot)
  {
    OutOfRangeDropIsNoOp(Initial(), 7);
  }
}
