/** The in-memory board of the Connect Four engine: a HEIGHT x WIDTH grid of
    cells addressed as board[y][x], row 0 at the top and row HEIGHT-1 at the
    bottom, where pieces settle first.
 */
module Board {

  const HEIGHT: int := 6
  const WIDTH: int := 7

  datatype Option<+T> = None | Some(value: T)

  /** A cell is `null` (Empty) or holds the number of the player who owns it. */
  datatype Cell = Empty | Piece(owner: int)

  type Row = seq<Cell>
  type Grid = seq<Row>

  /** JavaScript truthiness of a cell value: `null` and `0` are falsy. */
  predicate Truthy(c: Cell) {
    c.Piece? && c.owner != 0
  }

  /** The grid has exactly HEIGHT rows of WIDTH cells each. */
  predicate Shaped(b: Grid) {
    |b| == HEIGHT && forall y :: 0 <= y < |b| ==> |b[y]| == WIDTH
  }

  predicate InBounds(y: int, x: int) {
    0 <= y < HEIGHT && 0 <= x < WIDTH
  }

  /** Every cell is empty or owned by player 1 or player 2. */
  ghost predicate CellsValid(b: Grid)
    requires Shaped(b)
  {
    forall y, x :: InBounds(y, x) ==> b[y][x] in {Empty, Piece(1), Piece(2)}
  }

  /** Gravity: in every column, no empty cell lies below an occupied one. */
  ghost predicate Settled(b: Grid)
    requires Shaped(b)
  {
    forall y, y', x :: 0 <= y < y' < HEIGHT && 0 <= x < WIDTH && b[y][x] != Empty ==> b[y'][x] != Empty
  }

  /** The board as makeBoard leaves it: HEIGHT x WIDTH, every cell empty. */
  function MakeBoard(): (b: Grid)
    ensures Shaped(b)
    ensures forall y, x :: InBounds(y, x) ==> b[y][x] == Empty
  {
    seq(HEIGHT, _ => seq(WIDTH, _ => Empty))
  }

  /** The board part of reset: every cell of the existing board is set to empty. */
  function Clear(b: Grid): (c: Grid)
    requires Shaped(b)
    ensures c == MakeBoard()
  {
    var c := seq(|b|, y requires 0 <= y < |b| => seq(|b[y]|, x => Empty));
    assert forall y :: 0 <= y < HEIGHT ==> c[y] == MakeBoard()[y];
    c
  }

  /** The tie test: every cell of every row is truthy. */
  predicate IsFull(b: Grid) {
    forall y, x :: 0 <= y < |b| && 0 <= x < |b[y]| ==> Truthy(b[y][x])
  }

  /** `row[x] === null`: false when x is out of range, where `row[x]` is undefined. */
  predicate NullAt(row: Row, x: int) {
    0 <= x < |row| && row[x] == Empty
  }

  /** findSpotForCol: the last row index whose cell in column x is null (the
      lowest empty cell), or None when there is none. Any grid and any integer
      column are accepted; an out-of-range column has no null cell. */
  function FindSpot(b: Grid, x: int): (r: Option<nat>)
    ensures r.Some? ==> r.value < |b| && NullAt(b[r.value], x)
    ensures r.Some? ==> forall y :: r.value < y < |b| ==> !NullAt(b[y], x)
    ensures r.None? ==> forall y :: 0 <= y < |b| ==> !NullAt(b[y], x)
  {
    LastNullBelow(b, x, |b|)
  }

  /** lastIndexOf(null) restricted to rows 0 .. n-1, searched from row n-1 upward. */
  function LastNullBelow(b: Grid, x: int, n: nat): (r: Option<nat>)
    requires n <= |b|
    ensures r.Some? ==> r.value < n && NullAt(b[r.value], x)
    ensures r.Some? ==> forall y :: r.value < y < n ==> !NullAt(b[y], x)
    ensures r.None? ==> forall y :: 0 <= y < n ==> !NullAt(b[y], x)
  {
    if n == 0 then None
    else if NullAt(b[n - 1], x) then Some(n - 1)
    else LastNullBelow(b, x, n - 1)
  }

  /** `board[y][x] = c`: the one cell changes, every other cell keeps its value. */
  function SetCell(b: Grid, y: int, x: int, c: Cell): (r: Grid)
    requires Shaped(b) && InBounds(y, x)
    ensures Shaped(r)
    ensures r[y][x] == c
    ensures forall y', x' :: InBounds(y', x') && (y', x') != (y, x) ==> r[y'][x'] == b[y'][x']
  {
    b[y := b[y][x := c]]
  }

  /** On a 6 x 7 board a column outside [0, WIDTH) never offers a spot. */
  lemma OutOfRangeColumnHasNoSpot(b: Grid, x: int)
    requires Shaped(b)
    requires x < 0 || WIDTH <= x
    ensures FindSpot(b, x) == None
  {
  }

  /** For a column in range, there is no spot exactly when every cell of the
      column is occupied. */
  lemma NoSpotIffColumnFull(b: Grid, x: int)
    requires Shaped(b) && 0 <= x < WIDTH
    ensures FindSpot(b, x) == None <==> forall y :: 0 <= y < HEIGHT ==> b[y][x] != Empty
  {
  }

  /** With cells empty, 1 or 2, the tie test holds exactly when no column
      offers a spot, that is when no click can place a piece. */
  lemma FullIffNoSpot(b: Grid)
    requires Shaped(b) && CellsValid(b)
    ensures IsFull(b) <==> forall x :: 0 <= x < WIDTH ==> FindSpot(b, x).None?
  {
    forall x | 0 <= x < WIDTH
      ensures FindSpot(b, x).None? <==> forall y :: 0 <= y < HEIGHT ==> b[y][x] != Empty
    {
      NoSpotIffColumnFull(b, x);
    }
    if !IsFull(b) {
      var y, x :| 0 <= y < |b| && 0 <= x < |b[y]| && !Truthy(b[y][x]);
      assert b[y][x] == Empty;
      assert FindSpot(b, x).Some?;
    }
  }

  /** On a settled board the spot found is the top of the column's stack:
      every cell above it is empty and every cell below it is occupied. */
  lemma SpotIsTopOfStack(b: Grid, x: int)
    requires Shaped(b) && Settled(b)
    requires FindSpot(b, x).Some?
    ensures 0 <= x < WIDTH
    ensures forall y :: 0 <= y <= FindSpot(b, x).value ==> b[y][x] == Empty
    ensures forall y :: FindSpot(b, x).value < y < HEIGHT ==> b[y][x] != Empty
  {
  }

  /** Putting a piece of player 1 or 2 on the spot of column x, and changing
      nothing else, keeps the cell values valid and every column settled. */
  lemma PlacingOnSpotKeepsInvariants(b: Grid, b': Grid, x: int, p: int)
    requires Shaped(b) && CellsValid(b) && Settled(b)
    requires FindSpot(b, x).Some? && (p == 1 || p == 2)
    requires Shaped(b') && b'[FindSpot(b, x).value][x] == Piece(p)
    requires forall y', x' :: InBounds(y', x') && (y', x') != (FindSpot(b, x).value, x) ==> b'[y'][x'] == b[y'][x']
    ensures CellsValid(b') && Settled(b')
  {
    var y := FindSpot(b, x).value;
    assert forall y2 :: y < y2 < HEIGHT ==> b[y2][x] != Empty by {
      forall y2 | y < y2 < HEIGHT
        ensures b[y2][x] != Empty
      {
        assert !NullAt(b[y2], x);
      }
    }
  }
}
