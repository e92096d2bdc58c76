/** checkForWin: a brute-force scan over every start cell and the four
    direction vectors, looking for four in-bounds cells owned by one player.
 */
module Win {
  import opened Board

  /** The four directions the scan tries from each start cell. */
  datatype Dir = Horiz | Vert | DiagDR | DiagDL

  function DY(d: Dir): int {
    match d
    case Horiz => 0
    case Vert => 1
    case DiagDR => 1
    case DiagDL => 1
  }

  function DX(d: Dir): int {
    match d
    case Horiz => 1
    case Vert => 0
    case DiagDR => 1
    case DiagDL => -1
  }

  /** Cell (y, x) is on the board and holds player p's piece. */
  predicate Owns(b: Grid, p: int, y: int, x: int)
    requires Shaped(b)
  {
    InBounds(y, x) && b[y][x] == Piece(p)
  }

  /** The cells (y + k*dy, x + k*dx), k = 0, 1, 2, 3, are all owned by p. */
  ghost predicate LineAt(b: Grid, p: int, y: int, x: int, d: Dir)
    requires Shaped(b)
  {
    && Owns(b, p, y, x)
    && Owns(b, p, y + DY(d), x + DX(d))
    && Owns(b, p, y + 2 * DY(d), x + 2 * DX(d))
    && Owns(b, p, y + 3 * DY(d), x + 3 * DX(d))
  }

  /** Player p has four in a row somewhere on the board. */
  ghost predicate HasFour(b: Grid, p: int)
    requires Shaped(b)
  {
    exists y, x, d :: LineAt(b, p, y, x, d)
  }

  /** The candidate line of four cells the scan builds from (y, x). */
  function Line(y: int, x: int, d: Dir): seq<(int, int)> {
    match d
    case Horiz => [(y, x), (y, x + 1), (y, x + 2), (y, x + 3)]
    case Vert => [(y, x), (y + 1, x), (y + 2, x), (y + 3, x)]
    case DiagDR => [(y, x), (y + 1, x + 1), (y + 2, x + 2), (y + 3, x + 3)]
    case DiagDL => [(y, x), (y + 1, x - 1), (y + 2, x - 2), (y + 3, x - 3)]
  }

  /** _win: every cell of the list is a legal coordinate holding p. */
  predicate AllOwned(b: Grid, p: int, cells: seq<(int, int)>)
    requires Shaped(b)
  {
    forall i :: 0 <= i < |cells| ==> Owns(b, p, cells[i].0, cells[i].1)
  }

  /** _win applied to the line the scan builds agrees with LineAt. */
  lemma AllOwnedLine(b: Grid, p: int, y: int, x: int, d: Dir)
    requires Shaped(b)
    ensures AllOwned(b, p, Line(y, x, d)) <==> LineAt(b, p, y, x, d)
  {
    var c := Line(y, x, d);
    assert |c| == 4 && c[0] == (y, x) && c[1] == (y + DY(d), x + DX(d))
      && c[2] == (y + 2 * DY(d), x + 2 * DX(d)) && c[3] == (y + 3 * DY(d), x + 3 * DX(d)) by {
      match d
      case Horiz =>
      case Vert =>
      case DiagDR =>
      case DiagDL =>
    }
    if AllOwned(b, p, c) {
      assert Owns(b, p, c[0].0, c[0].1) && Owns(b, p, c[1].0, c[1].1);
      assert Owns(b, p, c[2].0, c[2].1) && Owns(b, p, c[3].0, c[3].1);
    }
    if LineAt(b, p, y, x, d) {
      forall i | 0 <= i < |c|
        ensures Owns(b, p, c[i].0, c[i].1)
      {
        assert i == 0 || i == 1 || i == 2 || i == 3;
      }
    }
  }

  /** Some direction from start cell (y, x) gives a win for p. */
  predicate WinsFrom(b: Grid, p: int, y: int, x: int)
    requires Shaped(b)
  {
    AllOwned(b, p, Line(y, x, Horiz)) || AllOwned(b, p, Line(y, x, Vert))
    || AllOwned(b, p, Line(y, x, DiagDR)) || AllOwned(b, p, Line(y, x, DiagDL))
  }

  lemma WinsFromIffLine(b: Grid, p: int, y: int, x: int)
    requires Shaped(b)
    ensures WinsFrom(b, p, y, x) <==> exists d :: LineAt(b, p, y, x, d)
  {
    AllOwnedLine(b, p, y, x, Horiz);
    AllOwnedLine(b, p, y, x, Vert);
    AllOwnedLine(b, p, y, x, DiagDR);
    AllOwnedLine(b, p, y, x, DiagDL);
    if exists d :: LineAt(b, p, y, x, d) {
      var d :| LineAt(b, p, y, x, d);
      assert d.Horiz? || d.Vert? || d.DiagDR? || d.DiagDL?;
    }
  }

  /** Start cell (y', x') comes at or after (y, x) in the scan's row-major order
      over the board. */
  predicate AtOrAfter(y: int, x: int, y': int, x': int) {
    || (y' == y && x <= x' < WIDTH)
    || (y < y' < HEIGHT && 0 <= x' < WIDTH)
  }

  /** Some line of p starts at a cell the scan has yet to visit from (y, x). */
  ghost predicate LineAhead(b: Grid, p: int, y: int, x: int)
    requires Shaped(b)
  {
    exists y', x', d :: AtOrAfter(y, x, y', x') && LineAt(b, p, y', x', d)
  }

  /** The two nested loops of checkForWin as one recursion in row-major order:
      start cell (y, x), then (y, x + 1), ..., then the next row from column 0. */
  function Scan(b: Grid, p: int, y: nat, x: nat): (r: bool)
    requires Shaped(b) && x <= WIDTH
    ensures r <==> LineAhead(b, p, y, x)
    decreases HEIGHT - y, WIDTH - x
  {
    if HEIGHT <= y then
      NothingAheadOfLastRow(b, p, y, x);
      false
    else if x == WIDTH then
      NextRow(b, p, y);
      Scan(b, p, y + 1, 0)
    else
      NextCell(b, p, y, x);
      if WinsFrom(b, p, y, x) then true
      else Scan(b, p, y, x + 1)
  }

  lemma NothingAheadOfLastRow(b: Grid, p: int, y: int, x: int)
    requires Shaped(b) && HEIGHT <= y
    ensures !LineAhead(b, p, y, x)
  {
  }

  lemma NextRow(b: Grid, p: int, y: int)
    requires Shaped(b)
    ensures LineAhead(b, p, y, WIDTH) <==> LineAhead(b, p, y + 1, 0)
  {
    if LineAhead(b, p, y, WIDTH) {
      var y', x', d :| AtOrAfter(y, WIDTH, y', x') && LineAt(b, p, y', x', d);
      assert AtOrAfter(y + 1, 0, y', x');
    }
    if LineAhead(b, p, y + 1, 0) {
      var y', x', d :| AtOrAfter(y + 1, 0, y', x') && LineAt(b, p, y', x', d);
      assert AtOrAfter(y, WIDTH, y', x');
    }
  }

  lemma NextCell(b: Grid, p: int, y: int, x: int)
    requires Shaped(b) && 0 <= x < WIDTH
    ensures LineAhead(b, p, y, x) <==> WinsFrom(b, p, y, x) || LineAhead(b, p, y, x + 1)
  {
    WinsFromIffLine(b, p, y, x);
    if LineAhead(b, p, y, x) {
      var y', x', d :| AtOrAfter(y, x, y', x') && LineAt(b, p, y', x', d);
      if (y', x') != (y, x) {
        assert AtOrAfter(y, x + 1, y', x');
      }
    }
    if WinsFrom(b, p, y, x) {
      var d :| LineAt(b, p, y, x, d);
      assert AtOrAfter(y, x, y, x);
    }
    if LineAhead(b, p, y, x + 1) {
      var y', x', d :| AtOrAfter(y, x + 1, y', x') && LineAt(b, p, y', x', d);
      assert AtOrAfter(y, x, y', x');
    }
  }

  /** checkForWin with currPlayer = p; the JavaScript's `undefined` when no
      line is found is `false` here. It holds exactly when p has four in a row. */
  function CheckForWin(b: Grid, p: int): (r: bool)
    requires Shaped(b)
    ensures r <==> HasFour(b, p)
  {
    LineStartsOnBoard(b, p);
    Scan(b, p, 0, 0)
  }

  /** A line's first cell is on the board, so the scan's start cells cover every line. */
  lemma LineStartsOnBoard(b: Grid, p: int)
    requires Shaped(b)
    ensures HasFour(b, p) <==> LineAhead(b, p, 0, 0)
  {
    if HasFour(b, p) {
      var y, x, d :| LineAt(b, p, y, x, d);
      assert Owns(b, p, y, x);
      assert AtOrAfter(0, 0, y, x);
    }
  }

  /** Writing p's piece into one cell, leaving every other cell alone, cannot
      create a line for another player q. */
  lemma PlacingKeepsOthersLines(b: Grid, b': Grid, y: int, x: int, p: int, q: int)
    requires Shaped(b) && Shaped(b') && InBounds(y, x) && p != q
    requires b'[y][x] == Piece(p)
    requires forall y', x' :: InBounds(y', x') && (y', x') != (y, x) ==> b'[y'][x'] == b[y'][x']
    ensures HasFour(b', q) ==> HasFour(b, q)
  {
    if HasFour(b', q) {
      var y0, x0, d :| LineAt(b', q, y0, x0, d);
      assert LineAt(b, q, y0, x0, d);
    }
  }

  /** A player whose pieces all fit in a 3 x 3 box has no four in a row: every
      line of four spans four rows or four columns. */
  lemma NoLineInSmallBox(b: Grid, p: int, r: int, c: int)
    requires Shaped(b)
    requires forall y, x :: Owns(b, p, y, x) ==> r <= y <= r + 2 && c <= x <= c + 2
    ensures !HasFour(b, p)
  {
    forall y, x, d
      ensures !LineAt(b, p, y, x, d)
    {
      assert !(Owns(b, p, y, x) && Owns(b, p, y + 3 * DY(d), x + 3 * DX(d))) by {
        match d
        case Horiz =>
        case Vert =>
        case DiagDR =>
        case DiagDL =>
      }
    }
  }
}
