/** The game state of the Connect Four engine, (board, currPlayer, isOver),
    and its transitions: the start of a game, restart, and dropping a piece
    into a column (the state logic of a click on a column top).
 */
module Engine {
  import opened Board
  import opened Win

  datatype Game = Game(board: Grid, currPlayer: int, isOver: bool)

  /** Which branch of the click handler a drop took. */
  datatype Outcome =
    | AlreadyOver   // the game had ended: nothing happens
    | NoSpot        // the column has no empty cell, or is not a column at all
    | Won           // the piece completed four in a row
    | Tied          // the piece filled the board without a win
    | Continued     // the piece was placed and play goes on
  {
    /** A piece was written to the board. */
    predicate Placed() {
      Won? || Tied? || Continued?
    }

    /** The player to move changes: the piece was placed and did not win. */
    predicate Switches() {
      Tied? || Continued?
    }
  }

  datatype Move = Move(next: Game, outcome: Outcome)

  /** `currPlayer === 1 ? 2 : 1` */
  function Toggle(p: int): (q: int)
    ensures p == 1 ==> q == 2
    ensures p == 2 ==> q == 1
  {
    if p == 1 then 2 else 1
  }

  /** The state at page load: an empty board made by makeBoard, player 1 to move. */
  function Initial(): (g: Game)
    ensures Shaped(g.board) && g.currPlayer == 1 && !g.isOver
    ensures forall y, x :: InBounds(y, x) ==> g.board[y][x] == Empty
  {
    Game(MakeBoard(), 1, false)
  }

  /** The state part of reset: clear every cell, player 1 to move, game not over. */
  function Reset(g: Game): (r: Game)
    requires Shaped(g.board)
    ensures r == Initial()
  {
    Game(Clear(g.board), 1, false)
  }

  /** endGame keeps only its effect on the state: the game is over. */
  function EndGame(g: Game): (r: Game)
    ensures r.isOver && r.board == g.board && r.currPlayer == g.currPlayer
  {
    g.(isOver := true)
  }

  /** The current player's piece in column x, after which a winner, a full
      board or the next turn is decided. */
  function Drop(g: Game, x: int): (m: Move)
    requires Shaped(g.board)
    ensures Shaped(m.next.board)
    ensures g.isOver ==> m == Move(g, AlreadyOver)
    ensures !g.isOver && FindSpot(g.board, x).None? ==> m == Move(g, NoSpot)
    ensures !g.isOver && FindSpot(g.board, x).Some? ==> m.outcome.Placed()
    ensures !m.outcome.Placed() ==> m.next == g
    ensures m.next.currPlayer == if m.outcome.Switches() then Toggle(g.currPlayer) else g.currPlayer
    ensures m.outcome.Placed() ==>
      var y := FindSpot(g.board, x).value;
      && FindSpot(g.board, x).Some? && InBounds(y, x)
      && g.board[y][x] == Empty && m.next.board[y][x] == Piece(g.currPlayer)
    ensures m.outcome == Won ==>
      m.next.isOver && m.next.currPlayer == g.currPlayer && HasFour(m.next.board, g.currPlayer)
    ensures m.outcome == Tied ==>
      m.next.isOver && m.next.currPlayer == Toggle(g.currPlayer)
      && IsFull(m.next.board) && !HasFour(m.next.board, g.currPlayer)
    ensures m.outcome == Continued ==>
      !m.next.isOver && m.next.currPlayer == Toggle(g.currPlayer)
      && !IsFull(m.next.board) && !HasFour(m.next.board, g.currPlayer)
  {
    if g.isOver then Move(g, AlreadyOver)
    else
      match FindSpot(g.board, x)
      case None => Move(g, NoSpot)
      case Some(y) => AfterPlacing(g.(board := SetCell(g.board, y, x, Piece(g.currPlayer))))
  }

  /** The rest of the click handler once the piece is in the board: a win ends
      the game and keeps the player; otherwise a full board ends the game, and
      either way the player switches, since there is no return after the tie. */
  function AfterPlacing(placed: Game): (m: Move)
    requires Shaped(placed.board)
    ensures m.next.board == placed.board && m.outcome.Placed()
    ensures m.outcome == Won <==> HasFour(placed.board, placed.currPlayer)
    ensures m.outcome == Tied <==> !HasFour(placed.board, placed.currPlayer) && IsFull(placed.board)
    ensures m.next.currPlayer == if m.outcome.Switches() then Toggle(placed.currPlayer) else placed.currPlayer
    ensures m.next.isOver <==> placed.isOver || !m.outcome.Continued?
  {
    if CheckForWin(placed.board, placed.currPlayer) then
      Move(EndGame(placed), Won)
    else
      var ended := if IsFull(placed.board) then EndGame(placed) else placed;
      Move(ended.(currPlayer := Toggle(ended.currPlayer)), if IsFull(placed.board) then Tied else Continued)
  }

  /** A drop that places a piece changes exactly one cell, the spot of column
      x, from empty to the current player's piece. */
  lemma DropChangesOneCell(g: Game, x: int)
    requires Shaped(g.board) && Drop(g, x).outcome.Placed()
    ensures var y := FindSpot(g.board, x).value;
      forall y', x' :: InBounds(y', x') && (y', x') != (y, x) ==> Drop(g, x).next.board[y'][x'] == g.board[y'][x']
  {
  }

  /** A placing drop writes the current player's piece into the spot of
      column x and nothing else into the board. */
  lemma DropWritesSpot(g: Game, x: int)
    requires Shaped(g.board) && !g.isOver && FindSpot(g.board, x).Some?
    ensures Drop(g, x).next.board == SetCell(g.board, FindSpot(g.board, x).value, x, Piece(g.currPlayer))
  {
  }

  /** A drop into a column whose spot is row y, after which the mover has no
      four in a row and an empty cell is left, continues the game with the
      other player. */
  lemma DropContinues(g: Game, x: int, y: nat, b: Grid)
    requires Shaped(g.board) && !g.isOver && FindSpot(g.board, x) == Some(y)
    requires b == SetCell(g.board, y, x, Piece(g.currPlayer))
    requires !HasFour(b, g.currPlayer) && !IsFull(b)
    ensures Drop(g, x) == Move(Game(b, Toggle(g.currPlayer), false), Continued)
  {
    DropWritesSpot(g, x);
    var m := Drop(g, x);
    assert m.outcome != Won && m.outcome != Tied;
  }

  /** A drop into a column whose spot is row y, after which the mover has four
      in a row, wins: the game ends with the same player to move. */
  lemma DropWins(g: Game, x: int, y: nat, b: Grid)
    requires Shaped(g.board) && !g.isOver && FindSpot(g.board, x) == Some(y)
    requires b == SetCell(g.board, y, x, Piece(g.currPlayer))
    requires HasFour(b, g.currPlayer)
    ensures Drop(g, x) == Move(Game(b, g.currPlayer, true), Won)
  {
    DropWritesSpot(g, x);
  }

  /** The invariants the board keeps: its shape, its cell values, the current
      player, and gravity in every column. */
  ghost predicate WellFormed(g: Game) {
    && Shaped(g.board)
    && CellsValid(g.board)
    && (g.currPlayer == 1 || g.currPlayer == 2)
    && Settled(g.board)
  }

  /** The isOver flag tells the truth: a game over has been won by the player
      to move or fills the board; a game in progress has no four in a row for
      either player and an empty cell left. */
  ghost predicate StatusAgrees(g: Game)
    requires Shaped(g.board)
  {
    && (g.isOver ==> HasFour(g.board, g.currPlayer) || IsFull(g.board))
    && (!g.isOver ==> !HasFour(g.board, 1) && !HasFour(g.board, 2) && !IsFull(g.board))
  }

  ghost predicate Valid(g: Game) {
    WellFormed(g) && StatusAgrees(g)
  }

  lemma EmptyBoardHasNoLine(b: Grid, p: int)
    requires Shaped(b)
    requires forall y, x :: InBounds(y, x) ==> b[y][x] == Empty
    ensures !HasFour(b, p) && !IsFull(b)
  {
    forall y, x, d
      ensures !LineAt(b, p, y, x, d)
    {
      assert !Owns(b, p, y, x);
    }
    assert !Truthy(b[0][0]);
  }

  /** The initial and the restarted state satisfy every invariant. */
  lemma InitialValid()
    ensures Valid(Initial())
  {
    EmptyBoardHasNoLine(Initial().board, 1);
    EmptyBoardHasNoLine(Initial().board, 2);
  }

  /** A game in progress is never stuck: some column accepts a piece. */
  lemma RunningGameHasMove(g: Game)
    requires Valid(g) && !g.isOver
    ensures exists x :: 0 <= x < WIDTH && FindSpot(g.board, x).Some?
  {
    FullIffNoSpot(g.board);
  }

  /** Every drop preserves the invariants. */
  lemma DropPreservesValid(g: Game, x: int)
    requires Valid(g)
    ensures Valid(Drop(g, x).next)
  {
    var m := Drop(g, x);
    if m.outcome.Placed() {
      var y := FindSpot(g.board, x).value;
      DropChangesOneCell(g, x);
      PlacingOnSpotKeepsInvariants(g.board, m.next.board, x, g.currPlayer);
      PlacingKeepsOthersLines(g.board, m.next.board, y, x, g.currPlayer, Toggle(g.currPlayer));
    }
  }

  /** A column outside [0, WIDTH) behaves exactly like a full one: nothing changes. */
  lemma OutOfRangeDropIsNoOp(g: Game, x: int)
    requires Shaped(g.board)
    requires x < 0 || WIDTH <= x
    ensures Drop(g, x).next == g
    ensures !g.isOver ==> Drop(g, x).outcome == NoSpot
  {
    OutOfRangeColumnHasNoSpot(g.board, x);
  }

  /** Where a run of clicks ends, and how many of its drops switched the player. */
  datatype Run = Run(last: Game, switches: nat)

  /** Player p after n switches: `currPlayer = currPlayer === 1 ? 2 : 1` n times. */
  function Turn(p: int, n: nat): int
    decreases n
  {
    if n == 0 then p else Toggle(Turn(p, n - 1))
  }

  /** Switching once and then n times is switching n + 1 times. */
  lemma {:induction false} TurnAfterToggle(p: int, n: nat)
    ensures Turn(Toggle(p), n) == Turn(p, n + 1)
    decreases n
  {
    if n > 0 {
      TurnAfterToggle(p, n - 1);
    }
  }

  /** For players 1 and 2, an even number of switches gives the same player
      and an odd number the other one. */
  lemma {:induction false} TurnParity(p: int, n: nat)
    requires p == 1 || p == 2
    ensures Turn(p, n) == if n % 2 == 0 then p else Toggle(p)
    decreases n
  {
    if n > 0 {
      TurnParity(p, n - 1);
    }
  }

  /** A sequence of clicks on column tops, counting the drops that switch the
      player: those that place a piece without winning. */
  function Play(g: Game, xs: seq<int>): (r: Run)
    requires Shaped(g.board)
    ensures Shaped(r.last.board)
    ensures r.switches <= |xs|
    decreases |xs|
  {
    if |xs| == 0 then Run(g, 0)
    else
      var m := Drop(g, xs[0]);
      var rest := Play(m.next, xs[1..]);
      Run(rest.last, rest.switches + if m.outcome.Switches() then 1 else 0)
  }

  /** A run of clicks is its first drop followed by the run of the others. */
  lemma PlayFirst(g: Game, xs: seq<int>)
    requires Shaped(g.board) && |xs| > 0
    ensures var m := Drop(g, xs[0]);
      var rest := Play(m.next, xs[1..]);
      && Play(g, xs).last == rest.last
      && Play(g, xs).switches == rest.switches + if m.outcome.Switches() then 1 else 0
  {
  }

  /** The player to move after a run of clicks is the starting one switched
      once per drop that placed a piece without winning. */
  lemma {:induction false} PlayTurns(g: Game, xs: seq<int>)
    requires Shaped(g.board)
    ensures Play(g, xs).last.currPlayer == Turn(g.currPlayer, Play(g, xs).switches)
    decreases |xs|
  {
    if |xs| > 0 {
      var m := Drop(g, xs[0]);
      var rest := Play(m.next, xs[1..]);
      PlayFirst(g, xs);
      PlayTurns(m.next, xs[1..]);
      if m.outcome.Switches() {
        TurnAfterToggle(g.currPlayer, rest.switches);
      }
    }
  }

  /** From a fresh game, player 1 is to move after an even number of switching
      drops and player 2 after an odd number. */
  lemma FreshGameAlternates(xs: seq<int>)
    ensures var r := Play(Initial(), xs);
      r.last.currPlayer == if r.switches % 2 == 0 then 1 else 2
  {
    PlayTurns(Initial(), xs);
    TurnParity(1, Play(Initial(), xs).switches);
  }

  /** Won and tied games are terminal: no sequence of drops changes them. */
  lemma {:induction false} PlayAfterEndIsNoOp(g: Game, xs: seq<int>)
    requires Shaped(g.board) && g.isOver
    ensures Play(g, xs) == Run(g, 0)
    decreases |xs|
  {
    if |xs| > 0 {
      PlayAfterEndIsNoOp(Drop(g, xs[0]).next, xs[1..]);
    }
  }

  /** Clicks xs followed by clicks ys end where ys ends when started from
      where xs ended, with the switches of both added up. */
  lemma {:induction false} PlayAppend(g: Game, xs: seq<int>, ys: seq<int>)
    requires Shaped(g.board)
    ensures var r1 := Play(g, xs);
      var r2 := Play(r1.last, ys);
      Play(g, xs + ys) == Run(r2.last, r1.switches + r2.switches)
    decreases |xs|
  {
    if |xs| == 0 {
      assert xs + ys == ys;
    } else {
      FirstOfAppend(xs, ys);
      PlayAppend(Drop(g, xs[0]).next, xs[1..], ys);
    }
  }

  lemma FirstOfAppend<T>(xs: seq<T>, ys: seq<T>)
    requires |xs| > 0
    ensures (xs + ys)[0] == xs[0] && (xs + ys)[1..] == xs[1..] + ys
  {
    assert (xs + ys)[1..] == xs[1..] + ys;
  }

  /** Every state reachable by clicks from a valid state is valid. */
  lemma {:induction false} PlayPreservesValid(g: Game, xs: seq<int>)
    requires Valid(g)
    ensures Valid(Play(g, xs).last)
    decreases |xs|
  {
    if |xs| > 0 {
      DropPreservesValid(g, xs[0]);
      PlayPreservesValid(Drop(g, xs[0]).next, xs[1..]);
    }
  }
}
