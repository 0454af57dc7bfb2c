/** Whole games on a 3×3 board with three in a row to win. */
module Scenarios {
  import opened Board
  import opened Win
  import opened Game
  import opened Reach

  const Small: Config := Config(3, 3, 2)

  /** One successful move from s to the state with board b. */
  lemma Move(s: State, a: int, b: Grid) returns (t: State)
    requires s.config == Small && WellFormed(s)
    requires Available(s.board, a / 3, a % 3) && |b| == 3 && Square(b)
    requires b[a / 3][a % 3] == s.turn % 2
    requires forall i, j :: 0 <= i < 3 && 0 <= j < 3 && (i != a / 3 || j != a % 3) ==> b[i][j] == s.board[i][j]
    ensures Act(s, a) == Ok(t) && t == State(Small, b, Some(a), s.turn + 1) && WellFormed(t)
  {
    t := Act(s, a).value;
    SameCells(t.board, b);
    ActInRange(s, a);
  }

  /** Replaying a list whose first move succeeds is replaying the rest from the resulting state. */
  lemma PlayFirst(s: State, actions: seq<int>, t: State)
    requires s.config.Playable() && Square(s.board)
    requires |actions| > 0 && Act(s, actions[0]) == Ok(t)
    ensures Play(s, actions) == Play(t, actions[1..])
  {
  }

  const RowWinBoard: Grid := [[0, 0, 0], [1, 1, -1], [-1, -1, -1]]
  const DrawBoard: Grid := [[0, 1, 0], [0, 1, 1], [1, 0, 0]]

  /** Player 0 fills the top row while player 1 plays the middle row. */
  lemma RowWinPlay()
    ensures Play(Initial(Small), [0, 3, 1, 4, 2]) == Ok(State(Small, RowWinBoard, Some(2), 5))
  {
    var s0 := Initial(Small);
    SameCells(s0.board, [[-1, -1, -1], [-1, -1, -1], [-1, -1, -1]]);
    var s1 := Move(s0, 0, [[0, -1, -1], [-1, -1, -1], [-1, -1, -1]]);
    var s2 := Move(s1, 3, [[0, -1, -1], [1, -1, -1], [-1, -1, -1]]);
    var s3 := Move(s2, 1, [[0, 0, -1], [1, -1, -1], [-1, -1, -1]]);
    var s4 := Move(s3, 4, [[0, 0, -1], [1, 1, -1], [-1, -1, -1]]);
    var s5 := Move(s4, 2, RowWinBoard);
    PlayFirst(s4, [2], s5);
    assert [2][1..] == [];
    PlayFirst(s3, [4, 2], s4);
    assert [4, 2][1..] == [2];
    PlayFirst(s2, [1, 4, 2], s3);
    assert [1, 4, 2][1..] == [4, 2];
    PlayFirst(s1, [3, 1, 4, 2], s2);
    assert [3, 1, 4, 2][1..] == [1, 4, 2];
    PlayFirst(s0, [0, 3, 1, 4, 2], s1);
    assert [0, 3, 1, 4, 2][1..] == [3, 1, 4, 2];
  }

  /** One step of Run: the cell at (x, y) counts when it is on the board and owned by p. */
  lemma RunUnfold(b: Grid, x: int, y: int, d: Dir, p: int)
    requires Square(b) && d.Unit()
    ensures Run(b, x, y, d, p) == if Valid(b, x, y) && b[x][y] == p then 1 + Run(b, x + d.dx, y + d.dy, d, p) else 0
  {
  }

  /** On a 3×3 board whose top row belongs to player 0, the stone at (0, 2) ends a line of three. */
  lemma TopRowWins(b: Grid)
    requires Square(b) && |b| == 3 && b[0][0] == 0 && b[0][1] == 0 && b[0][2] == 0
    ensures Wins(b, 0, 2, 3)
  {
    var d := Axes[1];
    RunUnfold(b, 0, 2, d, 0);
    RunUnfold(b, 0, 3, d, 0);
    RunUnfold(b, 0, 2, d.Neg(), 0);
    RunUnfold(b, 0, 1, d.Neg(), 0);
    RunUnfold(b, 0, 0, d.Neg(), 0);
    RunUnfold(b, 0, -1, d.Neg(), 0);
    assert LineLength(b, 0, 2, Axes[1]) == 3;
  }

  /** The fifth move completes the top row: the game is done and won. */
  lemma RowWin()
    ensures Play(Initial(Small), [0, 3, 1, 4, 2]).Ok?
    ensures var s := Play(Initial(Small), [0, 3, 1, 4, 2]).value; Done(s) && Outcome(s) == 1
  {
    RowWinPlay();
    var s := State(Small, RowWinBoard, Some(2), 5);
    assert WellFormed(s);
    TopRowWins(RowWinBoard);
  }

  const DrawMiddle: Grid := [[0, 1, 0], [-1, 1, -1], [-1, -1, -1]]

  /** The first four moves of the draw lead to the middle position. */
  lemma DrawOpening()
    ensures Play(Initial(Small), [0, 1, 2, 4, 3, 5, 7, 6, 8]) == Play(State(Small, DrawMiddle, Some(4), 4), [3, 5, 7, 6, 8])
  {
    var s0 := Initial(Small);
    SameCells(s0.board, [[-1, -1, -1], [-1, -1, -1], [-1, -1, -1]]);
    var s1 := Move(s0, 0, [[0, -1, -1], [-1, -1, -1], [-1, -1, -1]]);
    var s2 := Move(s1, 1, [[0, 1, -1], [-1, -1, -1], [-1, -1, -1]]);
    var s3 := Move(s2, 2, [[0, 1, 0], [-1, -1, -1], [-1, -1, -1]]);
    var s4 := Move(s3, 4, DrawMiddle);
    PlayFirst(s3, [4, 3, 5, 7, 6, 8], s4);
    assert [4, 3, 5, 7, 6, 8][1..] == [3, 5, 7, 6, 8];
    PlayFirst(s2, [2, 4, 3, 5, 7, 6, 8], s3);
    assert [2, 4, 3, 5, 7, 6, 8][1..] == [4, 3, 5, 7, 6, 8];
    PlayFirst(s1, [1, 2, 4, 3, 5, 7, 6, 8], s2);
    assert [1, 2, 4, 3, 5, 7, 6, 8][1..] == [2, 4, 3, 5, 7, 6, 8];
    PlayFirst(s0, [0, 1, 2, 4, 3, 5, 7, 6, 8], s1);
    assert [0, 1, 2, 4, 3, 5, 7, 6, 8][1..] == [1, 2, 4, 3, 5, 7, 6, 8];
  }

  const DrawLate: Grid := [[0, 1, 0], [0, 1, 1], [-1, -1, -1]]

  /** Moves five and six of the draw complete the middle row. */
  lemma DrawMiddleGame()
    ensures Play(State(Small, DrawMiddle, Some(4), 4), [3, 5, 7, 6, 8]) == Play(State(Small, DrawLate, Some(5), 6), [7, 6, 8])
  {
    var s4 := State(Small, DrawMiddle, Some(4), 4);
    assert WellFormed(s4);
    var s5 := Move(s4, 3, [[0, 1, 0], [0, 1, -1], [-1, -1, -1]]);
    var s6 := Move(s5, 5, DrawLate);
    PlayFirst(s5, [5, 7, 6, 8], s6);
    assert [5, 7, 6, 8][1..] == [7, 6, 8];
    PlayFirst(s4, [3, 5, 7, 6, 8], s5);
    assert [3, 5, 7, 6, 8][1..] == [5, 7, 6, 8];
  }

  /** The last three moves of the draw fill the board. */
  lemma DrawEnding()
    ensures Play(State(Small, DrawLate, Some(5), 6), [7, 6, 8]) == Ok(State(Small, DrawBoard, Some(8), 9))
  {
    var s6 := State(Small, DrawLate, Some(5), 6);
    assert WellFormed(s6);
    var s7 := Move(s6, 7, [[0, 1, 0], [0, 1, 1], [-1, 0, -1]]);
    var s8 := Move(s7, 6, [[0, 1, 0], [0, 1, 1], [1, 0, -1]]);
    var s9 := Move(s8, 8, DrawBoard);
    PlayFirst(s8, [8], s9);
    assert [8][1..] == [];
    PlayFirst(s7, [6, 8], s8);
    assert [6, 8][1..] == [8];
    PlayFirst(s6, [7, 6, 8], s7);
    assert [7, 6, 8][1..] == [6, 8];
  }

  /** Nine moves fill the board. */
  lemma DrawPlay()
    ensures Play(Initial(Small), [0, 1, 2, 4, 3, 5, 7, 6, 8]) == Ok(State(Small, DrawBoard, Some(8), 9))
  {
    DrawOpening();
    DrawMiddleGame();
    DrawEnding();
  }

  /** The column through the corner (2, 2) stops at (1, 2) when that cell is not player 0's. */
  lemma CornerColumn(b: Grid)
    requires Square(b) && |b| == 3 && b[2][2] == 0 && b[1][2] != 0
    ensures LineLength(b, 2, 2, Axes[0]) == 1
  {
    var d := Axes[0];
    RunUnfold(b, 2, 2, d, 0);
    RunUnfold(b, 3, 2, d, 0);
    RunUnfold(b, 2, 2, d.Neg(), 0);
    RunUnfold(b, 1, 2, d.Neg(), 0);
  }

  /** The row through the corner (2, 2) holds two stones when (2, 1) is player 0's and (2, 0) is not. */
  lemma CornerRow(b: Grid)
    requires Square(b) && |b| == 3 && b[2][2] == 0 && b[2][1] == 0 && b[2][0] != 0
    ensures LineLength(b, 2, 2, Axes[1]) == 2
  {
    var d := Axes[1];
    RunUnfold(b, 2, 2, d, 0);
    RunUnfold(b, 2, 3, d, 0);
    RunUnfold(b, 2, 2, d.Neg(), 0);
    RunUnfold(b, 2, 1, d.Neg(), 0);
    RunUnfold(b, 2, 0, d.Neg(), 0);
  }

  /** The diagonal through the corner (2, 2) stops at (1, 1) when that cell is not player 0's. */
  lemma CornerDiagonal(b: Grid)
    requires Square(b) && |b| == 3 && b[2][2] == 0 && b[1][1] != 0
    ensures LineLength(b, 2, 2, Axes[2]) == 1
  {
    var d := Axes[2];
    RunUnfold(b, 2, 2, d, 0);
    RunUnfold(b, 3, 3, d, 0);
    RunUnfold(b, 2, 2, d.Neg(), 0);
    RunUnfold(b, 1, 1, d.Neg(), 0);
  }

  /** The anti-diagonal through the corner (2, 2) leaves the board at once in both senses. */
  lemma CornerAntiDiagonal(b: Grid)
    requires Square(b) && |b| == 3 && b[2][2] == 0
    ensures LineLength(b, 2, 2, Axes[3]) == 1
  {
    var d := Axes[3];
    RunUnfold(b, 2, 2, d, 0);
    RunUnfold(b, 3, 1, d, 0);
    RunUnfold(b, 2, 2, d.Neg(), 0);
    RunUnfold(b, 1, 3, d.Neg(), 0);
  }

  /** A 3×3 board whose corner stone (2, 2) has these neighbours holds no line of three through it. */
  lemma CornerNoWin(b: Grid)
    requires Square(b) && |b| == 3
    requires b[2][2] == 0 && b[1][2] != 0 && b[2][1] == 0 && b[2][0] != 0 && b[1][1] != 0
    ensures !Wins(b, 2, 2, 3)
  {
    CornerColumn(b);
    CornerRow(b);
    CornerDiagonal(b);
    CornerAntiDiagonal(b);
    forall i | 0 <= i < |Axes|
      ensures LineLength(b, 2, 2, Axes[i]) < 3
    {
      assert i == 0 || i == 1 || i == 2 || i == 3;
    }
  }

  /** No line of three passes through the last stone of the full draw board. */
  lemma DrawBoardNoWin()
    ensures Square(DrawBoard) && !Wins(DrawBoard, 2, 2, 3)
  {
    var b := DrawBoard;
    assert Square(b) && |b| == 3;
    assert b[2][2] == 0 && b[1][2] != 0 && b[2][1] == 0 && b[2][0] != 0 && b[1][1] != 0;
    CornerNoWin(b);
  }

  /** The full board has no three in a row through the last move: done, result 0. */
  lemma FullBoardDraw()
    ensures Play(Initial(Small), [0, 1, 2, 4, 3, 5, 7, 6, 8]).Ok?
    ensures var s := Play(Initial(Small), [0, 1, 2, 4, 3, 5, 7, 6, 8]).value; Done(s) && Outcome(s) == 0
  {
    DrawPlay();
    DrawBoardNoWin();
    var s := State(Small, DrawBoard, Some(8), 9);
    assert WellFormed(s);
    assert !LastMoveWins(s);
  }
}
