/** The immutable game state of `GomokuState`: a board, the last move and the turn
    count, with the configuration carried by value. Everything the original caches
    lazily (`valid_actions`, `done`, `result`) is a plain function of the state. */
module Game {
  import opened Board
  import opened Win

  datatype Option<T> = None | Some(value: T)

  /** The environment's configuration: board side, stones in a row needed to win, number of players. */
  datatype Config = Config(boardSize: int, numWin: int, numPlayer: int) {
    /** What the arithmetic of a move needs: a side to decode actions by and at least one player to take turns. */
    predicate Playable() {
      boardSize > 0 && numPlayer > 0
    }
  }

  /** The failure of `act`: the action that was refused and the player who attempted it. */
  datatype IllegalMove = IllegalMove(action: int, player: int)

  datatype Result<T> = Ok(value: T) | Err(error: IllegalMove)

  /** `lastMove` is the flattened index of the move that produced the state, None for a fresh board. */
  datatype State = State(config: Config, board: Grid, lastMove: Option<int>, turn: nat)

  /** Shape facts of every state the controller builds: an n×n board and a last move that decodes onto it. */
  predicate WellFormed(s: State) {
    s.config.Playable() && Square(s.board) && |s.board| == s.config.boardSize &&
    (s.lastMove.Some? ==> Valid(s.board, s.lastMove.value / s.config.boardSize, s.lastMove.value % s.config.boardSize))
  }

  /** The player to move; players take turns round-robin whatever happened on the board. */
  function CurPlayer(s: State): (p: int)
    requires s.config.numPlayer > 0
    ensures 0 <= p < s.config.numPlayer
  {
    s.turn % s.config.numPlayer
  }

  /** t is s after the player to move claimed the cell the action decodes to, and nothing else changed. */
  predicate Successor(s: State, action: int, t: State)
    requires s.config.Playable() && Square(s.board)
  {
    var n := s.config.boardSize;
    var x, y := action / n, action % n;
    t.config == s.config && t.turn == s.turn + 1 && t.lastMove == Some(action) &&
    Square(t.board) && |t.board| == |s.board| &&
    Valid(s.board, x, y) && s.board[x][y] == EMPTY && t.board[x][y] == CurPlayer(s) &&
    forall i, j :: 0 <= i < |s.board| && 0 <= j < |s.board| && (i != x || j != y) ==> t.board[i][j] == s.board[i][j]
  }

  /** `act`: decode the action row-major and claim that cell for the player to move,
      or refuse the move when the cell is off the board or taken. */
  function Act(s: State, action: int): (r: Result<State>)
    requires s.config.Playable() && Square(s.board)
    ensures r.Ok? <==> Available(s.board, action / s.config.boardSize, action % s.config.boardSize)
    ensures r.Ok? ==> Successor(s, action, r.value)
    ensures r.Err? ==> r.error == IllegalMove(action, CurPlayer(s))
  {
    var n := s.config.boardSize;
    var x, y := action / n, action % n;
    if !Available(s.board, x, y) then
      Err(IllegalMove(action, CurPlayer(s)))
    else
      Ok(State(s.config, Place(s.board, x, y, CurPlayer(s)), Some(action), s.turn + 1))
  }

  /** On a well-formed state a move succeeds only for an index in [0, n²); negative indices
      and indices from n² on are refused. */
  lemma ActInRange(s: State, action: int)
    requires WellFormed(s)
    ensures Act(s, action).Ok? ==> 0 <= action < s.config.boardSize * s.config.boardSize
    ensures Act(s, action).Ok? ==> WellFormed(Act(s, action).value)
  {
    DecodeRange(action, s.config.boardSize);
  }

  /** After a successful move the next player in the round-robin order is to move. */
  lemma ActPassesTurn(s: State, action: int)
    requires s.config.Playable() && Square(s.board) && Act(s, action).Ok?
    ensures CurPlayer(Act(s, action).value) == (CurPlayer(s) + 1) % s.config.numPlayer
  {
    assert Act(s, action).value.turn == s.turn + 1;
    ModSucc(s.turn, s.config.numPlayer);
  }

  lemma ModSucc(t: int, np: int)
    requires np > 0
    ensures (t + 1) % np == (t % np + 1) % np
  {
    var q, m := t / np, t % np;
    if m + 1 < np {
      assert t + 1 == np * q + (m + 1);
      DivUnique(np, q, m + 1);
      DivUnique(np, 0, m + 1);
    } else {
      assert t + 1 == np * (q + 1) + 0;
      DivUnique(np, q + 1, 0);
      DivUnique(np, 1, 0);
    }
  }

  /** `valid_actions`: the flattened indices of the EMPTY cells, ascending. */
  function ValidActions(s: State): (r: seq<int>)
    ensures forall i, j :: 0 <= i < j < |r| ==> r[i] < r[j]
    ensures forall i :: i in r <==> 0 <= i < |Flatten(s.board)| && Flatten(s.board)[i] == EMPTY
  {
    EmptyIndices(Flatten(s.board), 0)
  }

  /** An action is listed as valid exactly when playing it succeeds. */
  lemma ValidActionsAreLegal(s: State, action: int)
    requires WellFormed(s)
    ensures action in ValidActions(s) <==> Act(s, action).Ok?
  {
    var n := s.config.boardSize;
    FlattenLength(s.board, n);
    DecodeRange(action, n);
    if 0 <= action < n * n {
      FlattenIndex(s.board, n, action);
    }
  }

  /** The most recent move completed a line of `numWin` stones. */
  predicate LastMoveWins(s: State)
    requires WellFormed(s)
  {
    match s.lastMove
    case None => false
    case Some(m) => Wins(s.board, m / s.config.boardSize, m % s.config.boardSize, s.config.numWin)
  }

  /** `done`: the game is over when the board is full by turn count or the last move won. */
  function Done(s: State): (d: bool)
    requires WellFormed(s)
    ensures s.lastMove.None? ==> !d
    ensures s.lastMove.Some? && s.turn >= s.config.boardSize * s.config.boardSize ==> d
    ensures LastMoveWins(s) ==> d
    ensures d && !LastMoveWins(s) ==> s.turn >= s.config.boardSize * s.config.boardSize
  {
    match s.lastMove
    case None => false
    case Some(m) => s.turn >= s.config.boardSize * s.config.boardSize || LastMoveWins(s)
  }

  /** `result`: 1 for a game won by the last move, 0 otherwise (a draw or a game still going). */
  function Outcome(s: State): (r: int)
    requires WellFormed(s)
    ensures r == 0 || r == 1
    ensures r == 1 <==> LastMoveWins(s)
    ensures r == 1 ==> Done(s)
    ensures Done(s) && r == 0 ==> s.turn >= s.config.boardSize * s.config.boardSize
  {
    if LastMoveWins(s) then 1 else 0
  }

  /** The `done` property as the original computes it, with the walking win check. */
  method Evaluate(s: State) returns (done: bool, result: int)
    requires WellFormed(s)
    ensures done == Done(s) && result == Outcome(s)
  {
    match s.lastMove
    case None =>
      done, result := false, 0;
    case Some(m) =>
      var n := s.config.boardSize;
      var full := s.turn >= n * n;
      var win := CheckWin(s.board, (m / n, m % n), s.config.numWin);
      done := full || win;
      result := if win then 1 else 0;
  }

  /** `reset`: a board of the same side with every cell EMPTY, at turn 0 with no last move. */
  function Reset(s: State): (r: State)
    ensures r.config == s.config && r.turn == 0 && r.lastMove.None?
    ensures |r.board| == |s.board| && Square(r.board)
    ensures forall i, j :: 0 <= i < |r.board| && 0 <= j < |r.board| ==> r.board[i][j] == EMPTY
    ensures WellFormed(s) ==> WellFormed(r) && !Done(r) && Outcome(r) == 0 && CurPlayer(r) == 0
  {
    State(s.config, EmptyBoard(|s.board|), None, 0)
  }

  /** The state the environment starts in: an empty board of the configured side. */
  function Initial(config: Config): (r: State)
    requires config.boardSize >= 0
    ensures r.config == config && r.turn == 0 && r.lastMove.None?
    ensures |r.board| == config.boardSize && Square(r.board)
    ensures forall i, j :: 0 <= i < |r.board| && 0 <= j < |r.board| ==> r.board[i][j] == EMPTY
    ensures config.Playable() ==> WellFormed(r) && !Done(r) && Outcome(r) == 0 && CurPlayer(r) == 0
  {
    State(config, EmptyBoard(config.boardSize), None, 0)
  }

  /** `__eq__`: two states compare equal when their boards do, whatever their histories. */
  predicate SameBoard(s: State, t: State) {
    s.board == t.board
  }

  /** Board equality is the cell-by-cell comparison of two boards of one side; the last move,
      the turn count and the configuration play no part in it. */
  lemma SameBoardCellwise(s: State, t: State)
    requires Square(s.board) && Square(t.board) && |s.board| == |t.board|
    ensures SameBoard(s, t) <==> forall i, j :: 0 <= i < |s.board| && 0 <= j < |s.board| ==> s.board[i][j] == t.board[i][j]
    ensures SameBoard(s, t) <==> SameBoard(s.(lastMove := None, turn := 0), t)
  {
    if forall i, j :: 0 <= i < |s.board| && 0 <= j < |s.board| ==> s.board[i][j] == t.board[i][j] {
      SameCells(s.board, t.board);
    }
  }

  /** The board after three moves on distinct free cells: each cell holds the stone of the
      player who moved there, every other cell is as before. */
  lemma ThreeMoves(s: State, a: int, b: int, c: int) returns (t: State)
    requires WellFormed(s)
    requires var n := s.config.boardSize;
      Available(s.board, a / n, a % n) && Available(s.board, b / n, b % n) && Available(s.board, c / n, c % n) &&
      (a / n, a % n) != (b / n, b % n) && (b / n, b % n) != (c / n, c % n) && (a / n, a % n) != (c / n, c % n)
    ensures Act(s, a).Ok? && Act(Act(s, a).value, b).Ok? && Act(Act(Act(s, a).value, b).value, c).Ok?
    ensures t == Act(Act(Act(s, a).value, b).value, c).value
    ensures t.lastMove == Some(c) && Square(t.board) && |t.board| == |s.board|
    ensures var n, np := s.config.boardSize, s.config.numPlayer;
      forall i, j :: 0 <= i < n && 0 <= j < n ==>
        t.board[i][j] == if (i, j) == (a / n, a % n) then s.turn % np
                         else if (i, j) == (b / n, b % n) then (s.turn + 1) % np
                         else if (i, j) == (c / n, c % n) then (s.turn + 2) % np
                         else s.board[i][j]
  {
    var sa := Act(s, a).value;
    ActInRange(s, a);
    var sab := Act(sa, b).value;
    ActInRange(sa, b);
    t := Act(sab, c).value;
  }

  /** Two players, and a stone of each player's placed in the other order, reach boards that
      compare equal although the last moves differ: board equality merges histories. */
  lemma TranspositionsCompareEqual(s: State, a: int, b: int, c: int)
    requires WellFormed(s) && s.config.numPlayer == 2
    requires Act(s, a).Ok? && Act(s, c).Ok?
    requires var n := s.config.boardSize;
      Available(s.board, b / n, b % n) &&
      (a / n, a % n) != (b / n, b % n) && (b / n, b % n) != (c / n, c % n) && (a / n, a % n) != (c / n, c % n)
    ensures Act(Act(s, a).value, b).Ok? && Act(Act(Act(s, a).value, b).value, c).Ok?
    ensures Act(Act(s, c).value, b).Ok? && Act(Act(Act(s, c).value, b).value, a).Ok?
    ensures SameBoard(Act(Act(Act(s, a).value, b).value, c).value, Act(Act(Act(s, c).value, b).value, a).value)
    ensures Act(Act(Act(s, a).value, b).value, c).value.lastMove != Act(Act(Act(s, c).value, b).value, a).value.lastMove
  {
    var n := s.config.boardSize;
    var t := ThreeMoves(s, a, b, c);
    var u := ThreeMoves(s, c, b, a);
    TwoTurnsLater(s.turn);
    forall i, j | 0 <= i < n && 0 <= j < n
      ensures t.board[i][j] == u.board[i][j]
    {
    }
    SameCells(t.board, u.board);
  }

  /** With two players, the player two turns on is the player to move now. */
  lemma TwoTurnsLater(turn: int)
    ensures (turn + 2) % 2 == turn % 2
  {
    DivUnique(2, turn / 2 + 1, turn % 2);
  }
}
