/** The states a game can reach: from the initial (or a reset) state by a sequence of
    successful moves. Every such state keeps the board consistent with its turn count. */
module Reach {
  import opened Board
  import opened Win
  import opened Game

  /** The bookkeeping invariant of a reachable state: exactly `turn` cells are filled, every
      cell is EMPTY or a player id, a last move exists from turn 1 on, and its cell holds the
      stone of the player who moved at turn - 1. */
  predicate Consistent(s: State) {
    WellFormed(s) &&
    Filled(s.board) == s.turn &&
    CellsOwnedBy(s.board, s.config.numPlayer) &&
    (s.lastMove.None? <==> s.turn == 0) &&
    (s.lastMove.Some? ==>
       s.board[s.lastMove.value / s.config.boardSize][s.lastMove.value % s.config.boardSize]
         == (s.turn - 1) % s.config.numPlayer)
  }

  /** Play the actions one after another from s, stopping at the first refused one. */
  function Play(s: State, actions: seq<int>): (r: Result<State>)
    requires s.config.Playable() && Square(s.board)
    ensures r.Ok? ==> r.value.config == s.config && r.value.turn == s.turn + |actions|
    ensures r.Ok? && |actions| > 0 ==> r.value.lastMove == Some(actions[|actions| - 1])
    ensures r.Ok? && |actions| == 0 ==> r.value == s
    ensures r.Ok? ==> Square(r.value.board) && |r.value.board| == |s.board|
    ensures r.Err? ==> r.error.action in actions
    decreases |actions|
  {
    if |actions| == 0 then Ok(s)
    else
      match Act(s, actions[0])
      case Err(e) => Err(e)
      case Ok(t) =>
        var r := Play(t, actions[1..]);
        assert r.Err? ==> r.error.action in actions by {
          if r.Err? {
            var i :| 0 <= i < |actions[1..]| && actions[1..][i] == r.error.action;
            assert actions[i + 1] == r.error.action;
          }
        }
        r
  }

  /** s is reached from the initial state of `config` by some sequence of successful moves. */
  ghost predicate Reachable(config: Config, s: State)
    requires config.Playable()
  {
    exists actions :: Play(Initial(config), actions) == Ok(s)
  }

  /** The initial state is consistent. */
  lemma InitialConsistent(config: Config)
    requires config.boardSize >= 0
    ensures config.Playable() ==> Consistent(Initial(config))
  {
    FilledNone(Initial(config).board);
  }

  /** Resetting a well-formed state gives back the initial state of its configuration. */
  lemma ResetIsInitial(s: State)
    ensures WellFormed(s) ==> Reset(s) == Initial(s.config) && Consistent(Reset(s))
  {
    if WellFormed(s) {
      InitialConsistent(s.config);
    }
  }

  /** A successful move keeps a state consistent: one more filled cell, one more turn. */
  lemma ActConsistent(s: State, action: int)
    requires Consistent(s) && Act(s, action).Ok?
    ensures Consistent(Act(s, action).value)
  {
    var n := s.config.boardSize;
    var x, y := action / n, action % n;
    var t := Act(s, action).value;
    ActInRange(s, action);
    assert t.board == Place(s.board, x, y, CurPlayer(s));
    FilledPlace(s.board, x, y, CurPlayer(s));
    PlaceKeepsOwners(s.board, x, y, CurPlayer(s), s.config.numPlayer);
  }

  /** Every state played out from a consistent one is consistent. */
  lemma {:induction false} PlayConsistent(s: State, actions: seq<int>)
    requires Consistent(s)
    ensures Play(s, actions).Ok? ==> Consistent(Play(s, actions).value)
    decreases |actions|
  {
    if |actions| > 0 && Act(s, actions[0]).Ok? {
      ActConsistent(s, actions[0]);
      PlayConsistent(Act(s, actions[0]).value, actions[1..]);
    }
  }

  /** Every reachable state is consistent: its filled-cell count is its turn and its cells hold
      EMPTY or a player id. */
  lemma ReachableConsistent(config: Config, s: State)
    requires config.Playable() && Reachable(config, s)
    ensures Consistent(s)
  {
    var actions :| Play(Initial(config), actions) == Ok(s);
    InitialConsistent(config);
    PlayConsistent(Initial(config), actions);
  }

  /** A consistent state never counts more turns than the board has cells. */
  lemma TurnBound(s: State)
    requires Consistent(s)
    ensures s.turn <= s.config.boardSize * s.config.boardSize
  {
    FilledBound(s.board, s.config.boardSize);
  }

  /** In a consistent state the turn count reaches n² exactly when no move is left. */
  lemma FullIffNoValidActions(s: State)
    requires Consistent(s)
    ensures s.turn >= s.config.boardSize * s.config.boardSize <==> ValidActions(s) == []
  {
    var n := s.config.boardSize;
    FilledBound(s.board, n);
    FlattenLength(s.board, n);
    if ValidActions(s) == [] {
      forall i, j | 0 <= i < n && 0 <= j < n
        ensures s.board[i][j] != EMPTY
      {
        var k := n * i + j;
        DivUnique(n, i, j);
        DecodeRange(k, n);
        FlattenIndex(s.board, n, k);
        assert k !in ValidActions(s);
      }
      assert Full(s.board);
    } else {
      var k := ValidActions(s)[0];
      assert k in ValidActions(s);
      FlattenIndex(s.board, n, k);
      assert !Full(s.board);
    }
  }

  /** A consistent game is over exactly when the last move won or no move is left; this is
      why a reported result of 0 with `done` set means a drawn, full board. */
  lemma DoneIffWonOrStuck(s: State)
    requires Consistent(s)
    ensures Done(s) <==> LastMoveWins(s) || ValidActions(s) == []
  {
    FullIffNoValidActions(s);
    if s.lastMove.None? {
      assert s.turn == 0;
      assert s.config.boardSize * s.config.boardSize >= 1 by {
        MulAtLeast(s.config.boardSize, s.config.boardSize);
      }
    }
  }
}
