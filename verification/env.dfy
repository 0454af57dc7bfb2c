/** The environment controller `GomokuEnv`: a configuration and the current state,
    with `reset` and `step`. `Controller` is the pure form; `GomokuEnv` is the thin
    mutable wrapper holding the current-state reference. */
module Controller {
  import opened Board
  import opened Win
  import opened Game
  import opened Reach

  /** The controller's data: the configuration it was built with and its current state. */
  datatype Env = Env(config: Config, state: State)

  /** What `step` hands back: the new state, its result, its done flag and an empty info record. */
  datatype StepReport = StepReport(state: State, result: int, done: bool, info: map<string, int>)

  /** The controller keeps the state of its own configuration, and that state is consistent. */
  predicate Sound(e: Env) {
    e.state.config == e.config && Consistent(e.state)
  }

  /** `__init__`: store the configuration unchecked and start from an empty board. */
  function Create(boardSize: int, numWin: int, numPlayer: int): (e: Env)
    requires boardSize >= 0
    ensures e.config == Config(boardSize, numWin, numPlayer)
    ensures e.state.turn == 0 && e.state.lastMove.None? && |e.state.board| == boardSize && Square(e.state.board)
    ensures forall i, j :: 0 <= i < boardSize && 0 <= j < boardSize ==> e.state.board[i][j] == EMPTY
    ensures e.config.Playable() ==> Sound(e)
  {
    var config := Config(boardSize, numWin, numPlayer);
    InitialConsistent(config);
    Env(config, Initial(config))
  }

  /** `reset`: the current state is replaced by an empty-board state at turn 0, which is returned. */
  function ResetEnv(e: Env): (r: (Env, State))
    ensures r.0.config == e.config && r.0.state == r.1
    ensures r.1.turn == 0 && r.1.lastMove.None? && |r.1.board| == |e.state.board| && Square(r.1.board)
    ensures forall i, j :: 0 <= i < |r.1.board| && 0 <= j < |r.1.board| ==> r.1.board[i][j] == EMPTY
    ensures Sound(e) ==> Sound(r.0) && !Done(r.1) && CurPlayer(r.1) == 0 && r.1 == Initial(e.config)
  {
    var s := Reset(e.state);
    ResetIsInitial(e.state);
    (Env(e.config, s), s)
  }

  /** `step`: play the action on the current state. On success the new state replaces the
      current one and is reported with its result and done flag; a refused move leaves the
      controller as it was. There is no check that the game is already over. */
  function StepEnv(e: Env, action: int): (r: Result<(Env, StepReport)>)
    requires Sound(e)
    ensures r.Ok? <==> Act(e.state, action).Ok?
    ensures r.Err? ==> r.error == IllegalMove(action, CurPlayer(e.state))
    ensures r.Ok? ==>
      var (e', report) := r.value;
      e'.config == e.config && Successor(e.state, action, e'.state) && Sound(e') &&
      report.state == e'.state && report.done == Done(e'.state) && report.result == Outcome(e'.state) &&
      (report.result == 1 ==> report.done) && report.info == map[]
  {
    match Act(e.state, action)
    case Err(err) => Err(err)
    case Ok(s) =>
      ActConsistent(e.state, action);
      var e' := Env(e.config, s);
      Ok((e', StepReport(s, Outcome(s), Done(s), map[])))
  }

  /** The controller keeps accepting moves after the game is over: a 2×2 board where one stone
      in a row wins is done after the first move, and a second move is still played. */
  lemma PlaysOnAfterDone()
    ensures var e := Create(2, 1, 2);
      StepEnv(e, 0).Ok? && StepEnv(e, 0).value.1.done &&
      StepEnv(StepEnv(e, 0).value.0, 1).Ok?
  {
    var e := Create(2, 1, 2);
    var e1 := StepEnv(e, 0).value.0;
    var s := e1.state;
    WinsBelowOne(s.board, 0, 0, 1);
    assert s.board[0][1] == EMPTY;
  }

  /** The mutable controller of the original: it owns the current-state reference. */
  class GomokuEnv {
    var env: Env

    /** `__init__`: the controller starts as `Create` builds it. */
    constructor Init(boardSize: int, numWin: int, numPlayer: int)
      requires boardSize >= 0
      ensures env == Create(boardSize, numWin, numPlayer)
    {
      env := Create(boardSize, numWin, numPlayer);
    }

    /** The `num_player` property: the bound every player id on the board stays below. */
    function NumPlayer(): (n: int)
      reads this
      ensures Sound(env) ==> 0 <= CurPlayer(env.state) < n
      ensures Sound(env) ==> CellsOwnedBy(env.state.board, n)
    {
      env.config.numPlayer
    }

    /** `reset`: the current state becomes a fresh one, which is returned. */
    method Reset() returns (s: State)
      modifies this
      ensures (env, s) == ResetEnv(old(env))
    {
      var r := ResetEnv(env);
      env := r.0;
      s := r.1;
    }

    /** `step`: the current state advances by the action, or stays as it was when the move is refused. */
    method Step(action: int) returns (r: Result<StepReport>)
      requires Sound(env)
      modifies this
      ensures StepEnv(old(env), action).Ok? ==> r == Ok(StepEnv(old(env), action).value.1) && env == StepEnv(old(env), action).value.0
      ensures StepEnv(old(env), action).Err? ==> r == Err(StepEnv(old(env), action).error) && env == old(env)
    {
      match StepEnv(env, action)
      case Err(err) =>
        r := Err(err);
      case Ok(pair) =>
        env := pair.0;
        r := Ok(pair.1);
    }
  }
}
