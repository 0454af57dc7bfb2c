# N-in-a-row game core, modelled in Dafny

This project models the core of `envs/gomoku.py`, an N-in-a-row (Gomoku family)
game written as a deterministic, turn-based state machine behind a `reset`/`step`
environment interface. The model covers four parts:

- position predicates: `valid` and `available`;
- the win detector: `check_win` and its inner walk `_check_lines`;
- the immutable game state `GomokuState`: `valid_actions`, `done`, `result`, `cur_player`, `act`, `reset` and the board-only `__eq__`;
- the controller `GomokuEnv`: `__init__`, `reset` and `step`.

The model is functional:

- A board is a `seq<seq<int>>`. Each cell holds `EMPTY` (-1) or a player id.
- A state is an immutable datatype that carries the configuration by value. The original keeps a reference back to its environment instead.
- `act` returns `Ok(state)` or `Err(IllegalMove(action, player))`. The original prints the player and raises a bare `ValueError`; carrying the refused action in the error is an addition of the model.
- The lazily cached properties are plain functions.
- The controller appears twice: as pure functions over an `Env` value, and as a thin class `GomokuEnv` that holds the current state.

Files and modules:

| file | module | models |
|---|---|---|
| `board.dfy` | `Board` | `valid`, `available`, the single-cell update, filled-cell counting, numpy's row-major `flatten` and its ascending list of EMPTY indices, action decoding |
| `win.dfy` | `Win` | `_check_lines` and `check_win` as loops, plus the recursive reference `Run` they are proved against |
| `state.dfy` | `Game` | `GomokuState` |
| `reach.dfy` | `Reach` | action sequences replayed from the initial state, and the invariant every reachable state keeps |
| `env.dfy` | `Controller` | `GomokuEnv` |
| `scenarios.dfy` | `Scenarios` | complete games on a 3×3 board (a row win and a full-board draw) |

The model keeps three behaviours of the code that a reader might not expect:

- `step` has no guard against playing after the game is over. It keeps accepting moves on free cells (`Controller.PlaysOnAfterDone`).
- `GomokuEnv.__init__` validates nothing. The model states what the arithmetic needs as preconditions. `Config.Playable` requires a positive board side, because actions are decoded by dividing by it. It also requires at least one player, because `cur_player` takes the turn modulo the player count. Building the initial state only needs a non-negative side.
- `num_player` is not required to be at least 2.

Two facts about the original hold by construction here:

- The original state's board is untouched by `act`, because every state is an immutable value.
- `valid_actions` is stable across accesses, because it is a function of the state.

Dafny's `/` and `%` agree with Python's `//` and `%` for a positive divisor, so the
decoding `(action / n, action % n)` is written as in the source.
`Board.DecodeRange` shows that an action decodes onto the board exactly when
`0 <= action < n²`. Negative actions and actions from `n²` on are therefore refused.

## Model

| member | source | states |
|---|---|---|
| Board.AvailableIffListed | envs/gomoku.py:7-16 | a move may go on (x, y) iff (x, y) lies on the board, its side read off the board, and its row-major index is among the listed EMPTY positions that `valid_actions` reports |
| Board.EmptyBoard | envs/gomoku.py:120 | the fresh board is n×n with every cell EMPTY |
| Board.Place | envs/gomoku.py:99-105 | the updated copy has the same shape, holds the new value at (x, y) and equals the old board everywhere else |
| Board.FilledPlace | envs/gomoku.py:105 | claiming one EMPTY cell raises the number of filled cells by exactly one |
| Board.FilledNone | envs/gomoku.py:110 | a board filled with -1 has no filled cell |
| Board.PlaceKeepsOwners | envs/gomoku.py:105 | writing a player id keeps every cell EMPTY or a player id |
| Board.FilledBound | envs/gomoku.py:80 | at most side² cells are filled, and exactly side² iff no cell is EMPTY |
| Board.FlattenIndex | envs/gomoku.py:69 | in the flattened board, index i holds cell (i / n, i % n) |
| Board.DecodeRange | envs/gomoku.py:100-101 | an action decodes to in-range coordinates iff 0 <= action < n², so negative and too-large actions fall off the board |
| Win.Run | envs/gomoku.py:23-35 | a one-sided run is empty off the board and never longer than the cells left to the edge, hence at most the side |
| Win.RunPrefix | envs/gomoku.py:28-34 | every cell counted by a run is on the board and owned by the player, and the first cell past it is not |
| Win.RunIsMaximalPrefix | envs/gomoku.py:28-34 | the run length is the unique r whose first r ray cells are owned and whose r-th cell is not |
| Win.CheckLines | envs/gomoku.py:23-35 | the walking loop returns the run length minus one |
| Win.ScanAxes | envs/gomoku.py:37-45 | scanning axes in order reports a win iff some axis has forward run + backward run - 1 >= numWin |
| Win.CheckWin | envs/gomoku.py:22-45 | check_win on the original four axes is true iff the win condition holds |
| Win.LineLengthBounds | envs/gomoku.py:41-43 | the line through a stone holds at least that stone and at most the side |
| Win.WinsAlongMore | envs/gomoku.py:40-44 | a win found along some axes is found along any list containing them |
| Win.WinsOrderFree | envs/gomoku.py:37-45 | any listing of the same four axes, in any order, gives the same answer as the original order |
| Win.WinsBelowOne | envs/gomoku.py:43-44 | a threshold of one or less is met by every stone |
| Win.NoWinAboveSide | envs/gomoku.py:40-45 | a threshold above the side is never met |
| Game.CurPlayer | envs/gomoku.py:94-96 | the player to move is a valid player id |
| Game.ActPassesTurn | envs/gomoku.py:94-106 | after a successful move the next player in round-robin order is to move |
| Game.Act | envs/gomoku.py:98-106 | the move succeeds iff the decoded cell is available; on success only that cell changes, to the mover's id, with turn + 1 and last move = action; on failure the error names the action and the player |
| Game.ActInRange | envs/gomoku.py:98-103 | only actions in [0, n²) succeed, and they yield well-formed states |
| Board.EmptyIndices | envs/gomoku.py:69 | the listed indices are strictly ascending and are exactly the positions holding -1 |
| Game.ValidActions | envs/gomoku.py:66-70 | valid_actions is strictly ascending and lists exactly the flattened indices of EMPTY cells |
| Game.ValidActionsAreLegal | envs/gomoku.py:66-103 | an action is in valid_actions iff act succeeds on it |
| Game.Outcome | envs/gomoku.py:72-92 | result is 0 or 1; it is 1 iff the last move won, and then done holds; done with result 0 means turn >= n² |
| Game.Evaluate | envs/gomoku.py:72-86 | the walking computation of done and result agrees with Done and Outcome |
| Game.Reset | envs/gomoku.py:108-111 | reset keeps the board side and config, empties every cell, sets turn 0, no last move, player 0 to move and not done |
| Game.Initial | envs/gomoku.py:115-121 | the first state has an empty board of the configured side, turn 0, no last move, player 0 to move and is not done |
| Game.ThreeMoves | envs/gomoku.py:98-106 | three moves on distinct free cells all succeed, and each of those cells then holds the stone of the player whose turn it was, every other cell unchanged |
| Game.SameBoardCellwise | envs/gomoku.py:62-64 | two states compare equal iff their boards agree cell by cell; the last move and turn count play no part |
| Game.TranspositionsCompareEqual | envs/gomoku.py:62-64 | two move orders that differ in history reach boards that compare equal, although their last moves differ |
| Reach.Play | envs/gomoku.py:98-106 | replaying moves adds one turn per move, keeps the config and ends with the last action as the last move; a failure names one of the actions |
| Reach.InitialConsistent | envs/gomoku.py:120-121 | the initial state satisfies the invariant |
| Reach.ResetIsInitial | envs/gomoku.py:108-111 | reset yields the initial state of the configuration, which satisfies the invariant |
| Reach.ActConsistent | envs/gomoku.py:105-106 | a successful move preserves the invariant: filled cells == turn, cells EMPTY or a player id, last move owned by the previous player |
| Reach.PlayConsistent | envs/gomoku.py:105-106 | every replay from a consistent state stays consistent |
| Reach.ReachableConsistent | envs/gomoku.py:105-121 | every state reachable from construction by successful moves satisfies the invariant |
| Reach.TurnBound | envs/gomoku.py:80 | a reachable state never counts more turns than the board has cells |
| Reach.FullIffNoValidActions | envs/gomoku.py:66-80 | in a reachable state the full-board test turn >= n² holds iff valid_actions is empty |
| Reach.DoneIffWonOrStuck | envs/gomoku.py:72-86 | `done` in a reachable state holds iff the last move won or no valid action remains; a fresh state is never done |
| Controller.Create | envs/gomoku.py:115-121 | the controller keeps the configuration as given and starts from a consistent empty-board state at turn 0 |
| Controller.ResetEnv | envs/gomoku.py:127-129 | reset replaces the current state with a fresh empty-board state, returns it, and that state is the initial one |
| Controller.StepEnv | envs/gomoku.py:131-133 | step succeeds iff act does; on success the new state replaces the old one and is reported with its result, done flag and empty info; on failure the controller is unchanged |
| Controller.GomokuEnv.Init | envs/gomoku.py:115-121 | the mutable controller starts as `Controller.Create` builds it |
| Controller.GomokuEnv.NumPlayer | envs/gomoku.py:123-125 | in a sound controller the player to move and every stone on the board are below `num_player` |
| Controller.GomokuEnv.Reset | envs/gomoku.py:127-129 | the held state is replaced by the fresh state `Controller.ResetEnv` gives, and that state is returned |
| Controller.GomokuEnv.Step | envs/gomoku.py:131-133 | the held state advances as `Controller.StepEnv` says and the report is returned; a refused move leaves the held state as it was |
| Controller.PlaysOnAfterDone | envs/gomoku.py:131-133 | a game that is already done still accepts a move on a free cell |
| Scenarios.RowWin | envs/gomoku.py:72-92 | on a 3×3 board with three to win, filling the top row is done with result 1 |
| Scenarios.DrawBoardNoWin | envs/gomoku.py:37-45 | the full draw board has no line of three through its last stone |
| Scenarios.FullBoardDraw | envs/gomoku.py:72-92 | filling a 3×3 board with no three in a row is done with result 0 |

## Left out

- The numba `@nb.jit` decorators, numpy arrays and the `gym.Env` base class are foreign libraries. Boards are plain sequences.
- The numba signatures type coordinates, cells and `num_win` as 32-bit integers (`i4`), and the board's `dtype` is `i4`. The model uses unbounded integers, so 32-bit wrap-around of decoded actions, of `num_win` and of player ids written into cells is not modelled.
- The `print` before the raised error (envs/gomoku.py:102) is output only. The failure is the `Err` value.
- `__hash__` through `board.tobytes()` (envs/gomoku.py:59-60) has no meaningful model.
- `Game.SameBoardCellwise` states `__eq__` only for two square boards of one side. numpy's comparison of boards of different shapes is not modelled.
- The memo fields `_valid_actions`, `_done` and `_result` are left out. Immutable states make them observationally irrelevant.
- `render` (envs/gomoku.py:135-136) only raises `NotImplementedError`.
- The `num_player=2` default of `GomokuEnv.__init__`: `Controller.Create` takes the player count explicitly.
- `Game.Done` and `Game.Outcome` require a well-formed state: an n×n board and a last move that decodes onto it. The original would index the board at an out-of-range or wrapped position instead. No state built by `act` or `reset` has such a last move.
- Boards are square. Every board the original builds is n×n, and `Board.Square` is required wherever cells are read. `Game.Reset` builds a |b|×|b| board, whereas the original's copy-and-fill keeps whatever shape the board has; the two differ only for a non-square board, which the original never builds.
