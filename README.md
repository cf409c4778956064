# Tic-tac-toe against a predicted opponent — a Dafny model

This project models the game logic of a small tic-tac-toe web app (`app.py`): a human plays
against an opponent whose move comes from a pretrained classifier. The board is a list of
nine integers, row-major, with 0 for an empty cell, 1 for the human and 2 for the opponent.
The session holds `board`, `winner`, `game_over`, `ai_first` and `game_started`.

The model has four modules:

- `Rules` (`rules.dfy`) — result evaluation (`check_winner`). It scans the eight winning
  triples in their listed order (rows, columns, diagonals) and returns the mark of the first
  triple that holds. Otherwise it returns `Some(0)` for a draw when every cell is filled, and
  `None` while the game goes on.
- `Policy` (`policy.dfy`) — the opponent's placement policy (`ai_move`) as a function of the
  board and the predicted cell. The predicted cell is used when it is empty. Otherwise the
  mark goes to the lowest-indexed empty cell. On a full board nothing changes.
- `Turns` (`turns.dfy`) — the session as a value, `Session`. Each controller operation
  (first-player choice, start, click, restart) is a transition function on it. The
  invariant `Coherent` says what every reachable session satisfies:
  - every cell holds one of the three marks;
  - `game_over` is set exactly when `winner` is, and the recorded winner is the board's result;
  - a running game's board has no result;
  - before the start the board is empty;
  - once started, the two players have alternated.

  The lemmas prove that each transition keeps `Coherent`. They also prove the click
  properties: a guarded click is a no-op, a terminal human move is never answered, and a
  non-terminal one is answered by exactly one opponent mark.
- `Controller` (`controller.dfy`) — the session object. `GameSession` is a class with the
  board as a 9-element `array<int>` updated in place, and the flags as fields. `AiMove`
  keeps the source's `for`/`break` fallback loop. The constructor's postcondition equates
  the state with `Turns.Initial`. `AiMove`'s postcondition equates the new board with
  `Policy.AiPlacement` of the old board. Each of the other methods' postconditions ties the
  new state to the matching `Turns` transition of the old state.

The classifier (`model.predict` followed by `np.argmax`) is an injected total function
`predict: seq<int> -> Cell`, where `Cell` is `0..8`. It is queried on the board as it stands
when the opponent moves, which is how `ai_move` queries the model.

In three places the model follows app.py where a reader might expect otherwise:

- `restart_game` keeps `ai_first` (app.py:73-77 never assigns it). While the game is not
  started the radio button assigns it again on every rerun.
- `handle_click` guards only on the cell being empty and `game_over` being false. It does
  not check `game_started`. The cell buttons that call it exist only once the game has
  started, so `Turns.ClickKeepsCoherent` takes `gameStarted` as its precondition. The
  method itself does not.
- The start branch calls `ai_move` without evaluating the result. This is safe because the
  board is empty before the start: `Turns.StartKeepsCoherent` proves one opponent mark
  placed on it cannot end the game.

## Model

| member | source | states |
|---|---|---|
| `Rules.ScanLines` | app.py:41-43 | the scan from pattern j finds nothing exactly when no later triple holds; a found mark is the mark of a triple that holds |
| `Rules.Holds` | app.py:42 | no contract of its own: line j holds when its three cells are equal and non-zero, the chained comparison of the scan; its properties are stated by `Rules.ScanLines` and `Rules.CheckWinner` |
| `Rules.CheckWinner` | app.py:35-46 | a non-zero result exactly when some triple holds, and then that mark owns a triple; `Some(0)` exactly when no triple holds and no cell is 0; `None` exactly when no triple holds and some cell is 0 |
| `Rules.ScanFindsFirst` | app.py:41-43 | the scan returns the mark of the first triple (from its start) that holds |
| `Rules.FirstLineDecides` | app.py:36-43 | when several triples hold, the first in the order rows, columns, diagonals decides the result |
| `Rules.SoleOwnerWins` | app.py:41-43 | a mark m that owns a triple, on a board where every triple that holds is m's, is the result, and m is non-zero |
| `Rules.ResultRange` | app.py:35-46 | on a board of marks 0..2 the result is None, a draw, the human or the opponent |
| `Rules.LoneLineWins` | app.py:36-43 | each of the eight triples filled with one non-zero mark, every other cell empty, wins for that mark |
| `Rules.EmptyBoardUndecided` | app.py:44-46 | the empty board has no result |
| `Rules.SingleMarkUndecided` | app.py:41-46 | a board with a single non-empty cell has no result |
| `Policy.FirstEmptyFrom` | app.py:54-57 | the fallback scan finds the lowest-indexed empty cell at or after i, or reports none (9) when all are taken |
| `Policy.AiPlacement` | app.py:51-57 | an empty predicted cell gets mark 2 and nothing else changes; on a taken prediction, mark 2 goes to the lowest-indexed empty cell and nothing else changes; a full board is unchanged |
| `Policy.PlacesOneMark` | app.py:51-57 | while a cell is empty, the opponent changes exactly one empty cell to 2 |
| `Policy.PlaceCounts` | app.py:52-61 | placing a mark in an empty cell adds one to that mark's count and leaves the other player's count alone |
| `Policy.PlacementKeepsMarks` | app.py:51-57 | after the opponent's move every cell is still 0, 1 or 2 |
| `Policy.PlacementCounts` | app.py:51-57 | the opponent adds one mark of its own unless the board is full, and never removes a human mark |
| `Turns.Initial` | app.py:23-32 | no contract of its own: the initial session values; its properties are `Turns.InitialCoherent` and `Turns.InitialOpponentFirst` |
| `Turns.Choose` | app.py:85-90 | no contract of its own: the radio choice, recorded only while unstarted; its property is `Turns.ChooseKeepsCoherent` |
| `Turns.Start` | app.py:92-95 | no contract of its own: the start button; its properties are `Turns.StartKeepsCoherent`, `Turns.OpponentFirstPlacesOne` and `Turns.InitialOpponentFirst` |
| `Turns.Click` | app.py:59-71 | no contract of its own: one click with the chained opponent answer; its properties are `Turns.ClickIgnored`, `Turns.HumanMoveEndsGame`, `Turns.HumanMoveAnswered`, `Turns.ClickKeepsCoherent`, `Turns.ClickKeepsMarks` and `Turns.ClickNeverOverwrites` |
| `Turns.Restart` | app.py:73-77 | no contract of its own: the restart values; its property is `Turns.RestartCoherent` |
| `Turns.InitialCoherent` | app.py:23-32 | the initial session satisfies the session invariant |
| `Turns.ChooseKeepsCoherent` | app.py:85-90 | the first-player choice keeps the invariant |
| `Turns.StartKeepsCoherent` | app.py:92-95 | starting keeps the invariant, including when the opponent moves first, without re-evaluating the result |
| `Turns.ClickKeepsCoherent` | app.py:59-71 | a click on a started game keeps the invariant: the result is recorded when and only when the game ends, and the players alternate |
| `Turns.RestartCoherent` | app.py:73-77 | restart yields a coherent session from any session, finished or not |
| `Turns.ClickIgnored` | app.py:60 | a click on a taken cell or on a finished game leaves the whole session unchanged |
| `Turns.HumanMoveEndsGame` | app.py:61-66 | a human move with a result records it and sets game over; the only board change is the human's mark, so the opponent did not move |
| `Turns.HumanMoveAnswered` | app.py:67-71 | a non-terminal human move is followed by exactly one opponent mark in another empty cell, placed by the policy; game over and winner are set exactly when the new board has a result |
| `Turns.ClickKeepsMarks` | app.py:59-71 | every cell stays 0, 1 or 2 through a click |
| `Turns.ClickNeverOverwrites` | app.py:59-71 | a click only fills empty cells: every mark already on the board stays where it is |
| `Turns.OpponentFirstPlacesOne` | app.py:92-95 | starting an unstarted empty session with the opponent first puts exactly one 2 on the board, at the predicted cell, and the game goes on |
| `Turns.InitialOpponentFirst` | app.py:85-95 | from the initial values, choosing the opponent and starting gives a started, running game with one opponent mark and eight empty cells |
| `Turns.OpeningExample` | app.py:59-71 | on an empty started board, the human at cell 0 with the opponent predicting 4 gives the board 1,0,0,0,2,0,0,0,0 and the game goes on |
| `Turns.HumanWinExample` | app.py:59-66 | on 1,1,0,2,2,0,0,0,0 the human at cell 2 wins and the opponent does not move |
| `Turns.LastCellDraw` | app.py:59-66 | a human move into the last empty cell that completes no triple is a draw, with no opponent move |
| `Controller.GameSession.constructor` | app.py:23-32 | a new session has an empty board, no winner, and all flags false |
| `Controller.GameSession.AiMove` | app.py:48-57 | the in-place fallback loop leaves the board equal to the placement policy applied to the old board and the prediction on it |
| `Controller.GameSession.HandleClick` | app.py:59-71 | the in-place click leaves the session equal to `Turns.Click` of the old session |
| `Controller.GameSession.RestartGame` | app.py:73-77 | a fresh all-zero board, winner None, game over and started false, first-player choice kept |
| `Controller.GameSession.ChooseFirst` | app.py:85-90 | the first-player choice is recorded only while the game has not started |
| `Controller.GameSession.StartGame` | app.py:92-95 | an unstarted session becomes started and, with the opponent first, gets one opponent move; a started session is unchanged |
| `Controller.OpeningPlay` | app.py:59-71 | a caller driving the session object can prove the opening board 1,0,0,0,2,0,0,0,0 from the method contracts |

## Left out

- Page setup, the board and button rendering, the mark labels and the result messages
  (app.py:80-123) are user interface. The radio choice and the start button are kept, as
  `ChooseFirst` and `StartGame`.
- The secret token and environment settings (app.py:10, 13) are configuration.
- Loading and caching the Keras model from Hugging Face (app.py:16-20) is a network and
  foreign call.
- `model.predict` and `np.argmax` over floating-point scores (app.py:49-50) are foreign
  numerics. They are replaced by the injected `predict` function with values in 0..8.
- Streamlit's rerun and callback scheduling is not modelled. Each operation is one atomic
  method call on the session object.
- Python's negative list indices are not modelled. Cell indices are `Cell` (0..8), the only
  values the buttons and the classifier produce.
