# Connect Four: a verified model of the game engine

This project models the engine of a Connect-Four game in three modes:

- player against computer (`connect4_with_ai.py`);
- computer against computer (`connect4_ai_vs_ai.py`);
- two players (`connect4.py`).

All three share one board: six rows of seven cells, row 0 at the bottom. Cells hold 0 (empty), 1 or 2, and a dropped piece falls to the lowest empty cell of its column. The Python files each define the board functions; the model defines them once, in `Board`.

Modules:

- `Board` (board.dfy): the grid as a value (`Grid = seq<seq<int>>`) and as the live `array2<int>` the game mutates. `Snapshot` reads the array as a grid. It holds:
  - the board operations and the four-direction win test;
  - the gravity invariant;
  - the facts about a drop.
- `Evaluator` (evaluator.dfy): the window score table and the heuristic board score. The score is specified as a sum over the 69 windows, in the order the scoring loops visit them.
- `Search` (search.dfy): plain depth-limited minimax (`MinimaxValue`), parameterised by the `Rules` that differ between the modes. It also holds what an alpha-beta call promises (`SearchOutcome`: fail-soft bounds, the first-best column) and the bookkeeping of one step of the column loop.
- `WithAi` and `WithAiGame` (with_ai.dfy, with_ai_game.dfy): the computer player's search, scored for piece 2. Also the game object, with the player's click and the computer's reply.
- `AiVsAi` (ai_vs_ai.dfy): the search with the side passed as a parameter. It uses its own terminal literals (10^14 for a win, -10^13 for a loss) and a win test that yields `None` instead of `False`.
- `TwoPlayer` (two_player.dfy): the full-board draw test and the two-player game object.
- `Outcomes` (outcomes.dfy): what one click or move did to a game, shared by the two game objects.

The loops of the source are methods with loop invariants, proved against the specification functions. The cited source code does this:

- `minimax` recurses over board copies and cuts off once alpha >= beta.
- `score_position` accumulates its score in nested loops.
- `winning_move` and `get_next_open_row` loop and return early.
- `get_valid_locations` of the AI-vs-AI file appends in a loop.

The games are classes whose methods update `board`, `turn` and `gameOver` in place. No `minimax` or scoring method has a `modifies` clause, so none of them can change the board it is given: children are searched on fresh copies (`CopyAndDrop`).

The search contract (`Search.SearchOutcome`), for every window (alpha, beta):

- A leaf (depth 0 or a finished game) returns no column and the leaf value. The leaf value tests the searching side's win first, then the other side's win, then a full board (0); an unfinished leaf gets the heuristic.
- An inner node returns a playable column.
- The value is fail-soft with respect to plain minimax: exact strictly inside the window, an upper bound at or below alpha, a lower bound at or above beta.
- A value strictly inside the window is reached first at the returned column: every playable column to its left is strictly worse, because a column only replaces the current one on a strict improvement.

At the root, with the window (-inf, +inf), this gives the exact minimax value and the first column that reaches it (`Search.RootSearchExact`).

The model follows the code in the points where the three files differ:

- connect4_ai_vs_ai.py:142 scores the opponent's win -10^13, a tenth of the +10^14 win; connect4_with_ai.py:114 uses -10^14.
- The draw test of connect4.py:62-66 checks only that every column is full, not that nobody has won. The win is tested first (connect4.py:145-152), so the move that ends a running game is announced correctly (`TwoPlayer.AfterDrop`). The click handler of connect4.py:123-160 does not test `game_over`, though, and plays every click of the event batch. Suppose player 1 wins with the 41st piece and player 2's next click in the same batch fills the board. Then line 152 announces a draw although player 1 has four in a row. `TwoPlayer.Game.Click` models this as written: its outcome is `Drawn` in that case.
- The win test of connect4_ai_vs_ai.py:44-67 has no final `return False`; it yields Python's `None`, modelled as `Option<bool>`.
- The difficulty buttons of connect4_with_ai.py:173-177 select depths 1, 3 and 5.

## Model

| member | source | states |
|---|---|---|
| Board.CreateBoard | connect4_with_ai.py:26-27 | the new grid is six rows of seven cells, every cell 0 |
| Board.NewBoard | connect4.py:18-19 | a fresh 6×7 array whose contents are the empty grid |
| Board.NextOpenRow | connect4_with_ai.py:35-38 | the lowest empty row of the column: empty itself, every row below occupied; `None` exactly when the whole column is occupied; `Some` on a playable column |
| Board.GetNextOpenRow | connect4_ai_vs_ai.py:33-36 | the upward scan returns the lowest empty row of the live column, `None` when it falls off the end, and agrees with `NextOpenRow` |
| Board.SetCell | connect4_with_ai.py:29-30 | the grid after writing (row, col) differs from the old one in that cell only |
| Board.DropPiece | connect4.py:21-22 | the write changes exactly cell (row, col) of the array to the piece |
| Board.CopyBoard | connect4_with_ai.py:124 | `board.copy()` is a fresh array with the same cells |
| Board.CopyAndDrop | connect4_with_ai.py:123-125 | the child board is a fresh array holding the parent grid with the piece dropped into the column; the parent is untouched |
| Board.ValidLocations | connect4_with_ai.py:40-41 | every listed column is on the board and has an empty top cell, and there are at most seven |
| Board.ValidLocationsAscending | connect4_with_ai.py:40-41 | the playable columns are listed in strictly ascending order |
| Board.ValidLocationsComplete | connect4_with_ai.py:40-41 | every column with an empty top cell is listed |
| Board.NoValidLocations | connect4_with_ai.py:63 | the list is empty exactly when every column's top cell is occupied |
| Board.WinningMove | connect4_with_ai.py:43-60 | the four scans report a win exactly when the piece fills some horizontal, vertical, up-right or down-right run of four |
| Board.Scan | connect4_with_ai.py:44-59 | one direction's scan, columns outer and rows inner: true only when a run of four exists; false only when no run in that direction exists |
| Board.ScanColumn | connect4_with_ai.py:45-47 | the inner row loop of a scan: true only when a run exists; false only when no run starts in that column |
| Board.FourAtWindow | connect4_with_ai.py:72 | a run of four for the win test is exactly an evaluator window on the board whose four cells all hold the piece |
| Board.FourAtCells | connect4_with_ai.py:46 | a run of four on the live board is the four cells the source compares, read one by one |
| Board.GravityOpenRow | connect4_with_ai.py:35-38 | on a gravity-respecting board the next open row splits the column into occupied cells below and empty cells above |
| Board.DropKeepsGravity | connect4_with_ai.py:29-38 | dropping at the next open row of a playable column keeps every column filled from the bottom |
| Board.DropFillsColumn | connect4_with_ai.py:32-38 | after a drop the column stays playable exactly when the piece did not land on the top row; other columns keep their status |
| Board.DropKeepsOtherFours | connect4_with_ai.py:29-30 | a drop of one piece never creates a run of four for a different value |
| Board.DropKeepsFours | connect4_with_ai.py:29-30 | a drop never breaks an existing run of four of a piece |
| Board.EmptyBoardOpen | connect4_with_ai.py:26-27 | on the new board nobody has four in a row, every column is playable and gravity holds |
| Evaluator.Count | connect4_with_ai.py:76 | `list.count` never exceeds the length of the list |
| Evaluator.WindowTable | connect4_with_ai.py:72-86 | for a window of four and two distinct pieces the score is one of 100, 5, 2, 0 or -4; each of 100, 5, 2 and -4 occurs exactly for its window composition |
| Evaluator.ThreeAndGap | connect4_with_ai.py:78-84 | three of one piece and a gap score 5 for that piece and -4 for the other |
| Evaluator.Column | connect4_with_ai.py:90 | `board[:, c]` is the column read bottom to top |
| Evaluator.WindowsEnumerated | connect4_with_ai.py:92-103 | every run of four on the board is visited by exactly one position of the scoring loops |
| Evaluator.RowSlice | connect4_with_ai.py:93-95 | the horizontal slice `row_array[c:c+4]` is the run starting at (r, c) |
| Evaluator.ColumnSlice | connect4_with_ai.py:97-99 | the vertical slice `col_array[r:r+4]` is the run starting at (r, c) |
| Evaluator.DiagonalSlices | connect4_with_ai.py:102-103 | the two comprehensions read the up-right run from (r, c) and the down-right run from (r + 3, c) |
| Evaluator.ScoreRows | connect4_with_ai.py:92-95 | the horizontal loop nest sums the table score of the 24 horizontal windows |
| Evaluator.ScoreColumns | connect4_with_ai.py:96-99 | the vertical loop nest sums the table score of the 21 vertical windows |
| Evaluator.EmptyBoardScore | connect4_with_ai.py:88-104 | the empty board scores 0 for every piece |
| Evaluator.ZeroLineSum | connect4_with_ai.py:94-95 | a line of windows that each score 0 sums to 0 |
| Evaluator.EmptyDirectionSum | connect4_with_ai.py:92-103 | on an empty board every direction's window sum is 0 |
| Search.ChildValueOf | connect4_with_ai.py:123-126 | the value of a child is plain minimax of the board after the mover's drop, one level shallower, for the other side |
| Search.ChildValues | connect4_with_ai.py:122-126 | one child value per explored column |
| Search.ExtremeBounds | connect4_with_ai.py:127-129 | the running best bounds every value seen: from above when maximising, from below when minimising |
| Search.ExtremeAttained | connect4_with_ai.py:127-129 | the running best is one of the values seen |
| Search.ExtremeNext | connect4_with_ai.py:127-129 | one more child moves the best only on a strict improvement |
| Search.InnerNode | connect4_with_ai.py:119-148 | on an unfinished board with depth > 0 some column is playable and plain minimax is the extreme child value |
| Search.RootSearchExact | connect4_with_ai.py:239 | with the window (-inf, +inf) the search returns plain minimax and the first playable column reaching it |
| Search.FirstBestByIndex | connect4_with_ai.py:127-129 | strict improvement over list positions means every playable column left of the chosen one is strictly worse |
| Search.MaxStep | connect4_with_ai.py:126-132 | one maximising step keeps the fail-soft invariant, and a cut-off leaves a value at or above beta that bounds the exact maximum from below |
| Search.MinStep | connect4_with_ai.py:141-147 | the symmetric minimising step, with a cut-off value at or below alpha |
| Search.MaxUpdate | connect4_with_ai.py:127-132 | the loop body after a child search: the best changes exactly on a strict improvement, alpha becomes max(alpha, value), and the loop stops exactly when alpha >= beta; on stopping, the value is fail-soft for the maximum child value and first reached at the chosen index |
| Search.MinUpdate | connect4_with_ai.py:142-147 | the symmetric minimising body: beta becomes min(beta, value), and the loop stops exactly when alpha >= beta |
| WithAi.IsDraw | connect4_with_ai.py:62-65 | a draw is a finished board without a winner: no column playable and neither piece has four |
| WithAi.IsTerminalNode | connect4_with_ai.py:67-70 | the board is finished exactly when a piece has four or every column is full |
| WithAi.ScorePosition | connect4_with_ai.py:88-104 | the score is 3 × the pieces in the centre column plus the table score of all 69 windows, opponent as `evaluate_window` chooses it |
| WithAi.ScoreDiagonals | connect4_with_ai.py:100-103 | the combined diagonal loop sums the 12 up-right and the 12 down-right windows |
| WithAi.Minimax | connect4_with_ai.py:106-148 | the computer's alpha-beta search meets `SearchOutcome`: leaf values, a playable column, fail-soft value, first-best column |
| WithAi.MaxBranch | connect4_with_ai.py:119-133 | the maximising branch returns a playable column and a fail-soft value for the best child, first-best inside the window |
| WithAi.MaxColumns | connect4_with_ai.py:120-132 | the maximising column loop, stated on the child values |
| WithAi.MinBranch | connect4_with_ai.py:134-148 | the minimising branch, symmetric to the maximising one |
| WithAi.MinColumns | connect4_with_ai.py:135-147 | the minimising column loop |
| WithAi.SearchChild | connect4_with_ai.py:123-126 | a child searched with the current window returns a fail-soft value for that child's exact value |
| WithAiGame.AfterDrop | connect4_with_ai.py:226-236 | a move in a running game keeps gravity, and play goes on after it exactly when the board is not finished |
| WithAiGame.Game.constructor | connect4_with_ai.py:210-212 | a new game has an empty board, the drawn starting side, the chosen depth, and is not over |
| WithAiGame.Game.PlayerClick | connect4_with_ai.py:224-236 | a click is ignored unless it is the player's turn in a running game and the column has room; otherwise piece 1 is dropped, the win then the draw are checked, and the turn passes to the computer |
| WithAiGame.Game.AiMove | connect4_with_ai.py:238-249 | on its turn in a running game the computer drops piece 2 into the first column of best minimax value, checks the win then the draw, and passes the turn |
| WithAiGame.Game.Play | connect4_with_ai.py:240-247 | the drop and the outcome: win before draw, game over exactly when the board is finished |
| AiVsAi.OpponentsAgree | connect4_ai_vs_ai.py:71-73 | the two opponent tests agree exactly for pieces 1 and 2, where each gives the other piece |
| AiVsAi.TerminalNotZeroSum | connect4_ai_vs_ai.py:137-142 | on a finished board won by one side, that side's search scores it 10^14 and the loser's search -10^13, so the two searches are not opposites |
| AiVsAi.TerminalLeaf | connect4_ai_vs_ai.py:137-144 | a finished board scores 10^14 when `piece` has four, else -10^13 when the opponent has, else 0 |
| AiVsAi.WinningMove | connect4_ai_vs_ai.py:44-67 | the result is `True` (Some(true)) exactly when a run of four exists, and `None` otherwise |
| AiVsAi.GetValidLocations | connect4_ai_vs_ai.py:123-128 | the append loop builds exactly the ascending list of playable columns |
| AiVsAi.IsTerminalNode | connect4_ai_vs_ai.py:131-132 | the board is finished exactly when a piece has four or every column is full |
| AiVsAi.ScorePosition | connect4_ai_vs_ai.py:87-120 | the score for `piece` is 3 × its centre-column count plus the table score of all 69 windows |
| AiVsAi.ScoreUpRight | connect4_ai_vs_ai.py:110-113 | the up-right loop nest sums the 12 up-right windows |
| AiVsAi.ScoreDownRight | connect4_ai_vs_ai.py:115-118 | the down-right loop nest sums the 12 down-right windows |
| AiVsAi.Minimax | connect4_ai_vs_ai.py:134-178 | the search for `piece` meets `SearchOutcome` under its own rules |
| AiVsAi.MaxBranch | connect4_ai_vs_ai.py:147-161 | the maximising branch drops `piece`: playable column, fail-soft value, first-best inside the window |
| AiVsAi.MaxColumns | connect4_ai_vs_ai.py:148-160 | the maximising column loop, stated on the child values |
| AiVsAi.MinBranch | connect4_ai_vs_ai.py:163-178 | the minimising branch drops the opponent's piece |
| AiVsAi.MinColumns | connect4_ai_vs_ai.py:164-177 | the minimising column loop |
| AiVsAi.SearchChild | connect4_ai_vs_ai.py:150-154 | the child search drops `piece` or its opponent, passes `piece` on unchanged and returns a fail-soft value for the child |
| AiVsAi.BestMove | connect4_ai_vs_ai.py:229 | the root call returns plain minimax for `piece` and the first playable column reaching it |
| TwoPlayer.NextTurn | connect4.py:160 | `(turn + 1) % 2` is the other player |
| TwoPlayer.IsDraw | connect4.py:62-66 | the scan reports a draw exactly when every column's top cell is occupied, whoever has four |
| TwoPlayer.AfterDrop | connect4.py:140-155 | a move keeps gravity and never reopens a finished board; on an unfinished board play goes on exactly when the board is still not finished |
| TwoPlayer.Game.constructor | connect4.py:103-105 | a new game: empty board, player 0 to move, not over |
| TwoPlayer.Game.Click | connect4.py:134-160 | a full column is ignored; otherwise the mover's piece lands on the next open row, win is checked before draw, the game-over flag is only ever raised, and the turn passes to the other player; clicks after a finishing one in the same batch are still played |
| TwoPlayer.Game.Play | connect4.py:140-155 | the drop and its outcome: win before full board |

## Left out

- main.py is not part of this model: it is a menu that starts the game scripts as processes.
- Rendering, fonts, delays and event polling are left out. A click arrives as a column number in 0..6; the mouse position to column mapping (`posx // SQUARESIZE`) is left out.
- The difficulty menu is left out; its effect, the depth a button selects, is `WithAi.DifficultyDepth`.
- `random.choice(valid_locations)` in `minimax` is modelled as the first playable column. It is always replaced: the first child value beats -inf/+inf strictly.
- The random starting side of the computer game is a constructor parameter.
- `math.inf` is the `ExtInt` infinities, and numpy's float cells are integers 0, 1 and 2; no floating-point arithmetic is modelled.
- The computer-versus-computer main loop (connect4_ai_vs_ai.py:221-274) is left out, including its draw test tied to the second computer's turn. `AiVsAi.BestMove` states only the root call that loop makes.
- `depth` is a natural number: every caller passes a positive constant, and negative depths are not modelled.
- Board.DropPiece: requires the cell to be on the board. numpy would wrap a negative row index, but no caller passes one.
- Each loop was split into one method per nest so that every proof stays small:
  - the win test's scans (`Board.Scan`, `Board.ScanColumn`);
  - the scoring loops;
  - the search (`Minimax` → `MaxBranch`/`MinBranch` → `MaxColumns`/`MinColumns` → `SearchChild`, with the loop body in `Search.MaxUpdate`/`MinUpdate`).

  The statements they execute are those of the source.
- WithAiGame.Game.PlayerClick: tests `gameOver`, which the click handler of connect4_with_ai.py:224 does not. The two agree: after the player's move the turn is the computer's, so later clicks of the same batch are ignored, and the loop of line 215 ends once the game is over.
- The row and column loop nests of `score_position` are the same in both computer players. The model shares `Evaluator.ScoreRows` and `Evaluator.ScoreColumns` between them. The up-right and down-right loops share one loop nest in `connect4_with_ai.py` (`WithAi.ScoreDiagonals`) and are separate in `connect4_ai_vs_ai.py` (`AiVsAi.ScoreUpRight`, `AiVsAi.ScoreDownRight`).
- Node counts and pruning efficiency are not stated; only the value and the column the search returns are.
