# Tic-Tac-Toe engine, modelled in Dafny

This project models the game engine of a browser Tic-Tac-Toe component
(`src/app/TicTacToe.tsx`). Two people play on one board, or a person (X)
plays the computer (O). The model covers:

- win detection (`calculateWinner`);
- the list of free squares (`getAvailableMoves`);
- the unused `findBlockingMove`;
- the exhaustive `minimax` search;
- the click handler that places a mark and passes the turn;
- the computer's choice of square: the centre or a corner for its first reply, the search for every other move;
- the scoreboard and the handlers that reset a round or a game.

Modules, one per component of the engine:

- `Options`: the `Option` type for the component's `number | null` results.
- `Board` (`board.dfy`): cells, the eight lines, `Winner` and the loop `CalculateWinner`, `AvailableMoves`, `FindBlockingMove`, and counting lemmas.
- `Search` (`search.dfy`): `Minimax` is the search as a recursive function. `MinimaxInPlace` is the component's own form: it writes each trial mark into an `array`, recurses and empties the square again. Lemmas state what the search returns.
- `Opponent` (`opponent.dfy`): the computer's move rule, `ChooseAiMove`, and the method that runs the search on a copy of the board as the component does.
- `Game` (`game.dfy`): `ApplyClick` (`handleClick` on a position), the turn-balance invariant, the computer's turn, and the `Session` class. `Session` holds the component's state and the handlers that change it.

A square is `Empty | X | O`; `Empty` stands for `null`, and `Winner` returns
`Empty` where the component returns `null`. A board is a `seq<Cell>` of
length 9 in row-major order.

In `minimax` the best score starts at `-Infinity` (maximizing) or `Infinity`
(minimizing), so the first empty square always replaces it. The model keeps
this exactly. The running best carries `move == None` until the first square
is scored, and `None` counts as "worse than any score". The placeholder
scores -11 and 11 are never returned with a move.

## Model

| member | source | states |
|---|---|---|
| `Board.CalculateWinner` | src/app/TicTacToe.tsx:14-36 | the result is `null` exactly when no line is complete; otherwise it is the mark of the first complete line in scan order; it equals `Winner` |
| `Board.WinnerSpec` | src/app/TicTacToe.tsx:14-36 | `Winner` is `null` exactly when no line holds three equal marks; when some line is the first complete one, `Winner` is that line's mark |
| `Board.WinnerOfLine` | src/app/TicTacToe.tsx:25-33 | a complete line of mark m makes m the winner when every complete line holds m |
| `Board.IsFull` | src/app/TicTacToe.tsx:80 | `board.every(Boolean)` holds exactly when the count of empty squares is zero |
| `Board.CountAfterMove` | src/app/TicTacToe.tsx:87-89 | placing a mark on an empty square lowers the empty count by one, so the search's recursion terminates |
| `Board.AvailableMoves` | src/app/TicTacToe.tsx:38-40 | the result holds exactly the indices of empty squares, each below 9, strictly increasing |
| `Board.FindBlockingMove` | src/app/TicTacToe.tsx:49-73 | `null` exactly when no line holds two `opponent` marks and an empty square; otherwise it is the first empty square (a, b, c order) of the first such line in scan order, an empty square; for a real mark that line holds two opponent marks and one empty square |
| `Search.Minimax` | src/app/TicTacToe.tsx:76-113 | the search's result, as a function of the board; any move it returns is an empty square of that board |
| `Search.ScanMoveIsFree` | src/app/TicTacToe.tsx:84-111 | the loop over the squares either keeps its starting best or ends on an empty square it has scanned |
| `Search.MinimaxInPlace` | src/app/TicTacToe.tsx:76-113 | after the in-place search the board is exactly what the caller passed in, and the score and move are those of `Minimax` on that board |
| `Search.ScanSpec` | src/app/TicTacToe.tsx:84-111 | the loop over the squares keeps the best so far or ends on an empty square carrying its child score; that score is at least as good as every child and the earlier best, and strictly better than every child before its square |
| `Search.MinimaxBestMove` | src/app/TicTacToe.tsx:84-111 | on an unfinished board the move is an empty square whose child score is the maximum (maximizing) or minimum (minimizing) over all empty squares; every empty square before it scores strictly worse, so ties go to the lowest index |
| `Search.MinimaxTerminal` | src/app/TicTacToe.tsx:77-80 | a computer win scores `10 - depth`, a human win `depth - 10`, a full board `0`, all with no move; a move is returned exactly when the board is not finished |
| `Search.ScoreRange` | src/app/TicTacToe.tsx:76-111 | while depth plus the empty squares left is at most 10, the score lies in `depth - 10 .. 10 - depth`, and one step inside that range on an unfinished board |
| `Search.OngoingScoreRange` | src/app/TicTacToe.tsx:84-111 | on an unfinished board the score lies strictly inside that range, in `depth - 9 .. 9 - depth` |
| `Search.TopLevelScore` | src/app/TicTacToe.tsx:152 | the search started at depth 0, as the component starts it, returns a score in `-10 .. 10` |
| `Search.ChildWinScore` | src/app/TicTacToe.tsx:87-89 | a computer move's child scores at most `9 - depth`, and exactly that when the move completes a line for the computer |
| `Search.TakesImmediateWin` | src/app/TicTacToe.tsx:84-97 | when the computer can complete a line with one mark, the search plays such a square, and the lowest one |
| `Opponent.FreeCorners` | src/app/TicTacToe.tsx:145 | the result holds exactly the empty corners among 0, 2, 6, 8 |
| `Opponent.ChooseAiMove` | src/app/TicTacToe.tsx:139-156 | the chosen square, when there is one, is an empty square of the board |
| `Opponent.ChooseAiMoveOnCopy` | src/app/TicTacToe.tsx:134-156 | the component's computation on a fresh copy of the board gives the same square as `ChooseAiMove`, an empty one |
| `Opponent.OpeningReply` | src/app/TicTacToe.tsx:139-149 | with exactly one X and no O, the reply is the centre when it is empty; otherwise it is one of the corners 0, 2, 6, 8 |
| `Opponent.AlwaysReplies` | src/app/TicTacToe.tsx:137-156 | while nobody has won and a square is free, the computer always has a move |
| `Opponent.SearchReply` | src/app/TicTacToe.tsx:150-156 | outside the opening the reply is an empty square with the largest child score, the lowest such square on a tie |
| `Opponent.WinsWhenItCan` | src/app/TicTacToe.tsx:150-156 | outside the opening, if some square completes a line for O, the reply completes a line for O |
| `Opponent.CornerOpeningTakesCentre` | src/app/TicTacToe.tsx:141-142 | after X opens in corner 0 the computer answers 4 |
| `Opponent.CentreOpeningTakesCorner` | src/app/TicTacToe.tsx:143-148 | after X opens in the centre the computer answers a corner |
| `Opponent.CompletesOwnLine` | src/app/TicTacToe.tsx:151-155 | with O on 0 and 1 and X on 3, 4 and 8, the computer answers 2 and wins |
| `Opponent.FullBoardHasNoMove` | src/app/TicTacToe.tsx:150-156 | the full board X O X / O X O / O X O has no winner and the computer has no move |
| `Game.ApplyClick` | src/app/TicTacToe.tsx:197-203 | a click on an occupied square or after a win changes nothing; otherwise only the clicked square changes, it gets X when `xIsNext` and O otherwise, and the turn flips |
| `Game.ClickCountsOneMove` | src/app/TicTacToe.tsx:197-203 | a click changes nothing, or adds exactly one mark, removes one empty square and passes the turn |
| `Game.ClickKeepsBalance` | src/app/TicTacToe.tsx:197-203 | a click keeps the invariant "X has as many marks as O when X is to move, one more otherwise" |
| `Game.PlayKeepsBalance` | src/app/TicTacToe.tsx:197-203 | any sequence of clicks keeps that invariant |
| `Game.StartBalanced` | src/app/TicTacToe.tsx:118-119 | a round starts with no marks and X to move |
| `Game.Alternation` | src/app/TicTacToe.tsx:197-203 | from the start of a round, after any clicks, X is to move exactly when an even number of marks has been placed |
| `Game.AiTurn` | src/app/TicTacToe.tsx:129-161 | the computer's turn either changes nothing or puts one O on an empty square and hands the turn to X; outside a started game against the computer it changes nothing |
| `Game.AiTurnPlaysO` | src/app/TicTacToe.tsx:129-161 | on O's turn in a game against the computer that nobody has won, with a free square, the computer puts one O on an empty square and X moves next |
| `Game.AiTurnKeepsBalance` | src/app/TicTacToe.tsx:129-161 | the computer's turn keeps the turn-balance invariant |
| `Game.Session.constructor` | src/app/TicTacToe.tsx:116-124 | a session starts unstarted, with no mode, an empty board, X to move and all counters at zero |
| `Game.Session.HandleClick` | src/app/TicTacToe.tsx:197-203 | the board and turn become `ApplyClick` of the old ones, and the turn-balance invariant is kept |
| `Game.Session.AiMove` | src/app/TicTacToe.tsx:129-163 | the board and turn become `AiTurn` of the old ones, and the invariant is kept |
| `Game.Session.RecordResult` | src/app/TicTacToe.tsx:165-186 | a win adds one to the winner's counter only; a full board with no winner after the start adds one draw only; otherwise no counter changes; the total grows by one exactly when the round is over |
| `Game.Session.HandleStart` | src/app/TicTacToe.tsx:190-195 | the chosen mode is set, the game is started, the board is empty and X moves; the scores are kept |
| `Game.Session.HandleReset` | src/app/TicTacToe.tsx:205-208 | the board is emptied and X moves; the scores are kept |
| `Game.Session.HandleNewGame` | src/app/TicTacToe.tsx:217-225 | back to mode selection with an empty board, X to move and all three counters at zero |
| `Game.Session.HandleRestartGame` | src/app/TicTacToe.tsx:227-232 | back to mode selection with an empty board and X to move; the scores are kept |

## Left out

- `getRandomMove` (src/app/TicTacToe.tsx:42-47) is not modelled. It is never called, and it only draws a random entry of `getAvailableMoves`, which is modelled.
- `Math.random` in the corner choice is an injected `pick: nat`. The corner taken is `corners[pick % |corners|]`, so every corner the random draw can reach is reachable, and the model never says which one is likely.
- The `setTimeout` delays, React's effect scheduling, and the stale closure of `handleClick` inside the timer are left out. The computer's move is `Session.AiMove`, and the score effect is `Session.RecordResult`. Each is called once where React would run the effect.
- The animation flags, dark mode, the modal and `lastResult` are left out because they only affect display. For this reason `handleNextRound` is the same as `Session.HandleReset` in this model.
- The `disabled` flag on the squares (src/app/TicTacToe.tsx:242) is left out because it belongs to rendering. It stops human clicks during the computer's turn. `Session.HandleClick` models `handleClick` itself, which does not check whose turn it is.
- The status text (src/app/TicTacToe.tsx:259-266) is not modelled as a string. It is derived from `Winner` and `IsFull`, which are modelled.
- `Game.ApplyClick` requires `index < 9`, so the model excludes out-of-range clicks. The handler has no range check of its own: for an index of 9 or more, `board[index]` is `undefined`, the occupied-square guard lets the click through, and a tenth entry is written to the board copy. Every caller passes a square index 0..8, so this case is not modelled.
- `Search.Minimax` requires `ai` and `human` to be marks. Its only caller (src/app/TicTacToe.tsx:152) passes `"O"` and `"X"`. With a `null` mark the source would see `winner === ai` (or `winner === human`) on any board without a winner and return at once with `10 - depth` (or `depth - 10`) and no move; that case is not modelled.
- `Search.TakesImmediateWin`, `Opponent.SearchReply` and `Opponent.WinsWhenItCan` cover the computer's side (the maximizing search) only. The human's symmetric case is not stated.
- The claim that the search never loses, and that optimal play from the empty board always ends in a draw, is not proved. It depends on the value of the whole game tree, which the verifier cannot evaluate at a reasonable cost.
