# Tic-tac-toe game store

This project models the game store of a two-player tic-tac-toe game. The store holds:

- the 9-square board;
- the mark to move (`X` or `O`; `O` moves first after a reset);
- the recorded winner (a mark, a tie, or none yet);
- the two player records (name, mark, and an optional kind: human or computer);
- the setup-popup flag;
- the "computer is thinking" flag.

The store has these operations: a human move, a computer move on a given square, the computer's turn (a random empty square), a reset, storing the players, hiding the popup, and setting the thinking flag.

There are three modules:

- `Board` (Board.dfy): the board and its pure parts. These are the winner check, which scans the eight lines in a fixed order and returns the first completed one, the evaluation done after each placement (win first, then tie), and the list of empty squares.
- `GameLogic` (GameLogic.dfy): every store operation as a function from the state before to the state after. The lemmas here cover each operation alone and any sequence of operations.
- `GameStore` (GameStore.dfy): the store as a class with the seven fields. Its methods update the fields in place. Each method is proved to produce the state that the matching `GameLogic` function computes, so every `GameLogic` lemma also holds of the object.

A human move is rejected without any change in three cases: the computer is thinking, the game is decided, or the square is not exactly empty. An index outside 0..8 counts as "not exactly empty", because JavaScript reads such an index as `undefined`. Otherwise the move writes the mark to move on that square and then decides, in this order:

1. A completed line records that mark's win.
2. Otherwise a full board records a tie.
3. Otherwise the turn passes.

A human move that hands the turn to a computer second player also raises the thinking flag. The callback it schedules is `ThinkingDelayElapsed`: the computer's turn followed by lowering the flag.

A last move can fill the board and complete a line at once. The win is then recorded, not a tie. For example, on `X O X / O X O / O X _` with `X` playing square 8, the move completes the diagonal 0-4-8 (`GameLogic.LastSquareWinsOverTie`). `GameLogic.LastSquareTies` shows a real tie.

One move can also complete two lines at once: on `_ O O / O X X / O X X`, `O` playing square 0 completes the top row and the left column (`GameLogic.TwoLinesAtOnce`). Both lines always belong to the mark that just moved. In every reachable state at most one mark owns a line, so the order in which the winner check scans the lines never changes who is recorded as the winner.

## Model

| member | source | states |
|---|---|---|
| `Board.ScanFromCorrect` | store/useGameStore.ts:35-40 | the scan from line `k` on returns `p` only if some line from `k` on is filled with `p` and no earlier line from `k` on is completed; it returns none exactly when no line from `k` on is completed |
| `Board.CheckWinnerCorrect` | store/useGameStore.ts:29-41 | the winner check returns `p` only if one of the 8 lines is filled with `p`, namely the first completed line in scan order; returns none exactly when no line holds three equal marks |
| `Board.CheckWinnerUnique` | store/useGameStore.ts:29-41 | when only one mark owns a line, the check names that mark whatever the scan order |
| `Board.EvaluateCorrect` | store/useGameStore.ts:63-80 | the outcome after a placement: a win exactly when some line is completed (by the named mark), a tie exactly when the board is full with no line, undecided exactly when it is neither |
| `Board.EmptyBoard` | store/useGameStore.ts:44 | the initial board has 9 squares, all empty |
| `Board.EmptyIndices` | store/useGameStore.ts:139-141 | `i` is listed exactly when square `i` exists and is empty; the list is strictly increasing |
| `Board.FullIffNoEmptyIndex` | store/useGameStore.ts:73 | the board is full exactly when the list of empty squares is empty |
| `Board.SingleEmptyIndex` | store/useGameStore.ts:139-141 | with one empty square, the list of empty squares is exactly that square |
| `Board.PlaceKeepsOtherLines` | store/useGameStore.ts:59-60 | placing a mark on an empty square completes no new line for the other mark |
| `Board.CountPlace` | store/useGameStore.ts:59-60 | placing `p` on an empty square raises the count of `p` by one and leaves the other mark's count unchanged |
| `Board.Slot` | store/useGameStore.ts:147 | `floor(random * n)` for a random value in [0, 1) is a valid slot below `n`, and it is 0 when `n` is 1 |
| `Board.SlotReaches` | store/useGameStore.ts:147 | every slot below `n` is drawn by some random value in [0, 1), namely `k / n` for slot `k` |
| `GameLogic.SetIsComputerThinking` | store/useGameStore.ts:51 | sets the thinking flag and changes no other field |
| `GameLogic.MakeMove` | store/useGameStore.ts:52-98 | never changes the players or the popup; marks on the board are never removed or changed; in a decided game it changes nothing |
| `GameLogic.MakeComputerMove` | store/useGameStore.ts:99-132 | as `MakeMove`, and it leaves the thinking flag as it was (it never schedules another move) |
| `GameLogic.ComputerMove` | store/useGameStore.ts:133-151 | never changes the players, the popup or the thinking flag; keeps every mark; does nothing in a decided game |
| `GameLogic.ThinkingDelayElapsed` | store/useGameStore.ts:93-96 | after the delayed computer move the thinking flag is down; players and marks are kept |
| `GameLogic.ResetGame` | store/useGameStore.ts:152-158 | all 9 squares are empty, `O` is to move and no winner is recorded; players, popup and thinking flag are untouched |
| `GameLogic.SetPlayers` | store/useGameStore.ts:159-164 | stores the two records and changes no other field |
| `GameLogic.HidePopup` | store/useGameStore.ts:165 | clears the popup flag and changes no other field |
| `GameLogic.MakeMoveNoOp` | store/useGameStore.ts:54-57 | a human move leaves every field unchanged exactly when the computer is thinking, a winner or tie is recorded, or the square at the index is not exactly empty (covering indices outside the board) |
| `GameLogic.MakeComputerMoveNoOp` | store/useGameStore.ts:100-102 | a computer move leaves every field unchanged exactly when a winner or tie is recorded or the square is not exactly empty |
| `GameLogic.PlaceWrites` | store/useGameStore.ts:59-60 | an accepted placement writes the mark to move on that square only, and touches no player record and neither flag |
| `GameLogic.PlaceDecides` | store/useGameStore.ts:62-87 | after an accepted placement, a completed line records that mark and keeps the turn, else a full board records a tie and keeps the turn, else the turn passes to the other mark and the game stays undecided |
| `GameLogic.MakeMoveIsPlace` | store/useGameStore.ts:104-131 | an accepted human move and an accepted computer move on the same square give the same board, turn and winner |
| `GameLogic.MakeComputerMoveIsPlace` | store/useGameStore.ts:99-132 | an accepted computer move is exactly the placement, whether or not the thinking flag is up (the delayed move runs with it up) |
| `GameLogic.MakeMoveThinking` | store/useGameStore.ts:89-97 | after a human move the thinking flag is up exactly when it already was, or when the move was accepted, left the game undecided, and the second player is a computer whose mark is the new turn |
| `GameLogic.MovesAgree` | store/useGameStore.ts:99-132 | when nothing is handed to the computer, a human move and a computer move have the same effect |
| `GameLogic.TurnPassesOnlyWhenUndecided` | store/useGameStore.ts:126-131 | the turn changes exactly when a move is accepted and leaves the game undecided, and then it goes to the other mark |
| `GameLogic.ComputerMoveNoOp` | store/useGameStore.ts:136-144 | the computer's turn changes nothing exactly when the game is decided or no square is empty |
| `GameLogic.ComputerMovePlaysEmpty` | store/useGameStore.ts:139-150 | otherwise the computer's turn is an accepted computer move on a square that was empty |
| `GameLogic.ComputerMoveCanPlayAny` | store/useGameStore.ts:139-150 | in an undecided game, every empty square is the computer's move for some random value, so the computer can choose any empty square |
| `GameLogic.ComputerMoveForced` | store/useGameStore.ts:139-150 | with one empty square, the computer plays that square whatever the random value, and the game is then decided |
| `GameLogic.ComputerReplies` | store/useGameStore.ts:89-96 | a human move that hands the turn to a computer second player without ending the game raises the thinking flag; a click meanwhile changes nothing; the delayed computer move then places the computer's mark on another square that was empty, changes no other square, and lowers the flag |
| `GameLogic.Step` | store/useGameStore.ts:51-165 | any operation except a reset keeps every mark, and in a decided game it keeps the board, the turn and the winner |
| `GameLogic.Run` | store/useGameStore.ts:51-165 | over any sequence of operations without a reset, every mark stays, and a recorded winner or tie is never changed |
| `GameLogic.InitialConsistent` | store/useGameStore.ts:44-50 | the initial state is consistent: no winner and no line on an empty board, equal counts, `O` to move |
| `GameLogic.StepConsistent` | store/useGameStore.ts:52-165 | every operation keeps the state consistent: the recorded winner is the evaluation of the board; the two marks never both own a line; `O` has as many marks as `X` or one more; while undecided, `O` moves on equal counts and `X` otherwise |
| `GameLogic.RunConsistent` | store/useGameStore.ts:52-165 | any sequence of operations keeps the state consistent |
| `GameLogic.ReachableOutcome` | store/useGameStore.ts:29-80 | in every reachable state, at most one mark owns a line and a mark that owns one is the recorded winner, whatever the scan order; a recorded win belongs to a completed line of that mark, a recorded tie is exactly a full board with no line, and an undecided game has an empty square |
| `GameLogic.TopRowWins` | store/useGameStore.ts:63-70 | `O O _ / X X _ / _ _ _` with `O` playing square 2 records a win for `O` |
| `GameLogic.LastSquareWinsOverTie` | store/useGameStore.ts:63-80 | a last move that fills the board and completes a line records the win, not a tie |
| `GameLogic.TwoLinesAtOnce` | store/useGameStore.ts:29-70 | from a consistent state, one move of `O` completes both the top row and the left column, and the win is recorded for `O` |
| `GameLogic.LastSquareTies` | store/useGameStore.ts:72-80 | a last move that fills the board without a line records a tie |
| `GameStore.Store.constructor` | store/useGameStore.ts:44-50 | the new store is in the initial state |
| `GameStore.Store.SetIsComputerThinking` | store/useGameStore.ts:51 | the new state is `GameLogic.SetIsComputerThinking` of the old one |
| `GameStore.Store.MakeMove` | store/useGameStore.ts:52-98 | the new state is `GameLogic.MakeMove` of the old one |
| `GameStore.Store.MakeComputerMove` | store/useGameStore.ts:99-132 | the new state is `GameLogic.MakeComputerMove` of the old one |
| `GameStore.Store.ComputerMove` | store/useGameStore.ts:133-151 | the new state is `GameLogic.ComputerMove` of the old one for the given random value |
| `GameStore.Store.ThinkingDelayElapsed` | store/useGameStore.ts:93-96 | the new state is the computer's turn followed by lowering the thinking flag |
| `GameStore.Store.ResetGame` | store/useGameStore.ts:152-158 | the new state is `GameLogic.ResetGame` of the old one |
| `GameStore.Store.SetPlayers` | store/useGameStore.ts:159-164 | the new state is `GameLogic.SetPlayers` of the old one |
| `GameStore.Store.HidePopup` | store/useGameStore.ts:165 | the new state is `GameLogic.HidePopup` of the old one |
| `GameStore.ComputerOpponentExample` | store/useGameStore.ts:89-96 | against a computer `X`: a human move on square 4 raises the thinking flag; a second click is then ignored, so the board ends with exactly one `O` (on square 4); the delayed move places exactly one `X` and lowers the flag |

## Left out

- The React components (the setup popup, the board, the squares and the page) are left out because they only render the store and forward clicks. The board's click guard repeats the store's own guard. The setup form's check that the two marks differ is not made by the store, so `SetPlayers` does not require it either.
- The 500 ms timer is not modelled as time. The callback it schedules is the explicit operation `ThinkingDelayElapsed`, and `Run` lets it happen at any point of a sequence, including after a reset. There is no ordering in real time.
- `Math.random()` is an input: a fraction `num / den` with `num < den`. Its floating-point behaviour and its distribution are not modelled, but every empty square can be drawn (`GameLogic.ComputerMoveCanPlayAny`).
- The reactive store library (`create`, `set`, `get`, subscriptions) is not modelled. `set` is plain assignment to the named fields.
- Move indices are integers. JavaScript numbers that are not integers, and `NaN`, also read `undefined` from the board, so such a move is a no-op as well. The model does not represent them.
- Player names are carried as strings but play no part in any decision.
