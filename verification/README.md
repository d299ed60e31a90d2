# Chess coven puzzle game: a verified model

This project models three parts of a chess-puzzle learning game:

- **The puzzle session engine**, from the `Game` component (`src/components/Game.tsx`).
  - A player works through the puzzles of a level by guessing a square, a move or a number.
  - Each wrong guess, give-up and replay costs one of three health points.
  - The advance button costs one health point and earns nothing unless the player has given up or has as many good guesses as the puzzle has solutions; then it moves on and earns a point.
  - Each correct guess earns a point.
  - A multi-position puzzle is animated by a timer that alternately shows the next position and its highlights.
- **The board**, from `src/components/Chessboard.tsx`:
  - which square name each cell of the 8x8 grid carries;
  - the 180-degree flip used when Black is to move;
  - the light/dark colour of each cell.
- **The puzzle post-processing**, from `generate-puzzles/chesscoven/pipeline.py`:
  - filling defaults into generated puzzles;
  - turning puzzles into table rows with camelCase columns;
  - the count filter and sample of `prune`;
  - grouping rows by level.

Modules:

- `Options`: an `Option` type.
- `Session` (`session.dfy`): the engine as pure transitions over a `State` record. Each event handler is one atomic transition computed from the state before the event, as React hands a handler the state of the last render. Navigation (`router.push`) is not an effect. It is the `Outcome` a transition returns: `Stay`, `GameOver`, or `NextLevel(target)`, where the target is the level's `nextLevel`, or "all".
- `GameComponent` (`game.dfy`): the component as a class.
  - Its fields are the eight state variables; each handler is a method that updates them step by step.
  - Each method is proved to end in the state (and outcome) that the `Session` function computes from the state before the call.
  - The methods that need it are proved to keep the invariant `Valid()`: a current puzzle, and `highlightPosition <= fenPosition <= |fens|`.
- `SessionProperties` (`session_properties.dfy`): laws relating several transitions, and worked examples.
- `Board` (`chessboard.dfy`): square names, the flip (also as an in-place method on an array of rows), and colours.
- `Camel` (`camel.dfy`): `str.split`, `str.capitalize` and `to_camel`.
- `Pipeline` (`pipeline.dfy`): the rest of the pipeline.
  - A table is a sequence of rows; a row is a map from column name to `Value`.
  - The loops of `from_positions`, `from_games` and `to_df` are methods proved against functions.

Inputs. Everything the code gets from outside becomes a parameter:

- the chess library's board and side to move;
- the puzzles a generator makes;
- `count_pieces`, `get_site`, and the chess-rule check `is_worthy`;
- the rows `df.sample` picks.

Behaviour of the code that the model keeps, although a reader might expect otherwise:

- **Correctness is decided on the raw guess.** The alias-resolved form is only what gets recorded. So with "Nf3" aliased to "g1f3" and "g1f3" the only solution, the guess "Nf3" is wrong (`SessionProperties.AliasIsRecordedNotMatched`): the alias table only changes how a correct guess is recorded and which later guesses count as repeats.
- **Give-up and replay always cost one health point**, whatever the status.
- **Health is not floored at 0.** There is no "dead" status, no `tryAgain`, and no "level-clear" status. Game over is the `GameOver` outcome. Only the events that cost health can return it (a new wrong guess, an advance that is not ready and not after a give-up, a give-up, a replay), and such an event returns it exactly when the health before it is at most 1.
- **Leaving the last puzzle of a level** does not reset the board. It only navigates away.
- **The animation timer ignores the player status.** It runs while `fenPosition <= |fens| - 1`, so `fenPosition` ends one past the last position.
- **A give-up can record the same alias twice.** It appends aliases without comparing them with one another. So the good guesses are not always distinct. Guesses alone keep both lists distinct (`SessionProperties.GuessKeepsListsDistinct`).

## Model

| member | source | states |
|---|---|---|
| GameComponent.Game.constructor | src/components/Game.tsx:33-41 | a new session has no guesses, health `MAX_HEALTH` = 3, score 0, status idle, both frames 0 and the first puzzle; the level must have a puzzle |
| GameComponent.Game.LoseHealth | src/components/Game.tsx:107-113 | health drops by one and the outcome is game over exactly when the new health is below 1 |
| GameComponent.Game.GainPoints | src/components/Game.tsx:115-117 | the score rises by one and nothing else changes |
| GameComponent.Game.ReplayAnimation | src/components/Game.tsx:79-82 | both animation frames return to 0 |
| GameComponent.Game.ResetBoard | src/components/Game.tsx:89-95 | the guesses are emptied and both frames return to 0 |
| GameComponent.Game.GotoNextPuzzle | src/components/Game.tsx:97-105 | the fields end as `Session.NextPuzzle` computes, keeping `Valid()` |
| GameComponent.Game.CheckCompleted | src/components/Game.tsx:119-127 | the fields and the outcome are those of `Session.CheckCompleted`, keeping `Valid()` |
| GameComponent.Game.CheckGuess | src/components/Game.tsx:129-162 | the fields, the returned flag and the outcome are those of `Session.CheckGuess`, keeping `Valid()` |
| GameComponent.Game.Replay | src/components/Game.tsx:164-167 | the fields and the outcome are those of `Session.Replay` |
| GameComponent.Game.GiveUp | src/components/Game.tsx:169-179 | the fields and the outcome are those of `Session.GiveUp`, with each queued append judged against the guesses before the give-up |
| GameComponent.QueueReveals | src/components/Game.tsx:173-178 | the loop over the solutions yields the earlier good guesses followed by `Session.Revealed` |
| GameComponent.Game.Tick | src/components/Game.tsx:64-75 | a tick fires exactly while `fenPosition <= len(fens) - 1`, and the frames end as `Session.AnimationTick` computes, keeping `Valid()` |
| Session.LoseHealth | src/components/Game.tsx:107-113 | health drops by exactly one; game over exactly when the health before was at most 1; otherwise stay |
| Session.NextPuzzle | src/components/Game.tsx:97-105 | before the last puzzle: index plus one, guesses emptied, frames 0, health, score and status kept. On the last puzzle: nothing changes and the outcome is the next level, or "all". The index stays in range |
| Session.CheckGuess | src/components/Game.tsx:129-162 | correct exactly when the guess is new and its raw form is a solution. A repeat changes only the status. A new wrong guess is recorded raw, costs one health and sets wrong-guess. A correct guess scores one, records its alias and keeps health. Completing the puzzle with auto-advance moves to the next puzzle with a fresh board, or, on the last puzzle, keeps the whole state except the recorded alias, the point and the status, and navigates to the next level |
| Session.CheckCompleted | src/components/Game.tsx:119-127 | after a give-up or with as many good guesses as solutions: next puzzle, status playing, score plus one, health kept. Otherwise only one health point is lost |
| Session.Replay | src/components/Game.tsx:164-167 | one health point lost, then the guesses emptied and the frames reset; game over as for `LoseHealth` |
| Session.Resolve | src/components/Game.tsx:132 | a guess with an entry in the alias table resolves to that entry; a guess without one resolves to itself |
| Session.ReadyToAdvance | src/components/Game.tsx:77 | when the good guesses are distinct aliases of solutions and no two solutions share an alias, ready exactly when every solution's alias has been found |
| Session.Revealed | src/components/Game.tsx:173-178 | the appended aliases are all new and all aliases of solutions, and together with the earlier guesses they cover every solution |
| Session.RevealedExactly | src/components/Game.tsx:173-178 | one alias is appended per solution that is unfound (neither it nor its alias among the earlier good guesses), and an alias is appended exactly when it is the alias of such a solution |
| Session.GiveUp | src/components/Game.tsx:169-179 | one health point lost and status gave-up. The earlier good guesses stay as a prefix, followed by exactly one alias per unfound solution, and a value is appended exactly when it is the alias of an unfound solution; every unfound solution's alias ends up among the good guesses. Nothing else changes |
| Session.AnimationTick | src/components/Game.tsx:64-75 | beyond the last position nothing changes. Otherwise exactly one frame moves up by one: the highlight frame when it is behind, else the position frame. `highlightPosition <= fenPosition <= len(fens)` is kept |
| Session.ShowGiveUp | src/components/Game.tsx:191 | when the give-up button is hidden, advancing costs no health and never ends the game |
| Session.ShowReplay | src/components/Game.tsx:192 | the replay button is shown exactly when the puzzle has more than one position and replaying cannot end the game |
| Session.ShowAdvance | src/components/Game.tsx:193 | hidden only when the guess completing the puzzle moves on by itself; after a give-up it is shown and advancing costs no health |
| Session.ShowNoSolution | src/components/Game.tsx:194 | the "no solution" answer is offered only when the give-up button is shown |
| Session.PulseNoSolution | src/components/Game.tsx:201 | when the no-solution button pulses, advancing keeps health and scores one |
| Session.Apply | src/components/Game.tsx:129-179 | every event keeps a current puzzle, and moves health and score by at most one each, health down and score up |
| Session.HighlightedSquaresAsWritten | src/components/Game.tsx:84-87 | as written, after a give-up on a square puzzle, one entry per solution, the k-th being the decimal text of k; otherwise the current frame's highlights, or none past the last frame |
| Session.HighlightedSquares | src/components/Game.tsx:84-87 | corrected: after giving up on a square puzzle, the highlighted squares are exactly the solutions; otherwise they are the current frame's highlights |
| SessionProperties.ApplyKeepsValid | src/components/Game.tsx:64-75 | every event keeps the invariant: a valid puzzle index and `highlightPosition <= fenPosition <= len(fens)` |
| SessionProperties.RunKeepsValid | src/components/Game.tsx:33-41 | any sequence of events keeps the invariant |
| SessionProperties.RunHealthAndScore | src/components/Game.tsx:107-117 | over n events, health falls by at most n and never rises, and the score rises by at most n and never falls |
| SessionProperties.ApplyKeepsGuessesAreSolutions | src/components/Game.tsx:129-179 | every event keeps every good guess an alias of one of the current puzzle's solutions |
| SessionProperties.RunKeepsGuessesAreSolutions | src/components/Game.tsx:129-179 | any sequence of events from a state where the good guesses are aliases of solutions keeps them so |
| SessionProperties.GuessKeepsListsDistinct | src/components/Game.tsx:134-158 | a guess never records a good or bad guess twice |
| SessionProperties.RepeatedGuessIsIgnored | src/components/Game.tsx:134-140 | resubmitting a guess on the same puzzle is not correct, stays put and changes only the status |
| SessionProperties.ManualAdvanceLaw | src/components/Game.tsx:144-155 | with auto-advance off, completing a puzzle leaves it in place with the advance button shown. Advancing then keeps health and moves to the next puzzle or level |
| SessionProperties.GiveUpThenAdvance | src/components/Game.tsx:119-127 | after a give-up the advance button is shown, and advancing costs nothing more and scores one |
| SessionProperties.ShownReplayIsSafe | src/components/Game.tsx:192 | a replay while the button is shown never ends the game |
| SessionProperties.TickIgnoresStatus | src/components/Game.tsx:64-75 | the tick neither reads nor changes the player status |
| SessionProperties.GiveUpsDrainHealth | src/components/Game.tsx:169-172 | k give-ups cost exactly k health points and stay on the puzzle |
| SessionProperties.GameOverIsReachable | src/components/Game.tsx:107-113 | from any state with health left, give-ups reach the game-over outcome |
| SessionProperties.AliasIsRecordedNotMatched | src/components/Game.tsx:132-146 | with "Nf3" aliased to "g1f3": "Nf3" is a wrong guess; "g1f3" is right and then makes "Nf3" a free repeat |
| SessionProperties.AutoAdvanceExample | src/components/Game.tsx:149-152 | with auto-advance, finding both solutions moves to the next puzzle with two points |
| SessionProperties.GiveUpExample | src/components/Game.tsx:173-178 | giving up on solutions "a1" and "b2" with nothing found records both |
| SessionProperties.GiveUpCanRecordAliasTwice | src/components/Game.tsx:173-178 | with solutions "a" and "b" and "b" aliased to "a", a give-up with nothing found records "a" twice |
| SessionProperties.AnimationTrace | src/components/Game.tsx:64-75 | on three positions the frames go (1,0) (1,1) (2,1) (2,2) (3,2) and stop |
| SessionProperties.GaveUpHighlightsNoSquare | src/components/Game.tsx:85-87 | as written, after a give-up on a square puzzle no square name is highlighted |
| SessionProperties.GaveUpHighlightExample | src/components/Game.tsx:85-87 | as written, solution "e4" gives the highlight "0"; corrected, "e4" |
| Board.ToSquareName | src/components/Chessboard.tsx:29-35 | a square name: unflipped, file `row` of rank 8 - `col`; flipped, file 7 - `row` of rank `col` + 1 |
| Board.BoardFor | src/components/Chessboard.tsx:19-22 | without a position string (missing or empty) the board is 8x8 with every cell empty; otherwise it is the parsed board, so 8x8 whenever the parsed one is |
| Board.FlippedFor | src/components/Game.tsx:56-62 | flipped when Black is to move; not flipped when White is, or when the position cannot be parsed |
| Board.CellName | src/components/Chessboard.tsx:29-35 | unflipped, the cell (r, c) is file c of rank 8 - r; flipped, file 7 - c of rank r + 1 |
| Board.CellNameInjective | src/components/Chessboard.tsx:29-35 | the cell is recovered from its name, in each orientation |
| Board.CellNameOnto | src/components/Chessboard.tsx:29-35 | every square name a1 to h8 names a cell, in each orientation |
| Board.AllNamesDistinct | src/components/Chessboard.tsx:43-45 | the 64 cells carry 64 distinct square names |
| Board.CornerNames | src/components/Chessboard.tsx:29-35 | unflipped, (0,0) is a8 and (7,0) is a1; flipped, (0,0) is h1 |
| Board.FlippedNameIsOppositeName | src/components/Chessboard.tsx:30-31 | the flipped name of (r, c) is the unflipped name of (7 - r, 7 - c) |
| Board.Reversed | src/components/Chessboard.tsx:25 | `reverse` puts element i at position length - 1 - i |
| Board.FlippedAt | src/components/Chessboard.tsx:24-27 | the flipped grid holds at (r, c) what the grid holds at (7 - r, 7 - c) |
| Board.FlipTwice | src/components/Chessboard.tsx:24-27 | flipping twice gives the board back |
| Board.EmptyBoardFlipped | src/components/Chessboard.tsx:19-22 | the board without a position is 8x8 of null and the same flipped |
| Board.SameSquareSamePiece | src/components/Chessboard.tsx:24-27 | the piece drawn under a square name is the same in both orientations |
| Board.ReverseInPlace | src/components/Chessboard.tsx:25 | reversing the rows in place leaves the reversed sequence of rows |
| Board.ReverseEachRow | src/components/Chessboard.tsx:26 | every row is replaced by its reverse |
| Board.FlipBoard | src/components/Chessboard.tsx:24-27 | the in-place flip leaves the flipped board |
| Board.IsLightAsWrittenInvertsWhenFlipped | src/components/Chessboard.tsx:50 | as written, the flag is the square's colour unflipped and its opposite flipped |
| Board.FlippedCornerDrawnDark | src/components/Chessboard.tsx:50 | as written, flipped, the cell h1, a light square, is drawn dark |
| Board.IsLight | src/components/Chessboard.tsx:50 | corrected: the flag is light exactly when the cell's square is light, in either orientation |
| Board.FlipPreservesEverySquare | src/components/Chessboard.tsx:43-52 | with the corrected flag, flipping draws every square with the same piece, colour and good/bad marks |
| Camel.Split | generate-puzzles/chesscoven/pipeline.py:67 | `split` gives at least one piece, no piece holds the separator, and joining the pieces gives the string back |
| Camel.SplitWithoutSeparator | generate-puzzles/chesscoven/pipeline.py:67 | a string without the separator splits into itself |
| Camel.SplitJoin | generate-puzzles/chesscoven/pipeline.py:67 | splitting undoes joining pieces that hold no separator |
| Camel.Capitalize | generate-puzzles/chesscoven/pipeline.py:71 | the first character in upper case and the rest in lower case, same length |
| Camel.ToCamel | generate-puzzles/chesscoven/pipeline.py:66-72 | the result holds no "_" and begins with the name's first piece |
| Camel.ToCamelOfPieces | generate-puzzles/chesscoven/pipeline.py:66-72 | for pieces joined by "_": the first piece unchanged, then every later piece capitalised, with nothing between |
| Camel.ToCamelIdentity | generate-puzzles/chesscoven/pipeline.py:66-72 | a name without "_" is unchanged |
| Camel.ToCamelIdempotent | generate-puzzles/chesscoven/pipeline.py:66-72 | applying it twice is applying it once |
| Pipeline.FillFromPosition | generate-puzzles/chesscoven/pipeline.py:27-30 | the row's site is filled only when the site is missing or empty, and the row's position only when there are no positions. Present values and every other field are kept |
| Pipeline.FillFromPositionIdempotent | generate-puzzles/chesscoven/pipeline.py:27-30 | once filled from a row with a non-empty site, filling again changes nothing |
| Pipeline.FromPositions | generate-puzzles/chesscoven/pipeline.py:20-34 | the loops yield every row's generated puzzles, filled, in order |
| Pipeline.FromPositionsKeepsEveryPuzzle | generate-puzzles/chesscoven/pipeline.py:24-32 | as many puzzles as were generated, each with at least one position |
| Pipeline.FillFromGame | generate-puzzles/chesscoven/pipeline.py:50-51 | the site is set to the game link of the move exactly when the move number is non-zero and the site is missing; otherwise the puzzle is unchanged |
| Pipeline.FromGames | generate-puzzles/chesscoven/pipeline.py:47-55 | the loops yield every game's generated puzzles, filled, in order |
| Pipeline.FromGamesKeepsEveryPuzzle | generate-puzzles/chesscoven/pipeline.py:48-53 | as many puzzles as were generated |
| Pipeline.RowOf | generate-puzzles/chesscoven/pipeline.py:78-83 | the row holds `solutionCount`, the number of solutions, and `pieceCount`, the piece count given |
| Pipeline.FieldsToRowKeys | generate-puzzles/chesscoven/pipeline.py:78-80 | the row's columns are exactly the camelCase field names |
| Pipeline.FieldsToRowValue | generate-puzzles/chesscoven/pipeline.py:78-80 | a field no later field collides with keeps its value under its camelCase name |
| Pipeline.BuildRow | generate-puzzles/chesscoven/pipeline.py:78-83 | the loop body builds the row of one puzzle |
| Pipeline.RowOfColumns | generate-puzzles/chesscoven/pipeline.py:75-87 | a row's columns are the camelCase field names plus `solutionCount` (the number of solutions) and `pieceCount` |
| Pipeline.ToDf | generate-puzzles/chesscoven/pipeline.py:75-87 | no table exactly when some puzzle has no position (the `fens[0]` lookup fails); otherwise one row per puzzle, in order, with the piece count of its first position |
| Pipeline.KeepByCounts | generate-puzzles/chesscoven/pipeline.py:99-106 | a row kept by the count mask has both counts and at least one solution |
| Pipeline.CountMaskInIntegers | generate-puzzles/chesscoven/pipeline.py:99-106 | the count mask keeps exactly the rows with at least one solution and both counts within bounds, `minpps * s <= pieces <= maxpps * s`; with no solution a row is always dropped |
| Pipeline.DefaultCountMask | generate-puzzles/chesscoven/pipeline.py:90-106 | with the default arguments, a row is kept exactly when it has 1 to 4 solutions, 4 to 24 pieces and 2 to 12 pieces per solution |
| Pipeline.Filter | generate-puzzles/chesscoven/pipeline.py:99-112 | a row passing the mask is kept exactly as often as it occurs in the table, and a row failing it is dropped entirely |
| Pipeline.CandidatesArePassingRows | generate-puzzles/chesscoven/pipeline.py:99-112 | the rows `prune` samples from are every occurrence of a row passing both the count mask and `is_worthy`, and nothing else |
| Pipeline.Select | generate-puzzles/chesscoven/pipeline.py:116 | the sample has as many rows as the mask picks, all from the table |
| Pipeline.Prune | generate-puzzles/chesscoven/pipeline.py:98-118 | at most 2000 rows, `min(len, 2000)` of those passing both masks, all taken from the input, each passing both masks |
| Pipeline.RowsAt | generate-puzzles/chesscoven/pipeline.py:124-128 | a level's group holds each row of that level as often as the table does, and no other row |
| Pipeline.GroupByLevel | generate-puzzles/chesscoven/pipeline.py:124-128 | one key per distinct non-missing level, each holding that level's rows |
| Pipeline.RowUnderItsLevel | generate-puzzles/chesscoven/pipeline.py:124-128 | a row with a level appears under its own level exactly as often as in the table; a row without a level appears in no group |
| Pipeline.RowUnderNoOtherLevel | generate-puzzles/chesscoven/pipeline.py:124-128 | no row appears under a level other than its own |

## Left out

- Rendering is not modelled: the JSX of `Game` and `Chessboard`, `GameHUD`, `ActionBar`, the title and rules text, and the hard-coded high score.
- `useRouter` and `router.push` are not modelled as effects. They are the `Outcome` a transition returns.
- The chess library is not modelled. `new Chess(fen).board()`, `turn()` and the parse failure the component catches are inputs. `Board.FlippedFor` and `Board.BoardFor` take the side to move and the parsed grid.
- Timers and asynchronous code are not modelled: `setInterval`/`clearInterval`, `async`, and `.then`. Each handler and each tick is one atomic step. Between two steps no other event arrives.
- Persistence, the session store, level loading, a "dead" status, `tryAgain` and "level-clear" do not appear in the code, so they are not modelled.
- Board.FlipBoard: each row is a value. The source's empty board fills every row with the same array, which `row.reverse()` then reverses more than once. Because every cell is `null`, nothing visible changes.
- Camel.Capitalize: only ASCII letters change case. Python's `str.capitalize` also maps other Unicode letters (and upper-cases a first letter by title case).
- Pipeline.Prune: the random sample is an input mask whose count must be `min(len, 2000)`. The rows keep their table order, while `df.sample` returns them shuffled.
- Pipeline.KeepByCounts: `pieceCount / solutionCount` is exact rational division, not an IEEE double. The two agree whenever `solutionCount * k` stays below 2^53, which piece and solution counts always do.
- Pipeline.ToDf: the `IndexError` that `puzzle.fens[0]` raises on a puzzle without positions is the None result; how the exception ends the run is not modelled. `from_games` never fills in `fens`, so its puzzles reach `to_df` with whatever positions the generator gave them.
- Pipeline.RowOfColumns: values are stated through `Pipeline.FieldsToRowValue` for fields whose camelCase name no later field shares. The fixed columns' values are not restated.
- File reading and writing are not modelled: `pd.read_json` in chunks, `chess.pgn.read_game`, `json.dump`, logging, and `tqdm`.
- `is_worthy` (python-chess) is not modelled. It is a predicate parameter of `Pipeline.Prune`.
- `count_pieces` and `get_site` are parameters, because `chesscoven.common` is not part of this model. So is `print_stats`.
- `from_self`, `passthrough` and `run_pipeline` are not modelled, since they only orchestrate. This includes its `drop_duplicates` on a copy of the `fens` column.
- `src/scripts/validate-puzzles.ts` is not modelled. It is file I/O against a schema that is not part of this model.

## Findings

| source | as written | input that shows it | evidently intended | confidence | as-written member | corrected member |
|---|---|---|---|---|---|---|
| src/components/Chessboard.tsx:50 | `isLight` is `(colIdx + rowIdx) % 2 == (flipped ? 1 : 0)`, so every square's colour inverts when the board is flipped | flipped board (Black to move): the first cell is h1, a light square, drawn dark | the colour of the cell's square, `(colIdx + rowIdx) % 2 == 0` in both orientations, since a 180-degree turn keeps the parity of `r + c` | medium, not executed | Board.IsLightAsWrittenInvertsWhenFlipped, Board.FlippedCornerDrawnDark | Board.IsLight, Board.FlipPreservesEverySquare |
| src/components/Game.tsx:85-87 | after a give-up on a square puzzle, the highlighted squares are `Object.keys(solutions)`: the array's indices "0", "1", ... | solutions `["e4"]`, status gave-up: the highlight is `["0"]`, and e4 is not highlighted | highlight the solution squares themselves | medium, not executed | SessionProperties.GaveUpHighlightsNoSquare, SessionProperties.GaveUpHighlightExample | Session.HighlightedSquares |
