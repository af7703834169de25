# Gomoku engine and command front end, modelled in Dafny

This project models the Gomoku engine of a `pbrain` protocol bot and the text
handling of its command front end, and proves properties of the model.

- **Engine** (`Gomoku` class, src/Gomoku.cpp and src/Gomoku.hpp). The engine
  holds one mutable board `_board`, indexed `[x][y]`. It has the board
  dimensions, the opening flag `_begin`, the `_initialized` flag and four
  advisory INFO parameters. Its operations:
  - `start`, `rectStart` and `restart` allocate or clear the board;
  - `isOnBoard` and `isValid` are the bounds test and the "playable cell" test;
  - `updateBoard` is a guarded write;
  - `generateMoves` scans the board for candidate cells;
  - `evaluate` scores runs of stones in four directions;
  - `negamax` is a depth-bounded alpha-beta search;
  - `getBestMove` drives the search at the root.
- **Front end** (`Commands` class, src/Commands.cpp). It reads lines, trims
  each one on the right, splits off the command word at the first space,
  dispatches on nine keywords, and runs one handler per command.

## How the model is built

The model follows the code as written, not a stronger design.

- **Value-level specification.** Modules `Grid`, `MoveGen`, `Evaluation` and
  `Search` specify every engine operation as a function on a board value
  (`seq<seq<Player>>`). Lemmas prove the properties of those functions.
- **Imperative engine.** The class `Engine.Gomoku` keeps the engine's fields.
  Its methods use the same loops as the C++. Each is proved to produce the
  value-level function's result: its return value and the board it leaves
  behind.
- **Front end.** The class `Frontend.Commands` returns the line a handler
  would print (`Reply`) instead of printing it. Standard input is a sequence
  of lines; `std::stoi` and `std::string::find` are modelled exactly
  (module `Text`).
  `run` also returns a ghost record of its loop: the lines it dispatched,
  the line where each command left the loop, each command's reply, and the
  engine state (`Engine.EngineState`, every field of the `Gomoku` object as
  a value) before and after each command. The predicate `Frontend.Handled`
  states, keyword by keyword, the reply a trimmed line gets and the whole
  engine state it leaves, and `Frontend.Traced` says that every entry of
  the record is such a step. Its contract classifies every line by
  `KindOf`: blank, an END line, a BOARD line, or any other command.

## Behaviour of the code that the model reproduces

- `generateMoves` skips EMPTY cells, so every candidate is an occupied cell
  (`MoveGen.CandidateIsOccupied`; an empty board has no candidates).
- The neighbour test of `generateMoves` reads `_board[y + dy][x + dx]`, with
  the indices exchanged. On a non-square board that read can go out of range
  for some cells, so the search functions require `width == height`.
- `negamax` writes the mover's stone on a candidate and then writes `NONE`
  back. The candidate was occupied, so the search erases stones
  (`Search.NegamaxErasesFirstCandidate`).
- The root loop of `getBestMove` writes `ME` on every candidate and never
  undoes it (`Search.RootSearchPlaysMe`).
- The opening branch returns the centre `(width / 2, height / 2)`, with C++
  truncating division, without writing it to the board.
- `evaluate` scores a run by its length alone (10000, 1000, 100 or 10 for 5+,
  4, 3, 2). Open ends play no part.

## Error and undefined behaviour

- **Parse errors.** `std::stoi` throws when there is no digit after optional
  white space and sign, and when the value does not fit a 32-bit `int`. The
  exception is never caught, so the process ends. The model replies `Abort`
  and the read loop stops with `Aborted`.
- **Undefined search.** `getBestMove` outside the opening reads `moves[0]`
  unconditionally, which is undefined behaviour on an empty candidate list.
  The transposed read can go out of range on a non-square board. In the engine
  both are preconditions. In the front end the handler replies `Undefined`
  instead (predicate `Frontend.Searchable`) and the read loop stops with
  `UndefinedBehaviour`.
- **BOARD line split.** The second comma search of a BOARD line starts at
  `npos + 1`, which wraps around to 0 when the line has no comma. The model
  writes that out. Either way the line is skipped, since it has no first comma.

## Model

| member | source | states |
|---|---|---|
| Macro.NextPlayer | src/Gomoku.cpp:132 | the child searches for the other player: never `None`, and it swaps `Me` and `Opponent` |
| Grid.EmptyGrid | src/Gomoku.cpp:33-36 | the allocated board has `width` columns of `height` cells, all empty |
| Grid.ValidMoveMeansOnBoardAndEmpty | src/Gomoku.cpp:38-45 | `isValid(m)` holds exactly when `isOnBoard(m)` holds and the cell is `NONE` |
| Grid.Set | src/Gomoku.cpp:129-134 | a raw cell write keeps the board's shape, writes the cell, and changes no other cell |
| Grid.Update | src/Gomoku.cpp:47-51 | the guarded write keeps the board's shape |
| Grid.UpdateWritesOnlyValidCell | src/Gomoku.cpp:47-51 | `updateBoard` writes the cell exactly when the move is valid; otherwise the board is unchanged; an occupied cell is never overwritten; no other cell changes |
| MoveGen.HasNeighbourMeansSomeOffset | src/Gomoku.cpp:96-107 | the neighbour test holds exactly when one of the eight offsets other than (0, 0) finds an occupied cell under the transposed read |
| MoveGen.AllColumnsMeansHasNeighbour | src/Gomoku.cpp:96-107 | the two nested loops with their early breaks have looked at all eight offsets once all three `dx` columns are done |
| MoveGen.Candidates | src/Gomoku.cpp:87-115 | every returned move is on the board |
| MoveGen.ScannedSound | src/Gomoku.cpp:90-111 | a move the scan has pushed is an occupied cell with a neighbour and precedes the scan position |
| MoveGen.ScannedComplete | src/Gomoku.cpp:90-111 | every occupied cell with a neighbour before the scan position has been pushed |
| MoveGen.CandidatesExactly | src/Gomoku.cpp:87-115 | a move is returned if and only if it is on the board, occupied, and has an occupied neighbour under the transposed read |
| MoveGen.ScannedOrdered | src/Gomoku.cpp:90-111 | the moves pushed so far are in strict column-major order |
| MoveGen.CandidatesInScanOrder | src/Gomoku.cpp:90-111 | the list is in strict x-then-y order and has no duplicates |
| MoveGen.EmptyBoardHasNoCandidates | src/Gomoku.cpp:92-93 | an all-empty board yields no moves |
| MoveGen.CandidateIsOccupied | src/Gomoku.cpp:92-93 | every candidate is on the board and its cell holds a stone |
| Evaluation.DirectionTable | src/Gomoku.cpp:153-154 | the four entries of `dx[]`/`dy[]` are the directions (1,0), (0,1), (1,1), (1,-1) |
| Evaluation.RunLengthIsMaximalRun | src/Gomoku.cpp:174-183 | the walk counts a maximal run: the first `count` cells are the player's and the next one is off the board or not theirs |
| Evaluation.RunCellOwned | src/Gomoku.cpp:178-183 | each cell the walk passes is on the board and the player's |
| Evaluation.RunEndsAfter | src/Gomoku.cpp:178-179 | the walk stops at a cell that is off the board or not the player's |
| Evaluation.RunValue | src/Gomoku.cpp:185-193 | the length table is between 0 and 10000 and is 0 exactly for runs of length 1 or less |
| Evaluation.DirectionScoreSign | src/Gomoku.cpp:163-193 | one direction adds between 0 and 10000 for a `ME` stone and between -10000 and 0 for an `OPPONENT` stone |
| Evaluation.DirectionsScoreSign | src/Gomoku.cpp:163-194 | the first `k` directions of a cell add between 0 and 10000·k for a `ME` stone, and between -10000·k and 0 for an `OPPONENT` stone |
| Evaluation.CellScoreSign | src/Gomoku.cpp:157-195 | an empty cell adds nothing; a `ME` stone adds between 0 and 40000, an `OPPONENT` stone between -40000 and 0 |
| Evaluation.ColumnScoreSign | src/Gomoku.cpp:157-195 | a column adds 0 or more when the board has no `OPPONENT` stone, and 0 or less when it has no `ME` stone |
| Evaluation.ScoreBeforeSign | src/Gomoku.cpp:156-196 | the same holds for the total over the first `k` columns |
| Evaluation.Evaluate | src/Gomoku.cpp:150-199 | a board with no `OPPONENT` stone evaluates to 0 or more, and one with no `ME` stone to 0 or less |
| Evaluation.EmptyColumnScore | src/Gomoku.cpp:157-159 | the empty cells of a column contribute nothing |
| Evaluation.EmptyScoreBefore | src/Gomoku.cpp:156-159 | the columns of an empty board contribute nothing |
| Evaluation.EvaluateEmpty | src/Gomoku.cpp:150-199 | an all-empty board evaluates to 0 |
| Evaluation.Swapped | src/Gomoku.cpp:161-163 | the board with the colours exchanged has the same shape and every cell swapped |
| Evaluation.SwappedRunLength | src/Gomoku.cpp:174-183 | exchanging colours keeps every run length |
| Evaluation.SwappedDirectionScore | src/Gomoku.cpp:166-193 | exchanging colours negates one direction's contribution |
| Evaluation.SwappedDirectionsScore | src/Gomoku.cpp:165-194 | exchanging colours negates a cell's four-direction total |
| Evaluation.SwappedColumnScore | src/Gomoku.cpp:157-195 | exchanging colours negates a column's total |
| Evaluation.SwappedScoreBefore | src/Gomoku.cpp:156-196 | exchanging colours negates the total over the first columns |
| Evaluation.EvaluateSwapped | src/Gomoku.cpp:150-199 | exchanging `ME` and `OPPONENT` on every cell negates `evaluate` |
| Search.PerspectiveEval | src/Gomoku.cpp:118-124 | the leaf value for `OPPONENT`, `-evaluate()`, equals the evaluation of the board with the colours exchanged |
| Search.MaximumIsMax | src/Gomoku.cpp:136-138 | the running `bestValue` bounds its start value and every value seen, and is one of them |
| Search.MaximumSnoc | src/Gomoku.cpp:136-138 | one more loop iteration takes one more value into the running maximum |
| Search.Negamax | src/Gomoku.cpp:117-148 | the search leaves a board of the same shape |
| Search.Step | src/Gomoku.cpp:129-134 | one candidate step leaves a board of the same shape |
| Search.Explore | src/Gomoku.cpp:128-145 | the loop searches at most as many children as there are candidates left |
| Search.ExploreLoopIsMaximum | src/Gomoku.cpp:126-147 | the loop's `bestValue` is the running maximum of the searched children's values, and its board is the board after those children |
| Search.NegamaxClears | src/Gomoku.cpp:117-148 | every cell after the search is as it was or `NONE`: the search never writes a stone that stays |
| Search.StepClears | src/Gomoku.cpp:129-134 | a step only empties cells, and its own cell is `NONE` afterwards |
| Search.ExploreClears | src/Gomoku.cpp:128-145 | the candidate loop only empties cells |
| Search.NegamaxLeaf | src/Gomoku.cpp:118-124 | at depth 0 or with no candidates the value is `evaluate()` for `ME` and `-evaluate()` otherwise, and the board is untouched |
| Search.NegamaxValueIsBestChild | src/Gomoku.cpp:126-147 | with candidates, at least one child is searched and the value bounds every searched child's negated value and is one of them (or `INT_MIN`) |
| Search.ExploreCutoff | src/Gomoku.cpp:139-144 | the loop goes on while alpha stays below beta and stops early only once alpha has reached beta |
| Search.NegamaxErasesFirstCandidate | src/Gomoku.cpp:122-134 | the first candidate holds a stone before the search and is `NONE` after it |
| Search.RootStep | src/Gomoku.cpp:70-72 | one root iteration leaves a board of the same shape |
| Search.RootExplore | src/Gomoku.cpp:69-81 | the root loop computes one value per candidate |
| Search.RootLoopPicksBestIndex | src/Gomoku.cpp:69-81 | the loop's `bestMove` is the candidate `BestIndex` picks from the root values, and its board is the one `RootExplore` leaves |
| Search.RootStepKeepsMe | src/Gomoku.cpp:70-72 | a root iteration leaves every cell as it was, empty, or `ME`, and its own cell `ME` or empty |
| Search.RootExploreKeepsMe | src/Gomoku.cpp:69-81 | after the root loop every cell is as it was, empty, or `ME`, and every visited cell is `ME` or empty |
| Search.BestIndex | src/Gomoku.cpp:74-77 | the index the strict-improvement scan keeps is a valid index |
| Search.BestIndexScan | src/Gomoku.cpp:74-77 | the scan keeps the first index of a strictly greatest value, or index 0 when no value exceeds `INT_MIN` |
| Search.BestIndexIsFirstMaximum | src/Gomoku.cpp:63-77 | from `bestMove = moves[0]` and `bestValue = INT_MIN`, the scan picks the first strictly greatest value |
| Search.RootValues | src/Gomoku.cpp:69-81 | there is one root value per candidate |
| Search.ChosenIndex | src/Gomoku.cpp:63-81 | the chosen move is one of the candidates |
| Search.RootSearch | src/Gomoku.cpp:61-84 | the board after `getBestMove` keeps its shape |
| Search.RootSearchChoosesFirstBest | src/Gomoku.cpp:63-81 | `getBestMove` returns the first candidate whose root value is strictly greatest |
| Search.RootSearchPlaysMe | src/Gomoku.cpp:69-84 | the returned move is a candidate, its cell holds `ME` afterwards, and every other cell is as it was, empty, or `ME` |
| Engine.HalfTowardZero | src/Gomoku.cpp:58 | `n / 2` truncates toward zero: within one of half of `n`, on the side of zero |
| Engine.NeighbourTest | src/Gomoku.cpp:95-107 | the nested offset loops with their breaks compute the eight-offset neighbour test |
| Engine.RunWalk | src/Gomoku.cpp:174-183 | the `while` walk counts the run length of the player from the cell along the direction |
| Engine.AddCellRuns | src/Gomoku.cpp:161-194 | the direction loop adds the cell's signed run values to the score |
| Engine.Gomoku.constructor | src/Gomoku.hpp:8-17 | width, height, the two flags and the four INFO parameters start at 0/false, with an empty board |
| Engine.Gomoku.Start | src/Gomoku.cpp:6-15 | a size of 0 or less returns FAILURE and changes nothing; otherwise SUCCESS, an n×n all-empty board, and `initialized` |
| Engine.Gomoku.RectStart | src/Gomoku.cpp:17-26 | a dimension of 0 or less returns FAILURE and changes nothing; otherwise SUCCESS, a w×h all-empty board, and `initialized` |
| Engine.Gomoku.Restart | src/Gomoku.cpp:28-31 | the board becomes all empty with the same dimensions; the opening flag is not touched |
| Engine.Gomoku.InitializeBoard | src/Gomoku.cpp:33-36 | the board is `width` columns of `height` empty cells and `initialized` is set |
| Engine.Gomoku.IsOnBoard | src/Gomoku.cpp:43-45 | on a valid board, the move is on the board exactly when its cell exists |
| Engine.Gomoku.IsValid | src/Gomoku.cpp:38-41 | a move is valid exactly when it is on the board and its cell is empty |
| Engine.Gomoku.UpdateBoard | src/Gomoku.cpp:47-51 | the cell becomes the player's when the move was valid; otherwise the board is unchanged |
| Engine.Gomoku.GenerateMoves | src/Gomoku.cpp:87-115 | the nested scan returns exactly the candidate list, in scan order |
| Engine.Gomoku.Evaluate | src/Gomoku.cpp:150-199 | the loops compute the board's evaluation |
| Engine.Gomoku.Negamax | src/Gomoku.cpp:117-148 | the value returned and the board left behind are those of the search specification |
| Engine.Gomoku.ExploreMoves | src/Gomoku.cpp:126-147 | the candidate loop with its cutoff returns the loop specification's best value and leaves its board |
| Engine.Gomoku.TryMove | src/Gomoku.cpp:129-134 | place, search one ply deeper with the negated window, clear the cell, negate the value: one `Step` |
| Engine.Gomoku.GetBestMove | src/Gomoku.cpp:53-85 | the opening returns the centre and leaves the board alone; otherwise the move and the new board are those of the root search; the flag is cleared |
| Engine.Gomoku.SearchBestMove | src/Gomoku.cpp:61-84 | the root loop plus `updateBoard(bestMove, ME)` yield the root search's move and board |
| Engine.Gomoku.TryRootMove | src/Gomoku.cpp:70-72 | place `ME`, search the opponent's reply at depth 2, negate the value; the stone stays |
| Engine.Gomoku.SetWidth | src/Gomoku.hpp:36-54 | only the width changes, and `getWidth` returns it; the board is not resized |
| Engine.Gomoku.SetHeight | src/Gomoku.hpp:40-58 | only the height changes, and `getHeight` returns it; the board is not resized |
| Engine.Gomoku.SetInitialized | src/Gomoku.hpp:44-50 | `isInitialized` returns what was stored; nothing else changes |
| Engine.Gomoku.SetTimeoutTurn | src/Gomoku.hpp:60-78 | only `timeoutTurn` changes, and its getter returns the argument |
| Engine.Gomoku.SetTimeoutMatch | src/Gomoku.hpp:64-82 | only `timeoutMatch` changes, and its getter returns the argument |
| Engine.Gomoku.SetMaxMemory | src/Gomoku.hpp:68-86 | only `maxMemory` changes, and its getter returns the argument |
| Engine.Gomoku.SetTimeLeft | src/Gomoku.hpp:72-90 | only `timeLeft` changes, and its getter returns the argument |
| Engine.Gomoku.SetBegin | src/Gomoku.hpp:92-94 | only the opening flag changes, to the argument |
| Text.FindFrom | src/Commands.cpp:138-139 | an index that `find(c, from)` returns is at or after `from`, inside the string, and holds `c` |
| Text.FindFromMeaning | src/Commands.cpp:138-139 | no `c` comes between `from` and the index found, and `npos` is returned exactly when no `c` is at or after `from` |
| Text.FindIsFirst | src/Commands.cpp:27-33 | `find(c)` returns the first index holding `c`, and `npos` exactly when the string has no `c` |
| Text.FindLastNotTrimmed | src/Commands.cpp:13 | the index of the last character outside " \n\r\t", everything after it being trimmed characters, or `npos` when all are |
| Text.TrimRight | src/Commands.cpp:13-18 | the trimmed line is a prefix of the input, drops only trimmed characters, and does not end in one |
| Text.TrimRightUnique | src/Commands.cpp:13-18 | the trim result is the only prefix with those three properties |
| Text.TrimRightIdempotent | src/Commands.cpp:13-18 | trimming an already trimmed line changes nothing |
| Text.TrimRightEmpty | src/Commands.cpp:13-19 | a line trims to nothing, and is not dispatched, exactly when it holds only trimmed characters |
| Text.DigitPrefix | src/Commands.cpp:70 | `std::stoi` reads the longest prefix of decimal digits |
| Text.Stoi | src/Commands.cpp:70 | a value `std::stoi` returns fits a 32-bit `int` |
| Text.StoiSkipsSpace | src/Commands.cpp:70 | leading white space does not change what `std::stoi` reads |
| Text.Magnitude | src/Commands.cpp:70 | a conversion succeeds only when a digit follows the sign, and its value fits an `int` |
| Text.NatDecimal | src/Commands.cpp:108 | the digits written for a number are non-empty, all digits, and have no leading zero |
| Text.Decimal | src/Commands.cpp:108 | the text of an `int` starts with '-' exactly for negative values and is otherwise all digits |
| Text.NatDecimalValue | src/Commands.cpp:108 | reading back the written digits gives the number |
| Text.DigitPrefixOfDigits | src/Commands.cpp:70 | the digit run ends where the written digits end |
| Text.MagnitudeOfNatDecimal | src/Commands.cpp:70 | the written digits, signed or not, read back as the number |
| Text.StoiOfSign | src/Commands.cpp:70 | after a sign, `std::stoi` reads the digits that follow, negated for '-' |
| Text.StoiOfNatDecimal | src/Commands.cpp:118-119 | `std::stoi` reads back a written non-negative `int` |
| Text.StoiOfNegativeDecimal | src/Commands.cpp:118-119 | `std::stoi` reads back a written negative `int` |
| Text.StoiOfDecimal | src/Commands.cpp:118-119 | `std::stoi` reads back any `int` written by `operator<<`, whatever non-digit text follows |
| Text.StoiWithoutDigitThrows | src/Commands.cpp:70 | text without any digit makes `std::stoi` throw |
| Protocol.ParseCommand | src/Commands.cpp:25-34 | no space gives (input, ""); otherwise the command word has no space and word + " " + args is the input |
| Protocol.ParseCommandOfJoin | src/Commands.cpp:25-34 | splitting a space-free word joined to any arguments by one space gives both parts back |
| Protocol.KeywordIsExactMatch | src/Commands.cpp:39-59 | a word selects a handler only if it is exactly that handler's keyword; any other word is unknown |
| Protocol.KeywordOfName | src/Commands.cpp:39-59 | each of the nine keywords selects its own handler |
| Protocol.ParsePair | src/Commands.cpp:79-86 | the error reply is given exactly when there is no comma; parsed values fit an `int` |
| Protocol.ParsePairSplitsAtFirstComma | src/Commands.cpp:112-119 | the arguments split at the first comma and each side is read by `std::stoi` alone |
| Protocol.ParsePairOfFormatMove | src/Commands.cpp:118-123 | a move line "x,y" the engine writes is read back as the same move by TURN |
| Protocol.FlagToPlayer | src/Commands.cpp:146 | flag 1 means `ME`, every other flag `OPPONENT`; never `NONE` |
| Protocol.ParseBoardLine | src/Commands.cpp:132-148 | a line ends the block exactly when it is "DONE"; a stone line has a player and `int` coordinates |
| Protocol.IgnoredIffFewerThanTwoCommas | src/Commands.cpp:138-141 | a line other than "DONE" is skipped exactly when it has fewer than two commas |
| Protocol.FindFromAt | src/Commands.cpp:138-139 | the comma search from `from` stops at the first comma at or after `from` |
| Protocol.CommaFields | src/Commands.cpp:138-139 | in "a,b,f" with no comma in a or b, the two comma searches find the commas after a and after b, and the slices around them are a, b and f |
| Protocol.ParseBoardLineSplits | src/Commands.cpp:138-146 | a line with two commas splits into the three fields around them, each read by `std::stoi` alone |
| Protocol.ParseBoardLineFields | src/Commands.cpp:138-146 | with its first two commas at `i` and `j`, a line is read as the stone given by the three fields around them, or throws if one of them does not convert |
| Protocol.ParseBoardLineAt | src/Commands.cpp:138-146 | with its first two commas at `i` and `j`, a line other than "DONE" is read by `std::stoi` on the slices before `i`, between `i` and `j`, and after `j` |
| Protocol.ParseBoardLineOfFormatStone | src/Commands.cpp:138-146 | a stone written as "x,y,flag" is read back as the same move and player |
| Protocol.NoCommaInDecimal | src/Commands.cpp:108 | the decimal text of a number has no comma, so a written move splits at the comma between its coordinates |
| Protocol.InfoKeyIsExactMatch | src/Commands.cpp:155-163 | an INFO key selects a setting only when it is exactly that setting's name; every other key selects nothing |
| Frontend.Placed | src/Commands.cpp:131-148 | the BOARD lines keep the board's shape |
| Frontend.PlayLine | src/Commands.cpp:141-147 | one BOARD line keeps the board's shape |
| Frontend.PlacedStep | src/Commands.cpp:131-148 | reading one more line plays that line on the board so far, and the block stays plain exactly when the line is plain |
| Frontend.PlacedKeepsStones | src/Commands.cpp:147 | a BOARD block never overwrites a stone already on the board |
| Frontend.PlacedNeverClears | src/Commands.cpp:147 | a BOARD block never empties a cell |
| Frontend.PlainLinesEvery | src/Commands.cpp:131-148 | the lines before the block ends are plain exactly when each line is |
| Frontend.EndCommandWord | src/Commands.cpp:55-56 | a trimmed line selects END exactly when it is "END" alone or "END " followed by anything |
| Frontend.EndLineIsEndCommand | src/Commands.cpp:13-56 | the lines that stop the read loop are exactly those whose trimmed command word is END |
| Frontend.KindOfTrimmed | src/Commands.cpp:13-20 | a line has the kind of its trimmed text: blank when nothing is left, otherwise the kind its command gives |
| Frontend.KindOfMeaning | src/Commands.cpp:13-56 | a line is blank exactly when it trims to nothing, an END line exactly when its trimmed text is "END" alone or followed by a space, and a BOARD line exactly when its trimmed command word is BOARD |
| Frontend.KindsAt | src/Commands.cpp:12-21 | the list of kinds holds, at each index, the kind of the input line at that index |
| Frontend.ScheduleBlank | src/Commands.cpp:13-21 | a line that trims to nothing is read without being dispatched |
| Frontend.ScheduleDispatch | src/Commands.cpp:12-21 | a dispatched line, with the line where its command left the loop, extends the record of what the loop read |
| Frontend.FirstDispatched | src/Commands.cpp:12-21 | the first line read that does not trim to nothing is the first line dispatched |
| Frontend.BlankInputDispatchesNothing | src/Commands.cpp:19-21 | when every line trims to nothing, the loop dispatches no line at all |
| Frontend.NoEndEvery | src/Commands.cpp:12-21 | no dispatched line is an END line exactly when every dispatched index is a line of the input whose kind is not END |
| Frontend.ContinuingEvery | src/Commands.cpp:10-23 | the replies let the loop go on exactly when none of them ends the process |
| Frontend.LineTextsSnoc | src/Commands.cpp:10-23 | one more reply adds its line to the output when it prints one, and nothing otherwise |
| Frontend.TracedEntry | src/Commands.cpp:12-21 | entry `i` of the record is what the command on line `dispatched[i]` does: its reply, and the engine state it turns `states[i]` into |
| Frontend.TracedAppend | src/Commands.cpp:12-21 | two records, the second starting in the engine state the first ends in, make one record of all their lines in order |
| Frontend.Commands.constructor | src/Commands.cpp:7-8 | the loop starts running, with a fresh engine: no board, not initialised, and the four INFO parameters 0 |
| Frontend.Commands.SearchReply | src/Commands.cpp:122-123 | the reply is the root search's move as "x,y" and the board its board; an undefined search is reported and changes nothing |
| Frontend.Commands.HandleStart | src/Commands.cpp:69-76 | a bad number aborts; a size of 0 or less gives the error line and changes nothing; otherwise the OK line and an empty n×n board |
| Frontend.Commands.HandleRectStart | src/Commands.cpp:78-94 | no comma gives the error line and changes nothing; a bad number aborts; a bad dimension gives the error line; otherwise the OK line and an empty w×h board |
| Frontend.Commands.HandleRestart | src/Commands.cpp:96-101 | "OK", and an empty board of the same dimensions |
| Frontend.Commands.HandleBegin | src/Commands.cpp:103-109 | the reply is the centre and the board is unchanged |
| Frontend.Commands.HandleTurn | src/Commands.cpp:111-124 | no comma gives the error line and changes nothing; a bad number aborts; otherwise the opponent's stone goes through `updateBoard` and the reply is the root search's move |
| Frontend.Commands.ReadBoardBlock | src/Commands.cpp:131-149 | the loop stops at "DONE", at a line that throws, or at the end of the input, and reports whether it stopped on a closing line; the board is the earlier lines played in order |
| Frontend.Commands.PlayBoardLine | src/Commands.cpp:141-148 | a stone line is played through `updateBoard`; any other line changes nothing |
| Frontend.Commands.HandleBoard | src/Commands.cpp:126-150 | after the block's lines are played, "DONE" gives the root search's reply; a throwing line aborts; with no "DONE" there is no reply |
| Frontend.Commands.HandleInfo | src/Commands.cpp:152-164 | a recognised key stores its value in its own parameter only; an unrecognised key changes nothing; a bad number for a recognised key aborts |
| Frontend.Commands.StoreInfo | src/Commands.cpp:155-163 | the setter of the key stores the value and the other three parameters keep theirs |
| Frontend.Commands.HandleEnd | src/Commands.cpp:166-169 | the read loop stops |
| Frontend.Commands.HandleCommand | src/Commands.cpp:36-60 | the handler is chosen by the exact keyword, and the reply and the whole new engine state are those of that handler (`Handled`): START, RECTSTART, RESTART, BEGIN, TURN and BOARD as in their rows; INFO stores a recognised key; END stops the loop and only END does; ABOUT and unknown words reply with their fixed lines and change nothing; every field a command does not set keeps its value, so the INFO parameters change only under INFO, `initialized` only under START, RECTSTART and RESTART, the dimensions only under START and RECTSTART; only BOARD reads further lines |
| Frontend.Commands.Step | src/Commands.cpp:12-21 | a line that trims to nothing is dropped without effect; any other line is a one-entry record: its reply and the engine state it leaves are what its trimmed text's command does (`Handled`, the BOARD block included) on the state it found; an END line stops the loop, and a line that stops it is an END line that reads nothing more; only a BOARD line reads past itself |
| Frontend.Commands.Advance | src/Commands.cpp:12-21 | one more turn of the loop: a dispatched line joins the record with where its command left the loop, its reply and the engine state its command leaves, chained from the state the record ended in, and the output gains that reply's line; a stopping END line is the last one dispatched and replies nothing; a reply that ends the process is the last reply |
| Frontend.Commands.Run | src/Commands.cpp:10-23 | the record lists the dispatched lines in order, and every other line read trims to nothing; each reply and the engine state after it are what that line's trimmed command does (`Handled`) on the state the previous command left, starting from the engine as `run` found it and ending with the engine as it leaves it; the output is the lines those replies print, in order; the loop reads all input when no END line is dispatched, stops right after the first dispatched END line, and stops right after a command that throws (`Aborted`) or whose search is undefined (`UndefinedBehaviour`); blank input prints nothing and changes nothing |

## Left out

- Standard input and output: input is a sequence of lines, and each handler returns the line it would print.
- Reading input inside `handleBoard` is modelled by passing the remaining lines and returning how many were used.
- 32-bit overflow in the search is not reproduced: integers are unbounded. The root call negates `alpha`, which can be `INT_MIN`; in C++ that negation overflows, which is undefined behaviour.
- The overflow of `evaluate`'s running score on very large boards is not reproduced either.
- The INFO timing parameters are stored and read back, but nothing in the engine uses them, as in the code.
- Memory exhaustion when allocating a huge board is not modelled. A negative dimension (reachable only through `setWidth`/`setHeight`) makes the allocation throw; `InitializeBoard` and `Restart` require non-negative dimensions instead.
- Frontend.Commands.SearchReply: the reply is `Undefined` for every non-square board, although the C++ transposed read goes out of range only for some positions on such boards.
- Search.NegamaxClears: states that every cell ends up unchanged or `NONE`. It does not say which cells the search wrote, and so does not say that unwritten cells are unchanged.
- Search.Negamax, Search.Step, Search.RootStep, Search.RootSearch, Grid.Update, Frontend.Placed, Frontend.PlayLine: their own contracts state only the board's shape. The lemmas next to them state what they compute.
- `handleAbout` is modelled inside `Frontend.Commands.HandleCommand` (its fixed reply line) rather than as a method of its own.
- src/main.cpp and src/Commands.hpp are not part of this model. They cover process start-up and declarations only.
- Concurrency, time limits and the `pbrain` commands this engine does not implement are out of scope, as the code has none of them.
