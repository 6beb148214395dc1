# connect4 rules engine, modelled in Dafny

This project models the rules engine of the `connect4` library (`src/lib.rs`): a
four-in-a-row game on a board of 6 rows and 7 columns, with row 0 at the bottom.

- `pieces.dfy` (module `Pieces`): the two players and `Opponent`, squares and `Taken`,
  turns and `NewTurn` (Rust's `Turn::new`).
- `lines.dfy` (module `Lines`): the lines that `Board::winner` scans. Each family is built
  as the source builds it, from integer ranges that are reversed and zipped. A zip stops at
  the shorter range. `ScanShape` proves that every scanned line is a straight run of cells on
  the board. `ScanGaps` records which lines are missing.
- `rules.dfy` (module `Rules`): the rules as functions on a snapshot of the board (`Grid`,
  `[[Square; COLS]; ROWS]`). It holds the gravity drop, the legal turns, the window test of
  the `connect4` closure, the winner scan and game over. The lemmas about them are here too.
- `board.dfy` (module `Boards`): class `Board` over a 2-D array that turns fill in place.
  Each method is proved equal to its function in `Rules`. `Turns` and `Play` are loops.
  `Winner` calls the loop methods `CollectLines` and `FirstFour`: `CollectLines` pushes
  the lines through one method per source loop, and `FirstFour` scans them. `Over` tests
  the top row, then calls `Winner`. `FindFour` is the `connect4` closure as a loop over
  windows.
- `game.dfy` (module `Game`): class `Connect4`, holding a board and the player to move. Its
  invariant is that the board is settled: no piece stands above an empty square. `Play`
  keeps that invariant.

## Where the code falls short of the game's rules

The model follows the code in each case.

- A complete scan would test every line of four or more cells. `winner` does not:
  - The vertical loop runs over `0..ROWS` (src/lib.rs:161), so the last column is never
    scanned vertically.
  - The up-left/down-right diagonals (src/lib.rs:166-171, 187-193) cover only the
    anti-diagonals with row + col = 3, 4 and 6. The ones with row + col = 5, 7 and 8 are
    never scanned.

  So the model proves that `winner` is sound (`WinnerSound`), and complete only where the
  scan is complete (`WinnerCovers`). `ScanMissesLastColumn` and `ScanMissesAntiDiagonal`
  give settled boards with four in a row and no winner.
- A drop into a full column could leave the turn with the same player. The code does not:
  `Connect4::play` switches the player whatever `Board::play` returned
  (src/lib.rs:63-64). `Game.Connect4.Play` does the same.
- The doc comment of `Board::new` says the board starts with four pieces in the centre.
  The code builds an all-empty board (src/lib.rs:94), and so does the model.

## Model

| member | source | states |
|---|---|---|
| `Pieces.Player.Opponent` | src/lib.rs:277-282 | a player's opponent is never that player |
| `Pieces.OpponentInvolutive` | src/lib.rs:277-282 | the opponent of the opponent is the player |
| `Pieces.Square.Taken` | src/lib.rs:244-249 | a square is taken exactly when it is not `Empty` |
| `Pieces.NewTurn` | src/lib.rs:312-317 | a turn exists exactly when the column is below COLS, and it carries the given player and column unchanged |
| `Lines.RowLine` | src/lib.rs:157-159 | the cells of row r, from column 0 rightwards |
| `Lines.ColLine` | src/lib.rs:161-163 | the cells of column c, from row 0 upwards |
| `Lines.FallingFromLeft` | src/lib.rs:166-172 | `(0..i).rev().zip(0..COLS)`: rows i-1 down to 0 paired with columns 0 onwards, cut at the shorter range |
| `Lines.RisingFromLeft` | src/lib.rs:173-178 | `(i..ROWS).zip(0..COLS)`: rows i to 5 paired with columns 0 onwards, cut at the shorter range |
| `Lines.RisingFromBottom` | src/lib.rs:181-186 | `(i..COLS).zip(0..ROWS)` read as (col, row): columns i to 6 paired with rows 0 onwards |
| `Lines.LeaningFromRight` | src/lib.rs:187-193 | `(i..COLS).rev().zip(0..ROWS)` read as (col, row): columns 6 down to i paired with rows 0 onwards |
| `Lines.ScanLine` | src/lib.rs:153-194 | the i-th of the 36 lines in the order the source pushes them: rows, columns 0-5, the left-edge pairs, the bottom-edge pairs |
| `Lines.RowLineShape` | src/lib.rs:157-159 | row r is the 7 cells from (r, 0) rightwards, all on the board |
| `Lines.ColLineShape` | src/lib.rs:161-163 | column c is the 6 cells from (0, c) upwards, all on the board |
| `Lines.FallingFromLeftShape` | src/lib.rs:166-172 | `(0..i).rev().zip(0..COLS)` is the i cells from (i-1, 0) down and to the right, all on the board |
| `Lines.RisingFromLeftShape` | src/lib.rs:173-178 | `(i..ROWS).zip(0..COLS)` is the ROWS-i cells from (i, 0) up and to the right, all on the board |
| `Lines.RisingFromBottomShape` | src/lib.rs:181-186 | `(i..COLS).zip(0..ROWS)` is the COLS-i cells from (0, i) up and to the right, all on the board |
| `Lines.LeaningFromRightShape` | src/lib.rs:187-193 | `(i..COLS).rev().zip(0..ROWS)` is the COLS-i cells from (0, COLS-1) up and to the left: prefixes of one anti-diagonal |
| `Lines.RowIndex` | src/lib.rs:156-159 | the line pushed r-th is row r, run from (r, 0) rightwards over COLS cells |
| `Lines.ColIndex` | src/lib.rs:160-163 | the line pushed after the rows at offset c is column c, run from (0, c) upwards over ROWS cells |
| `Lines.FallingIndex` | src/lib.rs:164-172 | the first line pushed for i in the left-edge loop is `FallingFromLeft(i)`: i cells from (i-1, 0) down and to the right |
| `Lines.RisingLeftIndex` | src/lib.rs:164-178 | the second line pushed for i in the left-edge loop is `RisingFromLeft(i)`: ROWS-i cells from (i, 0) up and to the right |
| `Lines.RisingBottomIndex` | src/lib.rs:180-186 | the first line pushed for i in the bottom-edge loop is `RisingFromBottom(i)`: COLS-i cells from (0, i) up and to the right |
| `Lines.LeaningIndex` | src/lib.rs:180-193 | the second line pushed for i in the bottom-edge loop is `LeaningFromRight(i)`: COLS-i cells from (0, COLS-1) up and to the left |
| `Lines.ScanShape` | src/lib.rs:153-194 | every scanned line is a straight run of cells that all lie on the board, so no index is out of range |
| `Lines.ScanGaps` | src/lib.rs:161-194 | no scanned vertical line lies in the last column; every scanned anti-diagonal has row + col below 5 or equal to 6 |
| `Rules.Settled` | src/lib.rs:116-126 | no piece stands above an empty square, the invariant that dropping to the lowest empty row keeps |
| `Rules.Place` | src/lib.rs:116-126 | the board after a drop: the lowest empty square of the column gets the player's piece; a full column is left as it is |
| `Rules.LowestEmpty` | src/lib.rs:116-126 | the row found is empty and every square below it in the column is taken; when none is found, the whole column is taken |
| `Rules.PlaceDropsToLowestEmpty` | src/lib.rs:116-126 | a drop into a column with an empty square fills the lowest empty square with the player's piece and changes no other square; in a full column it changes nothing |
| `Rules.FullIffHeight` | src/lib.rs:116-126 | a drop fails exactly when the column already holds ROWS pieces |
| `Rules.HeightBound` | src/lib.rs:116-126 | a column never counts more than ROWS pieces |
| `Rules.PlaceCounts` | src/lib.rs:116-126 | a successful drop adds exactly one piece to its column and none elsewhere; a failed one adds none |
| `Rules.PlaceKeepsSettled` | src/lib.rs:116-126 | if no piece stands above an empty square, that is still so after a drop |
| `Rules.DropSucceedsIffTopEmpty` | src/lib.rs:104 | on a settled board a drop succeeds exactly when the column's top square is empty |
| `Rules.TurnsFrom` | src/lib.rs:98-113 | the turns for the columns from `col` on whose top square is not taken, in column order |
| `Rules.LegalTurns` | src/lib.rs:98-113 | the turns `Board::turns` lists: one per column whose top square is empty, from column 0 |
| `Rules.TurnsFromSound` | src/lib.rs:98-113 | the listed turns all carry the given player, are at most COLS, are in strictly ascending column order, and each is for a column whose top square is empty |
| `Rules.TurnsFromComplete` | src/lib.rs:98-113 | every column whose top square is empty is listed |
| `Rules.LegalTurnsArePlayable` | src/lib.rs:98-126 | on a settled board a column is listed exactly when a drop in it succeeds |
| `Rules.EmptyTurnsFrom` | src/lib.rs:98-113 | on the new board the turns from column c on are c to 6, in order |
| `Rules.EmptyGridTurns` | src/lib.rs:94-113 | on the new board the turns are columns 0 to 6, in order |
| `Rules.DistinctIsOne` | src/lib.rs:142 | a window has exactly one distinct square when all four squares are equal |
| `Rules.WindowOwner` | src/lib.rs:141-147 | a window wins for p only when all four squares are p's pieces, and four equal pieces always win for their owner |
| `Rules.LineWinner` | src/lib.rs:138-151 | the closure reports a player only when some window of the line is four of that player's pieces, and it reports someone whenever such a window exists |
| `Rules.FirstWinner` | src/lib.rs:196-204 | scanning lines in order, a player is reported only for a winning window on one of the lines, and someone is reported whenever such a window exists |
| `Rules.ScannedLineAt` | src/lib.rs:157-193 | square k of a scanned line is the board's square k steps along its straight run, and that cell lies on the board |
| `Rules.FirstWinnerStep` | src/lib.rs:196-204 | the scan either stops at the current line with its winner or moves on to the next line |
| `Rules.ScannedLines` | src/lib.rs:153-194 | the squares of all 36 scanned lines, in push order |
| `Rules.Winner` | src/lib.rs:136-205 | `winner` reports p only when a scanned line has a window of four p pieces, and reports someone whenever a scanned line has one |
| `Rules.ScannedWindowIsFour` | src/lib.rs:138-194 | a winning window of a scanned line is four of the winner's pieces in a straight line on the board |
| `Rules.WinnerSound` | src/lib.rs:136-205 | whoever `winner` reports has four pieces in a straight line |
| `Rules.ScannedWindowWins` | src/lib.rs:138-204 | when the four cells of a scanned window hold p's four in a row, in either order, the scan reports a winner |
| `Rules.RowsCovered` | src/lib.rs:157-159 | four pieces along a row always give a winner |
| `Rules.ColumnsCovered` | src/lib.rs:161-163 | four pieces along a column other than the last always give a winner |
| `Rules.RisingFromLeftCovered` | src/lib.rs:173-178 | four pieces up and to the right, starting on or below the main diagonal, always give a winner |
| `Rules.RisingFromBottomCovered` | src/lib.rs:181-186 | four pieces up and to the right, starting above the main diagonal, always give a winner |
| `Rules.RisingCovered` | src/lib.rs:173-186 | four pieces along any up-right diagonal always give a winner |
| `Rules.LeaningFromRightCovered` | src/lib.rs:187-193 | four pieces up and to the left with row + col = 6 always give a winner |
| `Rules.FallingFromLeftCovered` | src/lib.rs:166-172 | four pieces up and to the left with row + col = 3 or 4 always give a winner, found on the reversed line |
| `Rules.LeaningCovered` | src/lib.rs:166-193 | four pieces along an up-left diagonal with row + col equal to 3, 4 or 6 always give a winner |
| `Rules.WinnerCovers` | src/lib.rs:153-205 | the directions and lines where the scan is complete, together |
| `Rules.WinnerIsTheOnlyFour` | src/lib.rs:196-204 | when the scan covers p's four in a row and the opponent has none, the winner is p |
| `Rules.EmptyGridHasNoWinner` | src/lib.rs:94-147 | the new board has no winner, because all-empty windows never win |
| `Rules.NoScannedFourNoWinner` | src/lib.rs:196-205 | when no window of a scanned line is four pieces of one player, there is no winner |
| `Rules.LastColumnNeverWins` | src/lib.rs:161 | pieces that all stand in the last column never give a winner |
| `Rules.MissingAntiDiagonalNeverWins` | src/lib.rs:165-194 | pieces that all stand on the anti-diagonal row + col = 5, 7 or 8 never give a winner |
| `Rules.ScanMissesLastColumn` | src/lib.rs:161 | a settled board with four Black pieces stacked in the last column has no winner |
| `Rules.SupportedFours` | src/lib.rs:165-194 | on the example board with Black's four on row + col = 5 above White supports, every four in a row is that one |
| `Rules.ScanMissesAntiDiagonal` | src/lib.rs:165-194 | that board is settled and Black has four in a row on it, yet it has no winner |
| `Rules.Over` | src/lib.rs:129-131 | the game is over when every top-row square is taken or there is a winner |
| `Rules.OverIffNoTurnsOrWinner` | src/lib.rs:129-131 | the game is over exactly when no legal turn is left or `winner` reports a player |
| `Rules.EmptyGridSettled` | src/lib.rs:93-95 | the new board is settled |
| `Rules.EmptyGridNotOver` | src/lib.rs:28-35 | a new game is not over |
| `Boards.FindFour` | src/lib.rs:138-151 | the window loop returns what the closure specifies: the owner of the first window of four equal pieces |
| `Boards.Board.constructor` | src/lib.rs:93-95 | the new board is all empty |
| `Boards.Board.Turns` | src/lib.rs:98-113 | the loop-and-push over columns builds exactly the legal turns |
| `Boards.Board.Play` | src/lib.rs:116-126 | the row loop drops the piece in place: it returns whether a drop succeeds and leaves the array equal to the board after the drop |
| `Boards.PushRows` | src/lib.rs:156-159 | the row loop pushes exactly the first ROWS scanned lines |
| `Boards.PushColumns` | src/lib.rs:160-163 | the column loop extends them with the next ROWS scanned lines |
| `Boards.PushLeftDiagonals` | src/lib.rs:164-179 | the left-edge loop extends them with the next 2 * ROWS scanned lines |
| `Boards.PushBottomDiagonals` | src/lib.rs:180-194 | the bottom-edge loop completes all LINES scanned lines |
| `Boards.CollectLines` | src/lib.rs:153-194 | the collected lines are exactly the scanned lines, in source order |
| `Boards.FirstFour` | src/lib.rs:196-205 | the filtered loop over lines returns the first line's winner, as `FirstWinner` specifies |
| `Boards.Board.Winner` | src/lib.rs:136-205 | building the lines in source order and scanning them yields the specified winner |
| `Boards.Board.Over` | src/lib.rs:129-131 | true exactly when the top row is full or there is a winner |
| `Game.Connect4.constructor` | src/lib.rs:28-35 | a new game has an empty, settled board and Black to move |
| `Game.Connect4.CurrentPlayer` | src/lib.rs:48-50 | returns the player to move |
| `Game.Connect4.Turns` | src/lib.rs:53-55 | the legal turns for the player to move; a column is listed exactly when a drop in it succeeds |
| `Game.Connect4.SwitchPlayer` | src/lib.rs:285-287 | the player to move becomes its opponent |
| `Game.Connect4.Play` | src/lib.rs:58-67 | a turn for the wrong player changes nothing and returns false; otherwise the board drops the piece, the player to move becomes the opponent even when the drop failed, and the board stays settled |
| `Game.Connect4.Over` | src/lib.rs:70-72 | the board's game-over verdict |
| `Game.Connect4.Winner` | src/lib.rs:77-79 | the board's winner |

## Left out

- The `Display` implementations (src/lib.rs:37-41, 208-233, 252-266, 290-301, 320-324): text rendering only.
- src/main.rs: the console loop, which does terminal I/O and calls the `gamesweet` crate's `Config`, `Game::main` and its search. It is not part of this model.
- The `gamesweet::Game` trait: foreign code. Its five methods are modelled as members of `Game.Connect4`.
- `itertools::unique`: foreign code. The window test counts the distinct squares of the window as a set.
- `Connect4::new` (src/lib.rs:23-25): it only calls `default`, which the `Connect4` constructor models.
- The derived `Clone`, `Debug` and `PartialEq`, and the placeholder test `it_works` (src/lib.rs:328-332). None of them is game logic.
- `Player::switch` mutates a `Player` in place. Dafny datatypes are values, so it is modelled as `Game.Connect4.SwitchPlayer`, which updates the game's `player` field, its only call site.
- `Board::winner` collects references (`Vec<&Square>`). The model collects the square values from a snapshot of the array. Nothing changes the board while the scan runs.
- `usize` columns are modelled as unbounded naturals. Every column index the code uses is below 7, so no overflow can occur.
