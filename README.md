# five-in-a-row: a Dafny model of the game logic

This project models the sequential game logic of a two-player game played
over HTTP. Players drop discs into the columns of a 6 x 9 board, and five in a
row wins. The model covers four parts:

- **Board** (`board.dfy`, `BoardGrid.java`). A class over an `array2<int>`
  matrix, where -1 is an empty cell and 0 and 1 are the two player IDs.
  - `MakeMove` drops a disc by gravity.
  - The class invariant `Valid()` says that the matrix is 6 x 9 and that no
    disc floats above an empty cell. The constructor establishes it and
    `MakeMove` keeps it, so the win lemmas that assume gravity apply to every
    board the class builds.
  - The hand-derived scans then look for five in a row: horizontal, vertical,
    and ascending and descending diagonals from fixed anchors. The diagonal
    scans are skipped for four pruned cells.
  - Each scan is proved equal to a counter function on the cells it visits.
  - Those cells are proved equal to the geometric rows, columns and diagonals
    of the board. This gives the exact coverage of the scans.
  - The `setWinner` callback into the game manager is the ghost sequence
    `reportedWinners`, with one entry per call.
- **Session** (`session.dfy`, `GameManager.java`). An append-only roster, a
  turn index that flips after every move (even into a full column), and the
  board.
- **Server decisions** (`server.dfy`, `WebServer.java`).
  - An HTTP exchange is reduced to a request record (method, body) and a
    `Response` value.
  - A join is refused when two players are present.
  - The state endpoint names the player whose turn it is.
  - The task endpoint multiplies its operands.
- **Client poller** (`poller.dfy`, `GameRunner.java`).
  - The flag state machine is a class with the source's fields.
  - The inputs are consumed from sequences: the server's replies to state
    checks, and the classified console lines.
  - The outputs are recorded in sequences: the console lines printed and the
    moves sent.
  - Each method is proved equal to a function on a value of the client's
    state (`Client`).
  - The properties the source promises are lemmas about those functions.

The `Text` module (`text.dfy`) models the two `java.lang.String` operations
the decisions use: `equalsIgnoreCase` (ASCII letters only) and `contains`. The
`Optional` module (`optional.dfy`) holds the `Option` type.

Three facts about the code shape the model:
- The descending anchors miss one diagonal of length 5 (see Findings).
- The turn test ignores case (`GameRunner.java:132`).
- The state handler sets only the `X-Player-Turn` header
  (`WebServer.java:96-98`), so the client's state snapshots are inputs.

## Model

| member | source | states |
|---|---|---|
| Text.UpperChar | src/main/java/Client/GameRunner.java:131-135 | the result is never a lower-case ASCII letter; lower-case letters move down by 32, and every other character is unchanged |
| Text.LowerChar | src/main/java/Client/GameRunner.java:131-135 | the result is never an upper-case ASCII letter; upper-case letters move up by 32, and every other character is unchanged |
| Text.Lower | src/main/java/Client/GameRunner.java:131-135 | definition: the reference lowering, each character lowered; `EqualsIgnoreCaseIff` relates it to equalsIgnoreCase |
| Text.CharsMatchIff | src/main/java/Client/GameRunner.java:131-135 | two characters match ignoring case exactly when their lower-case forms are equal |
| Text.EqualsIgnoreCaseIff | src/main/java/Client/GameRunner.java:131-135 | equalsIgnoreCase holds exactly when the lower-cased strings are equal |
| Text.LowerCons | src/main/java/Client/GameRunner.java:131-135 | lowering a string lowers its first character, followed by its rest |
| Text.EqualsIgnoreCaseEquivalence | src/main/java/Client/GameRunner.java:131-135 | equalsIgnoreCase is reflexive, symmetric and transitive |
| Text.QuitWord | src/main/java/Client/GameRunner.java:119 | the quit test accepts exactly "q" and "Q" |
| Text.DifferAt | src/main/java/Client/GameRunner.java:131-135 | strings whose lower-case forms differ at some position are not equal ignoring case |
| Text.ContainsAt | src/main/java/Client/GameRunner.java:53 | an occurrence at any offset makes contains true |
| Text.ContainsWitness | src/main/java/Client/GameRunner.java:53 | when contains is true, an offset of an occurrence exists |
| Text.ContainsIff | src/main/java/Client/GameRunner.java:53 | contains holds exactly when the string occurs at some offset |
| Text.ContainsInfix | src/main/java/Client/GameRunner.java:53 | a + t + b contains t |
| Text.ContainsOfPart | src/main/java/Client/GameRunner.java:53 | what a part contains, the whole contains |
| Board.OutOfBounds | src/main/java/Server/BoardGrid.java:197-199 | true exactly for positions off the 6 x 9 board |
| Board.ClassifySymbol | src/main/java/Server/BoardGrid.java:79-88 | one character: "x" exactly for 0, "o" exactly for 1, " " for anything else |
| Board.TrailingRunMeaning | src/main/java/Server/BoardGrid.java:117-127 | the reset-on-mismatch counter is at least n exactly when the last n values all equal the player |
| Board.HitsIffRun | src/main/java/Server/BoardGrid.java:117-127 | the counter scan reports at least once exactly when the values hold WIN_LENGTH consecutive cells of the player |
| Board.HitsIgnoreShortRun | src/main/java/Server/BoardGrid.java:117-127 | a run shorter than WIN_LENGTH after a reset adds no report, and it leaves the counter at its length |
| Board.HitsSpacing | src/main/java/Server/BoardGrid.java:117-127 | reports are at least WIN_LENGTH + 1 cells apart |
| Board.HitsAtMostOnce | src/main/java/Server/BoardGrid.java:117-127 | a line of at most 10 cells, such as a row of 9, is reported at most once |
| Board.LinePath | src/main/java/Server/BoardGrid.java:161-195 | the cells a line scan visits: at most the number of steps, all on the board |
| Board.Values | src/main/java/Server/BoardGrid.java:161-195 | the values read along a path, one per cell, in order |
| Board.AnchorsHitsStep | src/main/java/Server/BoardGrid.java:138-153 | scanning one more anchor adds that line's reports |
| Board.DescAnchorAt | src/main/java/Server/BoardGrid.java:148-153 | searchDescending has 5 anchors, the i-th at (5, 9 - i) |
| Board.AnchorsHitsFrom | src/main/java/Server/BoardGrid.java:138-153 | one reporting anchor makes the whole family report |
| Board.AnchorsHitsPrefix | src/main/java/Server/BoardGrid.java:138-153 | the scans of the first anchors report no more than the whole family |
| Board.AnchorsHitsWitness | src/main/java/Server/BoardGrid.java:138-153 | a reporting family has a reporting anchor |
| Board.AnchorsHitsPositive | src/main/java/Server/BoardGrid.java:138-153 | a family reports exactly when one of its anchors does |
| Board.AntiDiagonal | src/main/java/Server/BoardGrid.java:138-143 | the cells with row + col = s, all on the board, and how many there are |
| Board.AntiDiagonalComplete | src/main/java/Server/BoardGrid.java:138-143 | every board cell with row + col = s is on the line, which climbs one row per column |
| Board.Diagonal | src/main/java/Server/BoardGrid.java:148-153 | the cells with row - col = d, all on the board, and how many there are |
| Board.DiagonalComplete | src/main/java/Server/BoardGrid.java:148-153 | every board cell with row - col = d is on the line, which climbs one row per column leftwards |
| Board.LongAntiDiagonals | src/main/java/Server/BoardGrid.java:138-143 | an anti-diagonal holds 5 or more cells exactly when 4 <= s <= 9 |
| Board.LongDiagonals | src/main/java/Server/BoardGrid.java:148-153 | a diagonal holds 5 or more cells exactly when -4 <= d <= 1 |
| Board.WinningDiagLineImpossible | src/main/java/Server/BoardGrid.java:205-207 | definition: the four cells (2,0), (3,0), (2,8), (3,8); `PruningIsExact` proves they are the cells on no long diagonal |
| Board.PruningIsExact | src/main/java/Server/BoardGrid.java:205-207 | the four pruned cells are exactly the board cells on no diagonal or anti-diagonal of length 5 or more |
| Board.LinePathOff | src/main/java/Server/BoardGrid.java:161-195 | a scan that has left the board through its top or its far side reads nothing more |
| Board.LinePathStraight | src/main/java/Server/BoardGrid.java:161-195 | from a board cell, a scan reads the straight line from that cell, up to the edge or the step bound |
| Board.LinePathLength | src/main/java/Server/BoardGrid.java:161-195 | from a board cell, a scan reads as many cells as the step bound and the board's edge allow |
| Board.LinePathCells | src/main/java/Server/BoardGrid.java:161-195 | from a board cell, the k-th cell a scan reads is k steps along its direction |
| Board.AscendingLine | src/main/java/Server/BoardGrid.java:138-174 | the j-th ascending anchor reads exactly the anti-diagonal row + col = 4 + j; off-board steps are skipped without moving the row |
| Board.DescendingLine | src/main/java/Server/BoardGrid.java:148-195 | the j-th anchor of the corrected descending family reads exactly the diagonal row - col = j - 4 |
| Board.DescAnchorsArePrefix | src/main/java/Server/BoardGrid.java:148-153 | the source's descending anchors are the corrected family minus its last anchor, (5, 4) |
| Board.RunNeedsLength | src/main/java/Server/BoardGrid.java:117-127 | a run of five needs a line of at least five cells |
| Board.AscendingScanDetects | src/main/java/Server/BoardGrid.java:138-143 | the ascending family reports exactly when some anti-diagonal holds five in a row |
| Board.AscendingScanSound | src/main/java/Server/BoardGrid.java:138-143 | a report of the ascending family means some anti-diagonal holds a run |
| Board.AscendingScanComplete | src/main/java/Server/BoardGrid.java:138-143 | a run on any anti-diagonal makes the ascending family report |
| Board.FixedLineHitsIff | src/main/java/Server/BoardGrid.java:148-195 | an anchor of the corrected family reports exactly when its diagonal holds a run |
| Board.DescendingScanDetects | src/main/java/Server/BoardGrid.java:148-153 | the source's descending family reports exactly when a diagonal with -4 <= row - col <= 0 holds a run; row - col = 1 is not scanned |
| Board.DescendingScanSound | src/main/java/Server/BoardGrid.java:148-153 | a report of the source's descending family means a diagonal with -4 <= row - col <= 0 holds a run |
| Board.DescendingScanComplete | src/main/java/Server/BoardGrid.java:148-153 | a run on a diagonal with -4 <= row - col <= 0 makes the source's descending family report |
| Board.DescAnchorIsFixed | src/main/java/Server/BoardGrid.java:148-153 | each anchor of the source's descending loop is the anchor at the same index of the corrected loop |
| Board.FixedDescendingScanSound | src/main/java/Server/BoardGrid.java:148-153 | a report of the corrected family means some diagonal holds a run |
| Board.FixedDescendingScanComplete | src/main/java/Server/BoardGrid.java:148-153 | any diagonal run makes the corrected family report |
| Board.FixedDescendingScanDetects | src/main/java/Server/BoardGrid.java:148-153 | the corrected family reports exactly when some diagonal holds five in a row |
| Board.EmptyGrid | src/main/java/Server/BoardGrid.java:60-66 | definition: 6 x 9 cells, all -1; `InitializeMatrix` is proved to build it |
| Board.EmptyGridGravity | src/main/java/Server/BoardGrid.java:60-66 | the empty board obeys gravity, so every board the class builds does |
| Board.GravityBelow | src/main/java/Server/BoardGrid.java:37-52 | on a board under gravity, every cell below a disc holds a disc |
| Board.DropRow | src/main/java/Server/BoardGrid.java:46-52 | the bottom-up search returns the lowest empty row, with every row below it occupied, or nothing when every row is occupied |
| Board.Drop | src/main/java/Server/BoardGrid.java:44-54 | the board after the drop keeps its shape |
| Board.DropLandsOnStack | src/main/java/Server/BoardGrid.java:44-54 | under gravity a column is full exactly when its top cell holds a disc, and the landing cell and all above it are empty |
| Board.DropPreservesGravity | src/main/java/Server/BoardGrid.java:44-54 | a drop keeps every column a block of empties above a block of discs |
| Board.Column | src/main/java/Server/BoardGrid.java:100-111 | definition: the 6 values of a column, top to bottom; `VerticalScanComplete` relates the scan to it |
| Board.VerticalScanComplete | src/main/java/Server/BoardGrid.java:100-111 | when the new disc tops its column, the vertical scan reports exactly when the column holds five in a row |
| Board.MoveReports | src/main/java/Server/BoardGrid.java:44-94 | every setWinner report of a move names the mover |
| Board.ValuesAvoiding | src/main/java/Server/BoardGrid.java:44-52 | a path that avoids the changed cell reads the same values |
| Board.MoveReportsIff | src/main/java/Server/BoardGrid.java:44-133 | a move reports exactly when its row or its column holds a run, or, off the pruned cells, some anti-diagonal or a diagonal with -4 <= row - col <= 0 does |
| Board.PrunedCellAddsNoRun | src/main/java/Server/BoardGrid.java:205-207 | a line through the changed cell shorter than five gains no run |
| Board.OnLine | src/main/java/Server/BoardGrid.java:138-153 | members of AntiDiagonal(s) and Diagonal(d) satisfy their equations |
| Board.PrunedMoveAntiDiagonal | src/main/java/Server/BoardGrid.java:129-133 | a disc on a pruned cell creates no anti-diagonal run |
| Board.PrunedMoveDiagonal | src/main/java/Server/BoardGrid.java:129-133 | a disc on a pruned cell creates no diagonal run |
| Board.DropChangesOneCell | src/main/java/Server/BoardGrid.java:44-52 | the drop writes the mover into the landing cell and changes no other cell, row or column |
| Board.NewWinThroughMove | src/main/java/Server/BoardGrid.java:90-133 | a win created by a move shows in its row, its column or, off the pruned cells, a diagonal line |
| Board.FixedMoveDetectsWin | src/main/java/Server/BoardGrid.java:90-153 | with the corrected descending bound, a move on an undecided board reports exactly when it wins |
| Board.BlockedRun | src/main/java/Server/BoardGrid.java:117-127 | a foreign cell at a position every run of five must cover rules out a run |
| Board.MissedBoardShape | src/main/java/Server/BoardGrid.java:148-153 | the counterexample board is well shaped and obeys gravity |
| Board.ShortLineNoRun | src/main/java/Server/BoardGrid.java:117-127 | a line shorter than five holds no run |
| Board.BlockedLine | src/main/java/Server/BoardGrid.java:117-127 | a foreign cell that every window must cover blocks a line |
| Board.MissedBoardRowsAndColumns | src/main/java/Server/BoardGrid.java:148-153 | the counterexample board has no run in any row or column |
| Board.MissedBoardAntiDiagonal | src/main/java/Server/BoardGrid.java:148-153 | no anti-diagonal run before or after the missed move |
| Board.MissedBoardDiagonal | src/main/java/Server/BoardGrid.java:148-153 | no diagonal run before the move, and none after it except on row - col = 1 |
| Board.NotWon | src/main/java/Server/BoardGrid.java:90-153 | a board with no run on any line is not won |
| Board.MissedBoardAntiDiagonals | src/main/java/Server/BoardGrid.java:148-153 | the counterexample board has no anti-diagonal run |
| Board.MissedBoardDiagonals | src/main/java/Server/BoardGrid.java:148-153 | the counterexample board has no diagonal run |
| Board.MissedBoardUndecided | src/main/java/Server/BoardGrid.java:148-153 | nobody has won the counterexample board |
| Board.MissedMoveScansNoRun | src/main/java/Server/BoardGrid.java:90-153 | after the move, none of the lines the source scans holds a run |
| Board.MissedMoveLands | src/main/java/Server/BoardGrid.java:44-52 | the move lands on the bottom row of column 4 |
| Board.MissedMoveWins | src/main/java/Server/BoardGrid.java:148-153 | after the move, player 0 has five in a row |
| Board.DescendingScanMissesWin | src/main/java/Server/BoardGrid.java:150 | a winning move on (5, 4) completes (1,0)..(5,4), yet the as-written scans report nothing; the corrected scans report it |
| Board.RowText | src/main/java/Server/BoardGrid.java:25-35 | three characters per cell: "[", the cell's glyph, "]" |
| Board.GridText | src/main/java/Server/BoardGrid.java:25-35 | one line of 28 characters per row |
| Board.GridTextCell | src/main/java/Server/BoardGrid.java:25-35 | the glyph of cell (r, j) sits at offset 28r + 3j + 1 |
| Board.GridTextNewline | src/main/java/Server/BoardGrid.java:25-35 | every line ends with a newline |
| Board.GlyphDetermines | src/main/java/Server/BoardGrid.java:79-88 | on the values -1, 0, 1 the glyph determines the value |
| Board.GridTextDetermines | src/main/java/Server/BoardGrid.java:25-35 | the text determines the board, so the rendering loses nothing |
| Board.BoardGrid.constructor | src/main/java/Server/BoardGrid.java:17-20 | a fresh 6 x 9 matrix, all cells -1, obeying gravity, and no reports |
| Board.BoardGrid.InitializeMatrix | src/main/java/Server/BoardGrid.java:60-66 | every cell becomes -1, and the board then obeys gravity |
| Board.BoardGrid.GetValueAtPosition | src/main/java/Server/BoardGrid.java:68-70 | the value of the cell |
| Board.BoardGrid.GetGridAsText | src/main/java/Server/BoardGrid.java:25-35 | the accumulated text is GridText of the board: 6 lines of 28 characters |
| Board.BoardGrid.RowAsText | src/main/java/Server/BoardGrid.java:28-31 | the inner loop's text for row i is RowText of that row: each glyph in brackets, in column order |
| Board.BoardGrid.MakeMove | src/main/java/Server/BoardGrid.java:44-54 | the matrix becomes the drop of the disc, and the reports are those of the move; a full column changes nothing and reports nothing; gravity is kept |
| Board.BoardGrid.CheckForWinningLine | src/main/java/Server/BoardGrid.java:90-94 | the reports of the three scans are appended |
| Board.BoardGrid.SearchVertically | src/main/java/Server/BoardGrid.java:100-111 | no report above row 1; otherwise one report exactly when rows row..row+4 of the column all hold the player |
| Board.BoardGrid.SearchHorizontally | src/main/java/Server/BoardGrid.java:117-127 | at most one report, given exactly when the row holds five in a row |
| Board.BoardGrid.SearchDiagonally | src/main/java/Server/BoardGrid.java:129-133 | nothing on a pruned cell; otherwise the reports of both families |
| Board.BoardGrid.SearchAscending | src/main/java/Server/BoardGrid.java:138-143 | reports exactly when some anti-diagonal holds a run |
| Board.BoardGrid.SearchDescending | src/main/java/Server/BoardGrid.java:148-153 | reports exactly when a diagonal with -4 <= row - col <= 0 holds a run |
| Board.BoardGrid.SearchAscLine | src/main/java/Server/BoardGrid.java:161-174 | the counter scan's reports along the cells the loop visits |
| Board.BoardGrid.SearchDescLine | src/main/java/Server/BoardGrid.java:182-195 | the counter scan's reports along the cells the loop visits |
| Session.Flip | src/main/java/Server/GameManager.java:48-54 | the new turn is 0 or 1, and it differs from a turn in {0, 1} |
| Session.FlipTwice | src/main/java/Server/GameManager.java:48-54 | two flips restore a turn in {0, 1} |
| Session.JoinNamesAppend | src/main/java/Server/GameManager.java:23-29 | the listing of a concatenated roster is the concatenation of the listings |
| Session.JoinNamesSingle | src/main/java/Server/GameManager.java:23-29 | one player is listed as the name and a space |
| Session.JoinNamesLength | src/main/java/Server/GameManager.java:23-29 | the listing has the names' characters plus one space per player |
| Session.TwoPlayerListing | src/test/java/GameManagerTest.java:33-37 | the two-player roster lists as "Player 1 Player 2 " |
| Session.GameManager.constructor | src/main/java/Server/GameManager.java:15-17 | no players, turn 0, an empty board and no reports |
| Session.GameManager.AddPlayer | src/main/java/Server/GameManager.java:19-21 | the name is appended with no capacity or duplicate check; the turn is unchanged |
| Session.GameManager.GetPlayers | src/main/java/Server/GameManager.java:23-29 | the accumulated string is the listing of the roster in insertion order |
| Session.GameManager.HandlePlayerMove | src/main/java/Server/GameManager.java:31-34 | the board moves for the pre-flip turn, which becomes the board's playerID, and the turn flips even on a full column |
| Session.GameManager.GetBoardStateAsText | src/main/java/Server/GameManager.java:36-38 | the board's text |
| Session.GameManager.GetPlayerTurn | src/main/java/Server/GameManager.java:40-42 | the name at the turn index; nothing (the index exception) exactly when the roster is too short |
| Session.GameManager.NumberOfPlayers | src/main/java/Server/GameManager.java:44-46 | the size of the roster |
| Session.GameManager.SwitchPlayerTurn | src/main/java/Server/GameManager.java:48-54 | the turn flips, and it stays the parity of the moves handled |
| Server.Admit | src/main/java/Server/networking/WebServer.java:111-121 | earlier players keep their places; exactly one name, the joiner's, is added exactly when the game is not full; a roster of at most two stays at most two |
| Server.RefusalIffFull | src/main/java/Server/networking/WebServer.java:111-124 | the join reply is "Sorry, the game is full." exactly when two players were present |
| Server.AdmitAllBounded | src/main/java/Server/networking/WebServer.java:111-121 | from at most two players, any run of joins keeps at most two |
| Server.AdmitAllFromEmpty | src/main/java/Server/networking/WebServer.java:111-121 | from an empty roster, the players are the first two to join, in order |
| Server.ProductAppend | src/main/java/Server/networking/WebServer.java:150-162 | the product of a concatenation is the product of the products |
| Server.ProductZero | src/main/java/Server/networking/WebServer.java:150-162 | the product is zero exactly when an operand is zero |
| Server.WebServer.constructor | src/main/java/Server/networking/WebServer.java:28-31 | a new session with no players and turn 0 |
| Server.WebServer.GameIsFull | src/main/java/Server/networking/WebServer.java:177-179 | true exactly when two players are present |
| Server.WebServer.HandleStatusCheckRequest | src/main/java/Server/networking/WebServer.java:75-87 | a non-GET is closed; a GET gets the game-info header and the alive message |
| Server.WebServer.HandleGameStateCheckRequest | src/main/java/Server/networking/WebServer.java:90-101 | a non-GET is closed; a GET gets the turn header naming the player whose turn it is, or fails when that player has not joined |
| Server.WebServer.HandleJoinRequest | src/main/java/Server/networking/WebServer.java:103-125 | a non-POST is closed with the roster unchanged; a POST gets the refusal when full, otherwise the body is admitted and the reply lists the roster; the turn is unchanged |
| Server.WebServer.HandleTaskRequest | src/main/java/Server/networking/WebServer.java:127-148 | a non-POST is closed; a POST gets the product of its operands |
| Server.WebServer.CalculateResponse | src/main/java/Server/networking/WebServer.java:150-162 | the accumulator loop computes the product of the operands, starting from 1 |
| Poller.Client.TimeToMakeAMove | src/main/java/Client/GameRunner.java:187-189 | definition: our turn, not waiting and not deciding; `NextMoveEffect` and `RunInvariant` use it |
| Poller.WinnerMessage | src/main/java/Client/GameRunner.java:151-155 | definition: congratulations for an exactly equal name, otherwise the sorry message; `WinnerMessageOther` and `WinnerTestIsCaseSensitive` are about it |
| Poller.ReadHeader | src/main/java/Client/GameRunner.java:130-139 | definition: the lambda on one header; `ReadHeaderEffect` and `HeaderKindUnique` state each branch |
| Poller.Send | src/main/java/Client/GameRunner.java:106-110 | definition: the send branch and the flag resets; `NextMoveEffect` states its effect |
| Poller.JoinStep | src/main/java/Client/GameRunner.java:50-61 | definition: joinGame on the typed name and the reply; `FullReplyStopsClient`, `RefusalStopsClient` and `JoinCheckMisfires` are about it |
| Poller.ReadHeaders | src/main/java/Client/GameRunner.java:129-140 | once the client has exited it stays exited |
| Poller.ReadHeadersExit | src/main/java/Client/GameRunner.java:129-158 | after an exit no further header is read, and a winner is announced only together with an exit |
| Poller.CheckState | src/main/java/Client/GameRunner.java:88-94 | the client stops (no reply left) or one reply is consumed; a stopped client stays stopped |
| Poller.WaitingCheck | src/main/java/Client/GameRunner.java:179-185 | the client stops or one reply is consumed; a stopped client stays stopped |
| Poller.ColumnChoice | src/main/java/Client/GameRunner.java:113-122 | a column or a quit consumes between 1 and all of the typed lines |
| Poller.ColumnChoiceMeaning | src/main/java/Client/GameRunner.java:113-122 | the chosen column is in 1..9 and is the last line read; a quit is the last line read; every earlier line, and every line when input runs out, was a number outside 1..9 |
| Poller.Choose | src/main/java/Client/GameRunner.java:113-122 | the client stops exactly when no column was chosen; replies and moves are untouched |
| Poller.NextMove | src/main/java/Client/GameRunner.java:100-111 | consumes no extra replies beyond its state check, and a stopped client stays stopped |
| Poller.PollOnce | src/main/java/Client/GameRunner.java:63-76 | every pass by a running client lowers the measure: a reply is consumed or the client stops |
| Poller.Run | src/main/java/Client/GameRunner.java:63-76 | the loop ends with the game over or the client stopped |
| Poller.HeaderNamesDistinct | src/main/java/Client/GameRunner.java:27-29 | the three header names differ even ignoring case |
| Poller.HeaderKindUnique | src/main/java/Client/GameRunner.java:131-135 | a header name matches at most one of the three names |
| Poller.ReadHeaderEffect | src/main/java/Client/GameRunner.java:129-140 | the turn header sets isOurTurn to whether it names this player, ignoring case; the waiting header sets waitingForOpponent to whether it says "true", ignoring case; an empty winner header changes nothing; any other winner header announces, prints and exits |
| Poller.ReadHeadersStopped | src/main/java/Client/GameRunner.java:129-140 | after the exit, the remaining headers change nothing |
| Poller.ReadHeadersStep | src/main/java/Client/GameRunner.java:129-140 | one more header while the client runs is one application of the header rule |
| Poller.WinnerTestIsCaseSensitive | src/main/java/Client/GameRunner.java:129-158 | "Bob" plays on a turn header naming "BOB", yet is told that "BOB" won as if that were someone else |
| Poller.WinnerMessageOther | src/main/java/Client/GameRunner.java:151-155 | a winner whose name differs from the player's, even only in case, gets no congratulations |
| Poller.WaitingMessageLatch | src/main/java/Client/GameRunner.java:179-185 | the waiting message is printed only while waiting and not yet shown, and then the latch is set; a set latch stays set |
| Poller.WaitingMessageOnce | src/main/java/Client/GameRunner.java:179-185 | after the waiting message, the next waiting check prints none |
| Poller.NextMoveEffect | src/main/java/Client/GameRunner.java:100-111 | a running client's move is sent only when the re-check says the opponent is there; it is a typed column in 1..9; deciding and the latch end false |
| Poller.CheckStateInvariant | src/main/java/Client/GameRunner.java:88-94 | state checks keep the invariant: sent moves in 1..9, and an announced winner or a full game means exited |
| Poller.NextMoveInvariant | src/main/java/Client/GameRunner.java:100-111 | makeNextMove keeps the invariant |
| Poller.PollOnceInvariant | src/main/java/Client/GameRunner.java:63-76 | one pass of the loop keeps the invariant |
| Poller.RunStep | src/main/java/Client/GameRunner.java:63-76 | a running client polls once more |
| Poller.RunInvariant | src/main/java/Client/GameRunner.java:63-76 | the whole loop keeps the invariant |
| Poller.FullReplyStopsClient | src/main/java/Client/GameRunner.java:53-57 | a reply containing "full" sets isGameFull and exits before any state check, with no reply consumed and no move sent |
| Poller.RefusalStopsClient | src/main/java/Client/GameRunner.java:53-57 | the server's refusal does stop the client |
| Poller.JoinCheckMisfires | src/main/java/Client/GameRunner.java:53 | "fullback" is admitted by the server and not refused, yet the client stops as if the game were full |
| Poller.RefusalTestExact | src/main/java/Server/networking/WebServer.java:111-124 | the intended test (reply equals the refusal) stops the client exactly when two players were present |
| Poller.ChoiceAfterRejects | src/main/java/Client/GameRunner.java:113-122 | after u rejected lines, the next line decides: out of input, quit, or that column |
| Poller.ChooseFrame | src/main/java/Client/GameRunner.java:113-122 | the column prompt changes only the console position, failed and exited |
| Poller.ChooseByFields | src/main/java/Client/GameRunner.java:113-122 | the prompt's effect field by field is Choose |
| Poller.GameRunner.constructor | src/main/java/Client/GameRunner.java:31-48 | the initial flags: not our turn, waiting, not deciding, not full, not over, nothing printed or sent |
| Poller.GameRunner.JoinGame | src/main/java/Client/GameRunner.java:50-61 | the fields become JoinStep of the old state, and the invariant holds |
| Poller.GameRunner.RunGame | src/main/java/Client/GameRunner.java:63-76 | the fields become Run of the old state, and the invariant holds |
| Poller.GameRunner.CheckGameState | src/main/java/Client/GameRunner.java:88-94 | the fields become CheckState of the old state |
| Poller.GameRunner.AnalyseHeaders | src/main/java/Client/GameRunner.java:129-140 | the flags become ReadHeaders of the old flags; nothing else changes |
| Poller.GameRunner.AnalyseHeader | src/main/java/Client/GameRunner.java:130-139 | the flags become ReadHeader of the old flags for this header |
| Poller.GameRunner.AnnounceWinner | src/main/java/Client/GameRunner.java:148-158 | winnerAnnounced and exited set, and the winner message printed |
| Poller.GameRunner.ConditionalWaitingMessage | src/main/java/Client/GameRunner.java:179-185 | the fields become WaitingCheck of the old state |
| Poller.GameRunner.RequestColumnChoice | src/main/java/Client/GameRunner.java:113-122 | on a column, that column is returned and exactly the lines read are consumed; on a quit, the lines are consumed and the client exits; when input runs out, the client fails |
| Poller.GameRunner.GetInput | src/main/java/Client/GameRunner.java:169-174 | the next line and the rest of the input, or nothing when input has run out |
| Poller.GameRunner.MakeNextMove | src/main/java/Client/GameRunner.java:100-111 | the fields become NextMove of the old state |
| Poller.GameRunner.RecheckAndSend | src/main/java/Client/GameRunner.java:103-110 | a state check, then Send when the client still runs |
| Poller.GameRunner.SendMove | src/main/java/Client/GameRunner.java:106-110 | the move and the sent message are added only when not waiting; deciding and the latch become false |
| Poller.GameRunner.EndGame | src/main/java/Client/GameRunner.java:200-202 | gameOver becomes true and nothing else changes |

## Left out

- HTTP transport is left out on both sides: `sendResponse`, the HTTP server setup, `WebClient`, and futures. So is the `X-Debug` timing header of the task endpoint. Requests and replies are records.
- Concurrency is left out. The thread pool and the unsynchronised shared session become strictly sequential calls.
- The client's I/O is left out:
  - The `sleep` between polls and the text of the prompts are not modelled, and neither is the welcome line.
  - The name prompt of `joinGame` and the join request are parameters of `JoinGame` (the typed name and the reply).
  - `System.exit` is the `exited` flag. A client that has exited takes no further step.
- Console lines are classified tokens: a number, or a line equal to "q" ignoring case. `Integer.parseInt` failing on other text is not modelled. A closed console (`readLine` returning null, then a NullPointerException) is the `failed` flag. So is a state check when no reply is left.
- Poller.GameRunner.AnalyseHeaders reads the headers in the order of a sequence. The source iterates the `Map` view of `java.net.http.HttpHeaders` (`GameRunner.java:130`), whose iteration order the source does not fix.
- `calculateResponse` takes its operands as a sequence of integers. The split on commas, the `BigInteger` parse exceptions and the decimal rendering of the result are not modelled.
- Session.GameManager.boardGrid has no back-reference to the game manager. `GameManager.java:16` calls a `BoardGrid` constructor without arguments, which `BoardGrid.java:17` does not declare. `setWinner` is called at `BoardGrid.java:110,125,171,192` but does not exist in `GameManager.java`, so each call is one entry of the ghost `reportedWinners`.
- `removePlayer`, `getWinner` and `setBoardGrid` are called by the tests but do not exist in `GameManager.java`, so they are not modelled.
- Board.BoardGrid.MakeMove requires a column in 0..8. Board.BoardGrid.GetValueAtPosition requires a cell on the board. In both cases the source throws an index exception otherwise; the model does not give that exception a value.
- The "Column is full." console line of `makeMove` is not recorded.
- The server's `/move` endpoint is not part of the shown server code, so the path from a sent move to `handlePlayerMove` is not modelled.
- `ShutdownHook.java` is not part of this model. Its guard is left out: it does nothing when the client did not join or a winner was announced (`ShutdownHook.java:22`). Otherwise it calls `endGame`, modelled as Poller.GameRunner.EndGame, and POSTs the player's name to a quit endpoint (`ShutdownHook.java:24-26`). That request is not modelled, and the shown `WebServer.java` creates no handler for it (`WebServer.java:55-58`).
- Case mapping in `equalsIgnoreCase` covers the ASCII letters only.

## Findings

| source | as written | input that shows it | evidently intended | confidence | as-written member | corrected member |
|---|---|---|---|---|---|---|
| src/main/java/Server/BoardGrid.java:150 | `col > WIN_LENGTH-1` | Player 0 holds (1,0), (2,1), (3,2) and (4,3), and drops into column 4, landing on (5,4). This completes the diagonal row - col = 1. No scan reports it. | `col >= WIN_LENGTH-1`, which also scans from (5,4) and so covers every diagonal of length 5 or more. | not executed | Board.DescendingScanMissesWin | Board.FixedMoveDetectsWin |
| src/main/java/Client/GameRunner.java:53 | `joinResult.contains("full")` | A player named "fullback" joins an empty game. The server admits the player, and the reply repeats the name. The client then stops as if the game were full, and the seat stays taken. | The client stops only on the server's refusal, "Sorry, the game is full." | not executed | Poller.JoinCheckMisfires | Poller.RefusalTestExact |
