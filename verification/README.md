# Chess GUI core: render map, game log and engine session

A model of the logic inside a Qt chess program. The painting, the dialogs,
the rules engine and the engine process are left out. Three pieces of logic
remain.

- **The board** (`chessboard.cpp`). The display board is a render map from
  piece keys such as `"w a pawn"` to drawing cells. A live move redraws the
  map, including captures, en passant, promotion to a queen and castling, and
  writes a record of the move to the user's file. A review steps through a
  recorded game backward and forward. It uses two record stacks and four side
  stacks for the captured pieces. A sliding ten-entry window of FEN fields
  detects threefold repetition. The game-over check runs at the start of
  each turn, and `gameOver` resets the board.
- **The user's game log** (`userinformation.cpp`). The writers append move
  records and result records to a personal file. The reader in
  `promptForReview` turns a game line back into a forward stack, the user's
  colour and the opponent's elo. The integer prompts (game mode, game number,
  opponent elo) accept or refuse the typed text.
- **The engine session** (`runstockfish.h`). This is the UCI wrapper:
  `start`, `stop`, `setElo`, `bestMove` and `markNewGame`. It also covers
  `send` and `isReady`, and the line framing of the receive buffer in
  `waitFor` and `waitBestMove`.

Modules, in dependency order:

- `Base`: options, results and stacks.
- `Strings`: the two trims, splitting and joining, substring tests, and the
  QString key order.
- `Numbers`: `std::to_string` and `std::stoi`.
- `Coords`: display points, square indices and square names.
- `Fen`: the six FEN fields.
- `RenderMap`: the map and its lookups.
- `Records`: the text of move records and how the review classifies them.
- `LiveMove`: the live-game update.
- `Repetition`: the threefold window.
- `Review` and `Replay`: review steps and their round trips.
- `Outcomes`: what each ending announces.
- `GameLog`: the writers and the reader.
- `Game`: the turn boundary and `gameOver`.
- `Prompts`: the integer prompts.
- `UciFrame`: buffer framing.
- `Uci`: the engine session.

The outside world becomes parameters:

- The rules engine's answers are a FEN record and a `Report` about the
  position it holds (no legal move, in check, insufficient material).
- The engine process is an `Env`: the outcome of each write, the chunks of
  output in order, and how many chunks each wait receives before its
  deadline.
- A prompt's dialog is the text typed into it.
- A file is the string it holds.

Modelling choices:

- **Key order.** A QMap is iterated in key order, so "the first key found at
  a cell" is the least key under QString order (`Strings.Less`). The model
  keeps that choice wherever the source stops at its first hit.
- **Square names.** `guiToFen` is declared outside the files this model
  covers. It is modelled as the table from a point `(x, y)` to the file
  letter of `x` followed by the rank digit `8 - y`. `fenToGui` is its
  inverse, and answers `(-1, -1)` for a name not in the table.
- **Crashes.** An uncaught exception is a `Crash` result: `std::stoi` on a
  bad elo tail, or `substr` beyond the end of a record.
- **Threefold timing.** The flag is raised by the move that completes the
  ten-entry pattern, and the draw is recorded at the next call.
- **Legal-move list.** The two tests for no legal move at the start of
  `mousePressGame` read the cached `legalMoves`, not the engine. The list is
  filled before the move the call makes, so after a move it describes the
  position before it. A mate is therefore recorded one call late
  (`Game.MateSeenOneCallLate`). A later test that fires first ends the game
  before the mate is seen: a mate on the hundredth half-move is logged as a
  fifty-move draw (`Game.MateOnHundredLoggedAsFifty`). `Game.Live` carries
  whether the list is empty, and `gameOver` refills it for the start
  position.

## Model

| member | source | states |
|---|---|---|
| Strings.TrimWith | userinformation.cpp:13-17 | the result is the contiguous part of the input after the leading white-space run, with no white space at either end, and empty exactly when the input is all white space |
| Strings.TrimIdempotent | userinformation.cpp:13-17 | trimming a trimmed text changes nothing |
| Strings.TrimUnique | userinformation.cpp:13-17 | any white-space padding around a text that neither starts nor ends with white space trims back to exactly that text |
| Strings.JoinPieces | userinformation.cpp:220-227 | joining the pieces of a text split at a separator gives the text back |
| Strings.PiecesJoin | userinformation.cpp:220-227 | splitting a join of separator-free pieces gives the pieces back |
| Strings.Least | chessboard.cpp:96-102 | every non-empty set of keys has a first key in QString order, which precedes all the others |
| Numbers.Stoi | userinformation.cpp:204-206 | a number is read only from a text that holds a digit, and a number read always lies in the 32-bit range |
| Numbers.StoiOfIntToString | userinformation.cpp:456-458 | reading a number written by `std::to_string` gives the number back |
| Numbers.NatToStringValue | userinformation.cpp:456-458 | the decimal digits written for a number denote that number |
| Coords.SquareFromQt | chessboard.cpp:14-20 | every board point maps to a square index from 0 to 63 |
| Coords.QtFromSquare | chessboard.cpp:35-44 | a square index maps onto the board exactly when it is below 64 |
| Coords.QtFromSquareInverse | chessboard.cpp:14-44 | every board point survives the trip to a square index and back |
| Coords.SquareFromQtInverse | chessboard.cpp:14-44 | every square index survives the trip to a display point and back |
| Coords.QtFromMove | chessboard.cpp:23-32 | the point of a move is the point of its destination square |
| Coords.PieceTypeName | chessboard.cpp:47-55 | the name is empty exactly for an empty square, and otherwise four to six letters |
| Coords.FenToGui | chessboard.cpp:58-64 | the answer is a point the table names with the given name, and is the not-found point exactly when no point has that name |
| Coords.FenToGuiOfName | chessboard.cpp:58-64 | looking up the name of a board point gives back the point |
| RenderMap.FindKeyByCoords | chessboard.cpp:96-102 | a non-empty answer is the first key in QString order drawn at the cell; the answer is empty exactly when no key is drawn there or the empty key is among them |
| RenderMap.EraseFirstAt | chessboard.cpp:515-520 | exactly one key is dropped when the cell is occupied, and nothing otherwise; on a board with one key per cell the cell becomes empty and every other key stays |
| RenderMap.EraseAllAt | chessboard.cpp:84-89 | exactly the keys drawn at the cell are dropped, and the rest keep their cells |
| RenderMap.MovePiece | chessboard.cpp:67-93 | with no key at the origin the map is unchanged; otherwise the mover lands on the target, every other key at the target is gone, and all other entries are unchanged |
| RenderMap.MovePieceValid | chessboard.cpp:67-93 | moving keeps a board with one key per cell in that shape |
| RenderMap.MoveUnique | chessboard.cpp:67-102 | on a board with one key per cell, the lookup at the origin finds its key, and moving is a relocation of that key after clearing the target |
| Records.Encode | chessboard.cpp:569-595 | every record the live game writes is at least six characters long, so every substring the review takes of it exists |
| Records.EncodeDecodes | chessboard.cpp:211-217 | the review reads a written record back as the same origin and destination points, the same pawn test and the same promotion test |
| Records.EncodeKind | chessboard.cpp:339-362 | the review replays a written record as a castle exactly when a king went from its home square to a castle target, and as a diagonal pawn move exactly when a pawn changed file by one |
| Records.EncodeMentionsKing | chessboard.cpp:225-244 | a record mentions "king" exactly when a king moved |
| Fen.SplitText | chessboard.cpp:114-116 | splitting the FEN text at spaces gives back its six fields |
| Fen.SideInText | chessboard.cpp:508 | the test for a 'w' anywhere in the FEN text agrees with the side-to-move field |
| LiveMove.LiveCastle | chessboard.cpp:533-562 | a castle is recognised only for a king leaving e1 or e8 for the a- or h-file, and the wing is queenside exactly when the target is the a-file |
| LiveMove.QueenKey | chessboard.cpp:526-529 | the promoted key keeps the first two words of the pawn key and ends in " queen" |
| LiveMove.QueenKeyOfPieceKey | chessboard.cpp:526-529 | for a key "colour file type" the queen key is the first three characters followed by " queen" |
| LiveMove.Behind | chessboard.cpp:508-511 | the en-passant victim sits on the destination's file, one row below when white moves and one row above otherwise |
| LiveMove.UpdateWith | chessboard.cpp:502-566 | with no key at the origin the map is unchanged; otherwise a non-castle draws the mover's key (the queen key when it promotes) at the target, and a castle draws the king and rook at the wing's squares |
| LiveMove.Update | chessboard.cpp:502-566 | the update with the intended en-passant test: no key at the origin changes nothing, and otherwise a non-castle move draws the mover's key (the queen key when it promotes) at the target |
| LiveMove.UpdateAsWritten | chessboard.cpp:502-566 | the update with the program's substring test: no key at the origin changes nothing, and otherwise a non-castle move draws the mover's key (the queen key when it promotes) at the target |
| LiveMove.IntendedImpliesWritten | chessboard.cpp:506-507 | every real en-passant capture also passes the program's substring test |
| LiveMove.UpdateAgrees | chessboard.cpp:502-566 | the program's update equals the intended one whenever the two tests agree, and in particular on every real en passant |
| LiveMove.UpdateOrdinary | chessboard.cpp:502-566 | the program's update of a move its substring test does not take for en passant draws the mover (as a queen when it promotes) at the target, removes whatever stood there and the mover's old key, keeps every other entry, and equals the intended update |
| LiveMove.UpdateEnPassant | chessboard.cpp:502-566 | en passant draws the pawn at the empty target, empties the victim's square and keeps every other entry |
| LiveMove.UpdateCastle | chessboard.cpp:533-562 | castling moves exactly the king and its rook to the wing's fixed squares and keeps every other entry |
| LiveMove.RecordedDest | chessboard.cpp:575-591 | the destination a record names is always a board square |
| LiveMove.LiveRecordKind | chessboard.cpp:569-595 | the review classifies a live castle's record as that castle, and any other live record as a diagonal pawn move exactly when a pawn changed file by one |
| LiveMove.EnPassantTestMisfires | chessboard.cpp:506-507 | the substring test fires on an ordinary pawn capture whose target name occurs in the placement field |
| LiveMove.MisfireDrawsTwoPawns | chessboard.cpp:506-520 | after that misfire the program's map draws two pieces on one cell |
| LiveMove.IntendedTestCaptures | chessboard.cpp:506-520 | with the en-passant target field as the test, the same capture removes the captured pawn |
| Repetition.Track | chessboard.cpp:599-619 | tracking a move keeps the two lists of equal length and at most nine entries |
| Repetition.RunKeepsLatest | chessboard.cpp:599-619 | after any game the window holds the latest nine fingerprints of positions without an en-passant target |
| Repetition.FlagMeansPattern | chessboard.cpp:600-610 | a move raises the flag exactly when it adds a fingerprint and the last ten repeat the first two positions three times with matching castling rights |
| Review.Advance | chessboard.cpp:329-413 | a forward step moves the top forward record onto the backward stack |
| Review.Retreat | chessboard.cpp:205-311 | a backward step moves the top backward record onto the forward stack |
| Review.Click | chessboard.cpp:201-414 | a crash needs a record shorter than three characters; a click with no forward record left that is not a backward step ends the review whatever its column: it announces the endings the game's record names and, when there is one, leaves the start board and empty side stacks; a left click with no history and records ahead changes nothing; a backward or forward step moves the top record to the other stack |
| Review.StartConsistent | userinformation.cpp:161-164 | a review that starts with empty record and side stacks is consistent |
| Review.ConsistentCanUndo | chessboard.cpp:258-309 | in a consistent state a backward step finds every side stack entry it reads |
| Review.AdvanceConsistent | chessboard.cpp:329-413 | a forward step keeps the side stacks in step with the records behind the cursor |
| Review.RetreatConsistent | chessboard.cpp:205-311 | a backward step keeps the side stacks in step |
| Review.ClickConsistent | chessboard.cpp:201-414 | a click in a consistent state never crashes, and leaves the state consistent unless it ended the review |
| Review.ClickKeepsTimeline | chessboard.cpp:205-208 | a click moves at most one record between the stacks and never changes the game in playing order |
| Replay.CastleSquares | chessboard.cpp:339-351 | a castle record starts on the king's home square and ends on its target |
| Replay.DiagonalChangesFile | chessboard.cpp:353-362 | a diagonal pawn record changes file |
| Replay.CastleMaps | chessboard.cpp:225-244 | moving a castle's rook and king out and then back restores the board |
| Replay.RoundTripCastle | chessboard.cpp:225-244 | stepping forward over a castle and back restores the review state |
| Replay.RoundTripCapture | chessboard.cpp:274-309 | stepping forward over a move or capture, promoting or not, and back restores the review state |
| Replay.RoundTripEnPassant | chessboard.cpp:258-272 | stepping forward over an en-passant capture and back puts the victim back where it was |
| Replay.RetreatUndoesAdvance | chessboard.cpp:201-414 | for any record the board can replay, a forward step followed by a backward step restores the whole review state |
| Outcomes.Announced | chessboard.cpp:719-727 | a checkmate announces the side not to move as the winner |
| Outcomes.ReviewEndings | chessboard.cpp:313-326 | the end of a review is announced as erroneous exactly when the record holds "Quit" or "Undetermined", and at most one other verdict follows |
| GameLog.Header | userinformation.cpp:380 | a new personal file ends on a bare prompt |
| GameLog.Opponent | userinformation.cpp:456-458 | the opponent part reads "Friend)" exactly for elo 1 |
| GameLog.WriteMove | userinformation.cpp:384-394 | the file keeps its text and gains the move followed by ", " |
| GameLog.WriteResult | userinformation.cpp:455-552 | the file keeps its text and gains a record that leaves it ending on a bare prompt |
| GameLog.WriteExit | userinformation.cpp:396-427 | the record is appended exactly when a game is open, and afterwards none is |
| GameLog.WriteQuit | userinformation.cpp:429-453 | the record is appended exactly when a game is open, and afterwards none is |
| GameLog.MateVerdict | userinformation.cpp:467-474 | the verdict names the user's colour and says "Win" exactly when the loser is the other side |
| GameLog.ParseLine | userinformation.cpp:169-183 | a line holds a game exactly when it has a '(' before its last character |
| GameLog.SplitMoves | userinformation.cpp:222-227 | every move read from a game is non-empty and has no comma |
| GameLog.SplitMovesText | userinformation.cpp:222-232 | splitting the trimmed moves text gives back the moves written |
| GameLog.GameLineParse | userinformation.cpp:174-182 | a written game line reads back as the trimmed moves text and the game's information |
| GameLog.GameAppends | userinformation.cpp:384-394 | writing a game to a file at the prompt adds exactly that game to what the reader sees |
| GameLog.ReadInfo | userinformation.cpp:234-248 | "Quit" reads as black against elo -1; otherwise the colour is white exactly when the text says "White", and only a record with neither "Quit" nor "Friend" can crash |
| GameLog.LoadGame | userinformation.cpp:218-248 | a game loads exactly when its information reads, and the forward stack reversed is the game's moves in order |
| GameLog.ResultRecordReads | userinformation.cpp:236-247 | every result record reads back as the user's colour and the opponent's elo |
| GameLog.ResultRecordEnds | chessboard.cpp:313-326 | the review of a finished game announces the ending the game had |
| GameLog.ExitRecordEnds | chessboard.cpp:313-314 | the review of an exited game reports it as unfinished and nothing else |
| GameLog.QuitRecordEnds | chessboard.cpp:313-314 | the review of a quit game reports it as unfinished and nothing else |
| GameLog.ReviewOfWrittenGame | userinformation.cpp:169-248 | a finished game written to the log comes back as the last game, with its moves in playing order, the user's colour, the opponent and the same ending |
| Game.TurnBoundaryAsWritten | chessboard.cpp:416-444 | the program's check: nothing at the start position; otherwise the pending flag is consumed, the threefold draw is recorded exactly when it was pending and the fifty-move draw exactly when the half-move field is "100", and a checkmate or stalemate only when the cached legal-move list is empty |
| Game.TurnBoundary | chessboard.cpp:420-444 | one game ends at most once; nothing is recorded exactly when no ending condition holds, and the pending repetition flag is consumed |
| Game.TurnBoundaryIsFirst | chessboard.cpp:420-444 | the corrected check records the first ending the program records, and nothing exactly when the program records nothing |
| Game.AsWrittenEngineEndingsExclusive | chessboard.cpp:420-444 | in the program, after the first ending only the repetition and fifty-move endings can follow |
| Game.ThreefoldOnHundredRecordsTwice | chessboard.cpp:420-444 | a repetition completed by the move that brings the half-move clock to 100 is recorded as a threefold draw and then a fifty-move draw |
| Game.SecondRecordIsPhantomGame | userinformation.cpp:455-552 | for any two endings written after a game, the second reads back as an extra game with no moves |
| Game.Turn | chessboard.cpp:416-447 | a call that records an ending leaves the start position and board with a full legal-move list and no pending flag; a call that records nothing keeps the position and board, and its list is empty exactly when the position has no legal move |
| Game.MateSeenOneCallLate | chessboard.cpp:420-447 | the call at a mated position records nothing, because the list still holds the moves before the mate; the next call records the checkmate |
| Game.MateOnHundredLoggedAsFifty | chessboard.cpp:420-447 | a mate delivered as the half-move clock reaches 100 is logged as a fifty-move draw alone, and the game is reset before the mate is seen |
| Game.StalemateAfterCaptureLoggedAsInsufficient | chessboard.cpp:420-447 | a capture that leaves a stalemate with insufficient material is logged as insufficient material, not stalemate |
| Game.GameOver | chessboard.cpp:754-791 | the reset leaves the start position, a window holding the start position alone and the start board with one key per cell, and leaves the record stacks and the repetition flag alone |
| Game.GameOverIdempotent | chessboard.cpp:754-791 | a second reset changes nothing |
| Game.GameOverWindowIsFresh | chessboard.cpp:758-771 | the window after a reset is the window of a game with no moves |
| Game.StartBoardValid | chessboard.cpp:119-128 | the start board has one key per cell |
| Prompts.ModeReply | userinformation.cpp:126-149 | the mode prompt accepts exactly 1 (review) and 2 (new game) and ends the program exactly on 0 |
| Prompts.GameNumberReply | userinformation.cpp:192-216 | the program ends exactly on the text "0"; an accepted number names one of the games, and every such number typed is accepted |
| Prompts.EloReply | userinformation.cpp:252-290 | the prompt ends exactly on 0, accepts exactly 1 and 800 to 3000, and plays 1590 as 3200 |
| Prompts.ZeroSpellings | userinformation.cpp:138-198 | "00" ends the program at the mode prompt but is refused at the game-number prompt; "2 games" reads as 2 |
| Prompts.GameNumberAcceptsExactly | userinformation.cpp:192-216 | a written number is accepted exactly when it names one of the games, and ends the program exactly when it is 0 |
| Prompts.EloAcceptsExactly | userinformation.cpp:266-290 | a written number is handled by range: the engine range (1590 raised to 3200), a friend, the exit, and nothing else |
| Prompts.Loop | userinformation.cpp:192-216 | an accepted value comes from one of the replies |
| Prompts.ReviewRequestAsWritten | userinformation.cpp:186-216 | the program's review request never starts a new game, and a game it reviews is one of the games in the log |
| Prompts.NoGamesNeverPlays | userinformation.cpp:186-216 | with no games in the log, the session never reaches the new game it asked an elo for |
| Prompts.NewPlayerStuck | userinformation.cpp:186-216 | a new player who types elo 1200 is left waiting by the program and starts playing with the correction |
| Prompts.ReviewRequest | userinformation.cpp:186-216 | with no games, play starts exactly when the elo prompt accepts; with games, the behaviour is the program's own |
| UciFrame.NewlineAt | runstockfish.h:128 | the index found is the first newline, and there is none exactly when the text has no newline |
| UciFrame.Scan | runstockfish.h:127-133 | an accepted line is returned with a shorter rest; when nothing is accepted the rest holds no newline |
| UciFrame.ScanIsFirstLine | runstockfish.h:127-133 | scanning returns the first accepted complete line and the lines after it joined back, or only the incomplete fragment when no line is accepted |
| UciFrame.ScanExtends | runstockfish.h:125-133 | data arriving after an accepted line does not change the line |
| UciFrame.ReceiveIsScan | runstockfish.h:121-137 | how the data is cut into chunks does not matter: a wait reads the buffer and the chunks that arrive in time as one text, and loses nothing |
| Uci.Send | runstockfish.h:105-113 | without a process nothing happens; a successful write appends the line to what was sent; a failed one changes nothing |
| Uci.Stop | runstockfish.h:43-57 | without a process it is a no-op; otherwise the process is gone, the buffer empty and the next game fresh |
| Uci.Start | runstockfish.h:14-41 | a process exists afterwards, and the next game is fresh if it was or if a process was stopped; success means "uci" was sent first and "isready" last |
| Uci.IsReady | runstockfish.h:115-119 | success means "isready" was sent and a process exists |
| Uci.ClampElo | runstockfish.h:59-62 | the elo sent lies in 800 to 3200 and equals the argument when that is already in range |
| Uci.SetElo | runstockfish.h:59-71 | success sends exactly the strength limit, the clamped elo and "isready"; without a process nothing changes |
| Uci.MarkNewGame | runstockfish.h:92-94 | only the fresh-game flag changes, and it is set |
| Uci.BestMove | runstockfish.h:73-89 | a move is returned only after the new-game exchange when the game was fresh, followed by the position and the go command; the flag is cleared only by that exchange, and a returned move has no space |
| Uci.WaitForHears | runstockfish.h:121-137 | a wait succeeds exactly when a complete trimmed line is the token; on failure the incomplete fragment stays buffered and later chunks stay unread |
| Uci.WaitBestMove | runstockfish.h:139-157 | the value returned never holds a space |
| Uci.WaitBestMoveReads | runstockfish.h:139-157 | the move is the second field of the first complete "bestmove " line, and is empty exactly when no such line arrived |
| Uci.BestMoveLineHasMove | runstockfish.h:150-152 | a trimmed "bestmove " line always has a non-empty second field |
| Uci.RunKeepsInv | runstockfish.h:14-100 | after any sequence of requests, a wrapper without a process holds an empty buffer and is waiting for a fresh game |
| Uci.StartedProcessBeginsFresh | runstockfish.h:14-100 | whatever came before, the first move asked of a newly started process follows "ucinewgame" and "isready" |
| Uci.BestMoveIgnoresStaleBuffer | runstockfish.h:81 | in a game under way, data left over from earlier waits never affects the next move |
| Uci.AcceptedEloReachesEngine | runstockfish.h:59-62 | an engine elo the prompt accepts reaches the engine unclamped, and the game that follows is fresh |

## Left out

- Painting, pixmaps and the highlight lists (`paintEvent`, `drawBoard`,
  `drawPieces`, the `draw*` helpers): user interface only.
- Message boxes and `QTimer` deferral: the endings are modelled as values,
  and the prompt that `gameOver` schedules is not modelled.
- The rules engine (legal move generation, `makeMove`, `getFen`,
  `inCheck`, insufficient material): its source is not part of this model.
  Its answers are parameters: a FEN record, a `Report` and the piece type on
  the origin square. `Game.Turn` stops once the legal-move list is
  refilled; the move the call may make afterwards is modelled by `LiveMove`
  and `Repetition`, and reaches the next call as its FEN.
- Choosing the computer's move squares from the engine's reply (the
  castle correction at `chessboard.cpp` 457-467): the live update takes the
  origin and target as given.
- File opening and appending, `loadUsers` and `saveUser`: each file is the
  string it holds, and the failure paths that end the program are not
  modelled.
- Registration and login, `sha256`, `generateSalt` and the random colour
  choice: cryptography and randomness.
- The `std::exit` paths: a prompt's `Exit` reply stands for them.
- Process launching, `waitForReadyRead` polling and wall-clock deadlines:
  each wait receives a given number of chunks instead. Whether the process
  launches is a parameter of `Uci.Start`; one that fails to launch is still
  marked present, as the program leaves `proc_` set.
- Uci.Send: a write that is accepted but not confirmed in time counts as
  failed, and the line is not recorded as sent.
- Uci.Stop: whether "quit" reaches the process is left open, so the
  contract allows either transcript.
- UTF-8 conversion of the engine's output: text is a sequence of
  characters, and white space in QString's sense is its Latin-1 subset.
- Numbers.Stoi: models base-10 `std::stoi` on ASCII input. Locale-specific
  white space is not modelled.
- Replay.RetreatUndoesAdvance: proved for records the board can replay the
  way a legal game made them (`Replay.Applicable`). A corrupt log can make
  the review draw an arbitrary board.
- Review.ClickConsistent: proved only from a consistent state, which every
  review starts in (`Review.StartConsistent`). Consistency is not promised
  after a click that ends the review: the reset empties the side stacks but
  leaves the backward records, and the next review starts afresh.
- GameLog.ReviewOfWrittenGame: proved for a friend or an elo of three or
  four digits (`GameLog.RecordableElo`). The reader takes four characters
  nine from the end, so other elos do not read back. The prompts accept
  only recordable elos (`Prompts.AcceptedEloRecordable`).
- `mainwindow`, `promptdialog`, `main.cpp` and `chessboard.h`: window
  plumbing and a stale header with no logic of its own.

## Findings

| source | as written | input that shows it | evidently intended | confidence | as-written member | corrected member |
|---|---|---|---|---|---|---|
| chessboard.cpp:506-512 | a pawn move is taken as en passant when the target's name occurs anywhere in the FEN text | white pawn a4 takes a black pawn on b5 while a black bishop stands on c1, so the placement field holds "2b5" | en passant only when the target is the FEN's en-passant field | not executed | LiveMove.MisfireDrawsTwoPawns | LiveMove.IntendedTestCaptures |
| chessboard.cpp:420-444 | the five game-over tests are independent `if`s, and the half-move test reads fields split before any reset | a threefold repetition completed by the move that brings the half-move clock to 100 | one ending per game | not executed | Game.ThreefoldOnHundredRecordsTwice | Game.TurnBoundaryIsFirst |
| userinformation.cpp:186-216 | with no games, the elo prompt runs and control then falls into the game-number loop for games 1 to 0 | a new user who asks to review and types elo 1200 | start the new game once the elo is chosen | not executed | Prompts.NewPlayerStuck | Prompts.ReviewRequest |
