/** The end-of-game check at the top of mousePressGame and the reset that
    gameOver performs. The rules engine is an oracle: its answers about the
    current position arrive as a Report. */
module Game {
  import opened Base
  import opened Strings
  import opened Fen
  import opened Outcomes
  import opened Repetition
  import opened RenderMap
  import opened Review
  import opened GameLog

  /** What the rules engine says about the position it holds: the side to
      move has no legal move, is in check, and neither side can mate. */
  datatype Report = Report(noMoves: bool, inCheck: bool, insufficient: bool)

  /** The engine's answers once gameOver has put it back at the start
      position: twenty legal moves, no check, full material. */
  const StartReport: Report := Report(false, false, false)

  /** The endings recorded at a turn boundary, in order, and the pending
      threefold flag afterwards. */
  datatype Boundary = Boundary(recorded: seq<Outcome>, pending: bool)

  /** The check as the program runs it. `fen` is the position split into
      fields before any check runs, `r` the engine's answers about it and
      `pending` the threefold flag the previous move may have raised. The two
      tests for no legal move do not ask the engine: they read `listEmpty`,
      whether the legal-move list is empty. That list was filled by the
      previous call before the move that call made, so after a move it
      describes the position before the move. The five tests are
      independent; every ending that fires calls gameOver, which puts the
      engine back at the start position and refills the list for it, so the
      tests that come later see StartReport and a full list, while the
      half-move test still reads the fields split before the first reset. */
  function TurnBoundaryAsWritten(fen: Fen, listEmpty: bool, r: Report, pending: bool): (b: Boundary)
    ensures Text(fen) == StartText ==> b == Boundary([], pending)
    ensures Text(fen) != StartText ==> !b.pending
    ensures Text(fen) != StartText ==>
      (Threefold in b.recorded <==> pending) && (Fifty in b.recorded <==> fen.halfmove == "100")
    ensures forall o :: o in b.recorded && (o.Checkmate? || o.Stalemate?) ==> listEmpty
  {
    if Text(fen) == StartText then Boundary([], pending)
    else
      var mate := listEmpty && r.inCheck;
      var l1, r1 := if mate then false else listEmpty, if mate then StartReport else r;
      var stale := l1 && !r1.inCheck;
      var r2 := if stale then StartReport else r1;
      var insufficient := r2.insufficient;
      var fifty := fen.halfmove == "100";
      Boundary(
        (if mate then [Checkmate(fen.side)] else [])
        + (if stale then [Stalemate] else [])
        + (if insufficient then [Insufficient] else [])
        + (if pending then [Threefold] else [])
        + (if fifty then [Fifty] else []),
        false)
  }

  /** One game ends at most once: the first ending that applies, in the
      order the program tests them. */
  function TurnBoundary(fen: Fen, listEmpty: bool, r: Report, pending: bool): (b: Boundary)
    ensures |b.recorded| <= 1
    ensures Text(fen) == StartText ==> b == Boundary([], pending)
    ensures Text(fen) != StartText ==> !b.pending
    ensures Text(fen) != StartText ==>
      (b.recorded == [] <==>
        !listEmpty && !r.insufficient && !pending && fen.halfmove != "100")
  {
    if Text(fen) == StartText then Boundary([], pending)
    else
      var ending :=
        if listEmpty && r.inCheck then [Checkmate(fen.side)]
        else if listEmpty then [Stalemate]
        else if r.insufficient then [Insufficient]
        else if pending then [Threefold]
        else if fen.halfmove == "100" then [Fifty]
        else [];
      Boundary(ending, false)
  }

  /** The corrected check records nothing exactly when the program records
      nothing, and otherwise the first ending the program records. */
  lemma TurnBoundaryIsFirst(fen: Fen, listEmpty: bool, r: Report, pending: bool)
    ensures var w, c := TurnBoundaryAsWritten(fen, listEmpty, r, pending), TurnBoundary(fen, listEmpty, r, pending);
      && c.pending == w.pending
      && (c.recorded == [] <==> w.recorded == [])
      && (w.recorded != [] ==> c.recorded == [w.recorded[0]])
  {
  }

  /** In the program the first three tests never fire together: the reset
      after one of them makes the engine answer for the start position. The
      half-move test and the pending flag are not reset. */
  lemma AsWrittenEngineEndingsExclusive(fen: Fen, listEmpty: bool, r: Report, pending: bool)
    ensures var rec := TurnBoundaryAsWritten(fen, listEmpty, r, pending).recorded;
      forall j :: 1 <= j < |rec| ==> rec[j] == Threefold || rec[j] == Fifty
  {
  }

  /** A repetition completed by the move that brings the half-move clock to
      100: the program records the threefold draw and then a fifty-move draw
      for the same game. */
  const RookOnHundred: Fen := Fen("4k3/8/8/8/8/8/8/R3K3", "w", "-", "-", "100", "90")

  lemma ThreefoldOnHundredRecordsTwice()
    ensures TurnBoundaryAsWritten(RookOnHundred, false, StartReport, true).recorded
      == [Threefold, Fifty]
    ensures TurnBoundary(RookOnHundred, false, StartReport, true).recorded
      == [Threefold]
  {
    TextBegins(RookOnHundred);
    TextBegins(Start);
    assert Text(RookOnHundred)[..|RookOnHundred.placement|][0] == '4';
    assert Text(Start)[..|Start.placement|][0] == 'r';
  }

  /** The records the writers append for a list of endings. */
  function WriteEndings(f: string, os: seq<Outcome>, isWhite: bool, elo: int): (g: string)
    ensures |os| == 0 ==> g == f
    decreases |os|
  {
    if |os| == 0 then f else WriteEndings(WriteResult(f, os[0], isWhite, elo), os[1..], isWhite, elo)
  }

  /** The second record of a doubly ended game reads back as a game of its
      own, with no moves: the log shows one game more than was played. */
  lemma SecondRecordIsPhantomGame(f: string, ms: seq<string>, o1: Outcome, o2: Outcome, w: bool, elo: int)
    requires AtPrompt(f) && GoodMoves(ms)
    ensures var g := WriteEndings(WriteMoves(f, ms), [o1, o2], w, elo);
      ParseLog(g) == ParseLog(f)
        + [Entry(Trim(MovesText(ms)), ResultInfo(o1, w, elo)),
           Entry("", ResultInfo(o2, w, elo))]
  {
    var i1, i2 := ResultInfo(o1, w, elo), ResultInfo(o2, w, elo);
    ResultInfoGood(o1, w, elo);
    ResultInfoGood(o2, w, elo);
    var g1 := WriteMoves(f, ms) + Record(i1);
    GameAppends(f, ms, i1);
    GameAppends(g1, [], i2);
    assert WriteMoves(g1, []) == g1;
    TrimEmpty();
    var os := [o1, o2];
    var g := g1 + Record(i2);
    assert WriteEndings(WriteMoves(f, ms), os, w, elo) == g by {
      assert WriteEndings(WriteMoves(f, ms), os, w, elo)
        == WriteEndings(g1, os[1..], w, elo);
      assert os[1..][1..] == [];
    }
    var e1, e2 := Entry(Trim(MovesText(ms)), i1), Entry("", i2);
    assert ParseLog(g) == (ParseLog(f) + [e1]) + [e2];
    PairAppends(ParseLog(f), e1, e2);
  }

  lemma TrimEmpty()
    ensures Trim(MovesText([])) == ""
  {
    assert MovesText([]) == "";
    assert TrimWith("", StdSpaces) == [];
  }

  /** What gameOver touches, and the review record stacks it leaves alone.
      `listEmpty` says whether the legal-move list is empty. */
  datatype Live = Live(fen: Fen, window: Window, board: Board, back: seq<string>,
                       fwd: seq<string>, sides: Sides, pending: bool, listEmpty: bool)

  /** gameOver: the engine back at the start position, the repetition window
      holding the start position alone, the side stacks empty, the start
      board drawn and the legal-move list refilled with the start position's
      twenty moves. The record stacks and the pending flag are not touched. */
  function GameOver(s: Live): (r: Live)
    ensures Text(r.fen) == StartText && Inv(r.window) && !r.listEmpty
    ensures r.board == StartBoard && Valid(r.board)
    ensures r.back == s.back && r.fwd == s.fwd && r.pending == s.pending
    ensures Consistent(State(r.board, [], r.fwd, r.sides)) <==> Readable(s.fwd)
  {
    StartBoardValid();
    Live(Start, Initial, StartBoard, s.back, s.fwd, NoSides, s.pending, false)
  }

  /** The live state after one call of mousePressGame up to the refill of
      the legal-move list, and the endings the call recorded. */
  datatype Called = Called(live: Live, recorded: seq<Outcome>)

  /** The start of mousePressGame: the end-of-game check on the position the
      engine holds, a reset when an ending fired, and the legal-move list
      refilled for the position then held. `r` is the engine's answer about
      `s.fen`. The move the call may make afterwards reaches the next call
      as its `fen`. */
  function Turn(s: Live, r: Report): (t: Called)
    ensures t.live.back == s.back && t.live.fwd == s.fwd
    ensures t.recorded != [] ==>
      Text(t.live.fen) == StartText && !t.live.listEmpty && !t.live.pending && t.live.board == StartBoard
    ensures t.recorded == [] ==> t.live.fen == s.fen && t.live.board == s.board && t.live.listEmpty == r.noMoves
    ensures Text(s.fen) != StartText ==> !t.live.pending
  {
    var b := TurnBoundaryAsWritten(s.fen, s.listEmpty, r, s.pending);
    if b.recorded == [] then Called(s.(pending := b.pending, listEmpty := r.noMoves), [])
    else Called(GameOver(s).(pending := b.pending), b.recorded)
  }

  /** A mate is seen one call late: the call at the mated position still
      holds the list filled before the mating move, so it records nothing;
      the next call, at the same position, records the checkmate. */
  lemma MateSeenOneCallLate(s: Live)
    requires Text(s.fen) != StartText && !s.listEmpty && !s.pending && s.fen.halfmove != "100"
    ensures var mate := Report(true, true, false);
      && Turn(s, mate).recorded == []
      && Turn(Turn(s, mate).live, mate).recorded == [Checkmate(s.fen.side)]
  {
    var mate := Report(true, true, false);
    var t := Turn(s, mate);
    assert t.live.listEmpty && t.live.fen == s.fen;
  }

  /** A mate delivered as the half-move clock reaches 100 is logged as a
      fifty-move draw alone, and the game is over before the mate is seen. */
  lemma MateOnHundredLoggedAsFifty(s: Live)
    requires Text(s.fen) != StartText && !s.listEmpty && !s.pending && s.fen.halfmove == "100"
    ensures var t := Turn(s, Report(true, true, false));
      t.recorded == [Fifty] && Text(t.live.fen) == StartText
  {
  }

  /** A capture that leaves a bare king against king and bishop, with the
      side to move stalemated, is logged as insufficient material: the list
      still holds the moves before the capture. */
  lemma StalemateAfterCaptureLoggedAsInsufficient(s: Live)
    requires Text(s.fen) != StartText && !s.listEmpty && !s.pending && s.fen.halfmove != "100"
    ensures Turn(s, Report(true, false, true)).recorded == [Insufficient]
  {
  }

  /** A second reset changes nothing. */
  lemma GameOverIdempotent(s: Live)
    ensures GameOver(GameOver(s)) == GameOver(s)
  {
  }

  /** The window a reset leaves is the one a game with no moves has. */
  lemma GameOverWindowIsFresh(s: Live)
    ensures GameOver(s).window == Run([])
  {
  }

  /** The key the start board draws at a cell of its first or last two
      rows: the colour, then the file for every piece but the queen and king. */
  function StartKeyAt(c: Cell): (k: string)
    ensures k != ""
  {
    if c.row == 6 then PawnKey(true, c.col)
    else if c.row == 1 then PawnKey(false, c.col)
    else BackKey(c.row >= 6, c.col)
  }

  function PawnKey(white: bool, col: int): string
  {
    if white then
      if col == 0 then "w a pawn"
      else if col == 1 then "w b pawn"
      else if col == 2 then "w c pawn"
      else if col == 3 then "w d pawn"
      else if col == 4 then "w e pawn"
      else if col == 5 then "w f pawn"
      else if col == 6 then "w g pawn"
      else "w h pawn"
    else
      if col == 0 then "b a pawn"
      else if col == 1 then "b b pawn"
      else if col == 2 then "b c pawn"
      else if col == 3 then "b d pawn"
      else if col == 4 then "b e pawn"
      else if col == 5 then "b f pawn"
      else if col == 6 then "b g pawn"
      else "b h pawn"
  }

  function BackKey(white: bool, col: int): string
  {
    if white then
      if col == 0 then "w a rook"
      else if col == 1 then "w b knight"
      else if col == 2 then "w c bishop"
      else if col == 3 then "w queen"
      else if col == 4 then "w king"
      else if col == 5 then "w f bishop"
      else if col == 6 then "w g knight"
      else "w h rook"
    else
      if col == 0 then "b a rook"
      else if col == 1 then "b b knight"
      else if col == 2 then "b c bishop"
      else if col == 3 then "b queen"
      else if col == 4 then "b king"
      else if col == 5 then "b f bishop"
      else if col == 6 then "b g knight"
      else "b h rook"
  }

  /** No two pieces of the start board share a cell, since each cell names
      its piece back. */
  lemma StartBoardValid()
    ensures Valid(StartBoard)
  {
    StartKeysNamed();
    NamedValid(StartBoard);
  }

  lemma NamedValid(b: Board)
    requires Named(b)
    ensures Valid(b)
  {
    forall k, k' | k in b && k' in b && k != k'
      ensures b[k] != b[k']
    {
      assert StartKeyAt(b[k]) == k && StartKeyAt(b[k']) == k';
    }
  }

  lemma StartKeysNamed()
    ensures Named(StartBoard)
  {
    WhitePawnsNamed();
    BlackPawnsNamed();
    WhiteBackNamed();
    BlackBackNamed();
  }

  predicate Named(b: Board)
  {
    forall k :: k in b ==> StartKeyAt(b[k]) == k
  }

  lemma WhitePawnsNamed()
    ensures Named(WhitePawns)
  {
  }

  lemma BlackPawnsNamed()
    ensures Named(BlackPawns)
  {
  }

  lemma WhiteBackNamed()
    ensures Named(WhiteBack)
  {
  }

  lemma BlackBackNamed()
    ensures Named(BlackBack)
  {
  }
}
