/** Review mode (mousePressReview): replaying a recorded game on the render
    map one record at a time, forwards and backwards, with side stacks that
    remember what each forward step captured so the backward step can put it
    back. Stacks are sequences with the top at the end. */
module Review {
  import opened Base
  import opened Strings
  import opened Coords
  import opened RenderMap
  import opened Records
  import Outcomes

  /** epBoolStack, enPassantTakeStack, pawnTakeStack, nonPawnTakeStack. */
  datatype Sides = Sides(epFlags: seq<bool>, epTaken: seq<string>, pawnTaken: seq<string>, otherTaken: seq<string>)

  const NoSides: Sides := Sides([], [], [], [])

  /** The render map, backwardMoves, forwardMoves and the side stacks. */
  datatype State = State(board: Board, back: seq<string>, fwd: seq<string>, sides: Sides)

  /** The record lengths every review step can read without throwing. */
  predicate Readable(ms: seq<string>)
  {
    forall i :: 0 <= i < |ms| ==> |ms[i]| >= 3
  }

  /** The key found at `at` re-drawn under its first three characters
      followed by `suffix` (" queen" forwards, " pawn" backwards). */
  function Relabel(b: Board, at: Point, suffix: string): Board
  {
    var key := KeyAt(b, at);
    b[Take(key, 3) + suffix := CellOf(at)] - {key}
  }

  function OriginPoint(m: string): Point
    requires |m| >= 3
  {
    FenToGui(Origin(m))
  }

  function DestPoint(m: string): Point
    requires |m| >= 3
  {
    FenToGui(Dest(m))
  }

  /** The row of the pawn an en-passant capture took: behind the destination,
      seen from the mover, whose colour is read off the direction of travel. */
  function CapturedRow(origin: Point, dest: Point): int
  {
    if dest.y < origin.y then dest.y + 1 else dest.y - 1
  }

  // ---------------------------------------------------------------------------
  // Forward step

  /** The capture bookkeeping of a forward step: the board after removing an
      en-passant victim, and the side stacks after recording the capture. */
  function ForwardCapture(b: Board, sd: Sides, m: string): (r: (Board, Sides))
    requires |m| >= 3
  {
    var origin, dest := OriginPoint(m), DestPoint(m);
    match KindOf(m)
    case CastleMove(c) => (MovePiece(b, RookHome(c), RookTarget(c)), sd)
    case DiagonalPawn =>
      if !Occupied(b, CellOf(dest)) then
        var row := CapturedRow(origin, dest);
        var cap := if 0 <= row < 8 then FindKeyByCoords(b, row, dest.x) else "";
        (if cap != "" then b - {cap} else b, sd.(epFlags := sd.epFlags + [true], epTaken := sd.epTaken + [cap]))
      else
        (b, sd.(epFlags := sd.epFlags + [false], pawnTaken := sd.pawnTaken + [KeyAt(b, dest)]))
    case Plain => (b, sd.(otherTaken := sd.otherTaken + [KeyAt(b, dest)]))
  }

  /** One step forward, for a record of at least three characters. */
  function Advance(s: State): (r: State)
    requires |s.fwd| > 0 && |Top(s.fwd)| >= 3
    ensures r.back == s.back + [Top(s.fwd)] && r.fwd + [Top(s.fwd)] == s.fwd
  {
    var m := Top(s.fwd);
    var origin, dest := OriginPoint(m), DestPoint(m);
    var (b1, sd1) := ForwardCapture(s.board, s.sides, m);
    var b2 := if Promotes(m) then Relabel(b1, origin, " queen") else b1;
    State(MovePiece(b2, origin, dest), s.back + [m], Pop(s.fwd), sd1)
  }

  // ---------------------------------------------------------------------------
  // Backward step

  /** What the side stacks must hold for a backward step over `m`: for a
      diagonal pawn record the top flag must exist and so must the top of the
      stack it points to (the program reads them without checking). */
  predicate CanUndo(sd: Sides, m: string)
    requires |m| >= 3
  {
    KindOf(m) == DiagonalPawn ==>
      |sd.epFlags| > 0 && (if Top(sd.epFlags) then |sd.epTaken| > 0 else |sd.pawnTaken| > 0)
  }

  /** The board and stacks after undoing a record, once its piece has been
      turned back into a pawn if it had promoted. */
  function BackwardMove(b: Board, sd: Sides, m: string): (Board, Sides)
    requires |m| >= 3 && CanUndo(sd, m)
  {
    var origin, dest := OriginPoint(m), DestPoint(m);
    match KindOf(m)
    case CastleMove(c) =>
      (MovePiece(MovePiece(b, RookTarget(c), RookHome(c)), dest, origin), sd)
    case DiagonalPawn =>
      if Top(sd.epFlags) then
        var cap := Top(sd.epTaken);
        var cell := if StartsWith(cap, "w") then Cell(dest.y - 1, dest.x) else Cell(dest.y + 1, dest.x);
        (MovePiece(b[cap := cell], dest, origin), sd.(epFlags := Pop(sd.epFlags), epTaken := Pop(sd.epTaken)))
      else
        (MovePiece(b, dest, origin)[Top(sd.pawnTaken) := CellOf(dest)],
         sd.(epFlags := Pop(sd.epFlags), pawnTaken := Pop(sd.pawnTaken)))
    case Plain =>
      if |sd.otherTaken| > 0 then
        var cap := Top(sd.otherTaken);
        (if cap != "" then MovePiece(b, dest, origin)[cap := CellOf(dest)] else MovePiece(b, dest, origin),
         sd.(otherTaken := Pop(sd.otherTaken)))
      else (MovePiece(b, dest, origin), sd)
  }

  /** One step back, for a record of at least three characters. */
  function Retreat(s: State): (r: State)
    requires |s.back| > 0 && |Top(s.back)| >= 3 && CanUndo(s.sides, Top(s.back))
    ensures r.fwd == s.fwd + [Top(s.back)] && r.back + [Top(s.back)] == s.back
  {
    var m := Top(s.back);
    var b1 := if Promotes(m) then Relabel(s.board, DestPoint(m), " pawn") else s.board;
    var (b2, sd2) := BackwardMove(b1, s.sides, m);
    State(b2, Pop(s.back), s.fwd + [m], sd2)
  }

  // ---------------------------------------------------------------------------
  // A click

  /** A click ends the review when it is not a backward step and no forward
      record is left; the column is not tested. */
  predicate EndsReview(s: State, col: int)
  {
    !(col < 4 && |s.back| > 0) && |s.fwd| == 0
  }

  /** The review state after a click and the endings it announced. */
  datatype Clicked = Clicked(state: State, endings: seq<Outcomes.Ending>)

  /** A click in column `col`: the left half steps back, the right half steps
      forward. Past the last record the review ends: the endings `info` (the
      game's record) announces are shown, and each of them goes through
      gameOver, which draws the start board and empties the side stacks. A
      record shorter than three characters makes substr throw. */
  function Click(s: State, col: int, info: string, isWhite: bool): (r: Result<Clicked>)
    requires col < 4 && |s.back| > 0 && |Top(s.back)| >= 3 ==> CanUndo(s.sides, Top(s.back))
    ensures r.Crash? ==> (|s.back| > 0 && |Top(s.back)| < 3) || (|s.fwd| > 0 && |Top(s.fwd)| < 3)
    ensures EndsReview(s, col) ==> r.Ok? && r.value.endings == Outcomes.ReviewEndings(info, isWhite)
    ensures EndsReview(s, col) && r.value.endings != [] ==>
      r.value.state == State(StartBoard, s.back, s.fwd, NoSides)
    ensures EndsReview(s, col) && r.value.endings == [] ==> r.value.state == s
    ensures r.Ok? && !EndsReview(s, col) ==> r.value.endings == []
    ensures col < 4 && |s.back| == 0 && |s.fwd| > 0 ==> r == Ok(Clicked(s, []))
    ensures r.Ok? && col < 4 && |s.back| > 0 ==> r.value.state.fwd == s.fwd + [Top(s.back)]
    ensures r.Ok? && col >= 4 && |s.fwd| > 0 ==> r.value.state.back == s.back + [Top(s.fwd)]
  {
    if col < 4 && |s.back| > 0 then
      if |Top(s.back)| < 3 then Crash else Ok(Clicked(Retreat(s), []))
    else if |s.fwd| == 0 then
      var es := Outcomes.ReviewEndings(info, isWhite);
      Ok(Clicked(if es == [] then s else State(StartBoard, s.back, s.fwd, NoSides), es))
    else if col >= 4 then
      if |Top(s.fwd)| < 3 then Crash else Ok(Clicked(Advance(s), []))
    else Ok(Clicked(s, []))
  }

  // ---------------------------------------------------------------------------
  // The side stacks stay in step with the records behind the cursor

  function CountKind(ms: seq<string>, k: Kind): nat
    requires Readable(ms)
  {
    if |ms| == 0 then 0
    else CountKind(Pop(ms), k) + (if KindOf(Top(ms)) == k then 1 else 0)
  }

  function CountTrue(fs: seq<bool>): (n: nat)
    ensures n <= |fs|
  {
    if |fs| == 0 then 0 else CountTrue(Pop(fs)) + (if Top(fs) then 1 else 0)
  }

  /** One flag per diagonal pawn record behind the cursor, one en-passant
      victim per true flag, one pawn victim per false flag, one entry per
      plain record. */
  predicate Consistent(s: State)
  {
    && Readable(s.back) && Readable(s.fwd)
    && |s.sides.epFlags| == CountKind(s.back, DiagonalPawn)
    && |s.sides.epTaken| == CountTrue(s.sides.epFlags)
    && |s.sides.pawnTaken| == |s.sides.epFlags| - CountTrue(s.sides.epFlags)
    && |s.sides.otherTaken| == CountKind(s.back, Plain)
  }

  /** A review starts consistent: promptForReview empties both record stacks
      and gameOver empties the side stacks. */
  lemma StartConsistent(b: Board, fwd: seq<string>)
    requires Readable(fwd)
    ensures Consistent(State(b, [], fwd, NoSides))
  {
  }

  /** In a consistent state a backward step finds everything it reads. */
  lemma ConsistentCanUndo(s: State)
    requires Consistent(s) && |s.back| > 0
    ensures CanUndo(s.sides, Top(s.back))
  {
    if KindOf(Top(s.back)) == DiagonalPawn {
      var fs := s.sides.epFlags;
      assert |fs| > 0;
      assert !Top(fs) ==> CountTrue(fs) == CountTrue(Pop(fs));
    }
  }

  lemma ReadablePush(ms: seq<string>, m: string)
    requires Readable(ms) && |m| >= 3
    ensures Readable(ms + [m]) && Pop(ms + [m]) == ms && Top(ms + [m]) == m
  {
  }

  lemma ReadablePop(ms: seq<string>)
    requires Readable(ms) && |ms| > 0
    ensures Readable(Pop(ms)) && Pop(ms) + [Top(ms)] == ms
  {
  }

  /** A forward step keeps the side stacks in step. */
  lemma AdvanceConsistent(s: State)
    requires Consistent(s) && |s.fwd| > 0
    ensures Consistent(Advance(s))
  {
    var m := Top(s.fwd);
    ReadablePush(s.back, m);
    ReadablePop(s.fwd);
    var sd := ForwardCapture(s.board, s.sides, m).1;
    assert Advance(s).sides == sd;
    assert Advance(s).back == s.back + [m];
    if KindOf(m) == DiagonalPawn {
      assert Pop(sd.epFlags) == s.sides.epFlags;
    }
  }

  /** A backward step keeps the side stacks in step. */
  lemma RetreatConsistent(s: State)
    requires Consistent(s) && |s.back| > 0
    ensures CanUndo(s.sides, Top(s.back))
    ensures Consistent(Retreat(s))
  {
    ConsistentCanUndo(s);
    var m := Top(s.back);
    ReadablePop(s.back);
    ReadablePush(s.fwd, m);
    var b1 := if Promotes(m) then Relabel(s.board, DestPoint(m), " pawn") else s.board;
    var sd := BackwardMove(b1, s.sides, m).1;
    assert Retreat(s).sides == sd;
    assert Retreat(s).back == Pop(s.back);
    if KindOf(m) == DiagonalPawn {
      var fs := s.sides.epFlags;
      assert Pop(fs) + [Top(fs)] == fs;
    }
  }

  /** A click never crashes in a consistent state, and leaves it consistent
      unless it ended the review. */
  lemma ClickConsistent(s: State, col: int, info: string, isWhite: bool)
    requires Consistent(s)
    ensures col < 4 && |s.back| > 0 ==> CanUndo(s.sides, Top(s.back))
    ensures Click(s, col, info, isWhite).Ok?
    ensures Click(s, col, info, isWhite).value.endings == [] ==> Consistent(Click(s, col, info, isWhite).value.state)
  {
    if col < 4 && |s.back| > 0 {
      RetreatConsistent(s);
    } else if |s.fwd| > 0 && col >= 4 {
      AdvanceConsistent(s);
    }
  }

  /** The game being reviewed, in playing order: the records behind the
      cursor, then the records ahead of it. */
  function Timeline(s: State): seq<string>
  {
    s.back + Reverse(s.fwd)
  }

  lemma ReverseAppend(xs: seq<string>, m: string)
    ensures Reverse(xs + [m]) == [m] + Reverse(xs)
  {
  }

  /** Stepping moves the cursor by one record and never changes the game. */
  lemma ClickKeepsTimeline(s: State, col: int, info: string, isWhite: bool)
    requires col < 4 && |s.back| > 0 && |Top(s.back)| >= 3 ==> CanUndo(s.sides, Top(s.back))
    requires Click(s, col, info, isWhite).Ok?
    ensures Timeline(Click(s, col, info, isWhite).value.state) == Timeline(s)
    ensures var r := Click(s, col, info, isWhite).value.state;
      |r.back| == |s.back| - 1 || |r.back| == |s.back| || |r.back| == |s.back| + 1
  {
    if col < 4 && |s.back| > 0 {
      var m := Top(s.back);
      ReverseAppend(s.fwd, m);
      assert Pop(s.back) + [m] == s.back;
    } else if |s.fwd| > 0 && col >= 4 {
      var m := Top(s.fwd);
      ReverseAppend(Pop(s.fwd), m);
      assert Pop(s.fwd) + [m] == s.fwd;
    }
  }
}
