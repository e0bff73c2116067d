/** The review's backward step undoes its forward step: on a board with one
    key per cell, replaying a record that fits the board and then stepping
    back restores the board, the record stacks and the side stacks exactly. */
module Replay {
  import opened Base
  import opened Strings
  import opened Coords
  import opened RenderMap
  import opened Records
  import opened Review

  /** A pawn key that can promote: "<3 characters> pawn", whose queen key is
      not yet on the board. */
  predicate PromotableKey(b: Board, k: string)
  {
    k == Take(k, 3) + " pawn" && Take(k, 3) + " queen" !in b
  }

  /** The en-passant victim sits behind the empty destination and its colour
      is the opposite of the mover's (a white mover travels up the screen). */
  predicate EnPassantVictim(b: Board, o: Point, d: Point)
  {
    var cell := Cell(CapturedRow(o, d), d.x);
    0 <= CapturedRow(o, d) < 8 && Occupied(b, cell) && (StartsWith(FirstAt(b, cell), "w") <==> d.y > o.y)
  }

  /** A record the board can replay the way a legal game made it: a piece on
      the origin, a castle's rook at home with both target squares empty, a
      diagonal pawn move that changes rank and, onto an empty square, has an
      en-passant victim; a promoting pawn has a key that can promote. */
  predicate Applicable(b: Board, m: string)
  {
    && |m| >= 3
    && OnBoard(OriginPoint(m)) && OnBoard(DestPoint(m)) && OriginPoint(m) != DestPoint(m)
    && Occupied(b, CellOf(OriginPoint(m)))
    && (Promotes(m) ==> PromotableKey(b, FirstAt(b, CellOf(OriginPoint(m)))))
    && match KindOf(m)
       case CastleMove(c) =>
         && !Promotes(m)
         && Occupied(b, CellOf(RookHome(c)))
         && !Occupied(b, CellOf(RookTarget(c))) && !Occupied(b, CellOf(DestPoint(m)))
       case DiagonalPawn =>
         && OriginPoint(m).y != DestPoint(m).y
         && (!Occupied(b, CellOf(DestPoint(m))) ==> !Promotes(m) && EnPassantVictim(b, OriginPoint(m), DestPoint(m)))
       case Plain => true
  }

  // ---------------------------------------------------------------------------
  // Facts about records and squares

  lemma CastleSquares(m: string, c: Castle)
    requires |m| >= 3 && CastleOf(m) == Some(c)
    ensures OriginPoint(m) == KingHome(c) && DestPoint(m) == KingTarget(c)
  {
    FenToGuiOfName(KingHome(c));
    FenToGuiOfName(KingTarget(c));
    assert SquareName(Point(4, 7)) == "e1" && SquareName(Point(4, 0)) == "e8";
    assert SquareName(Point(2, 7)) == "c1" && SquareName(Point(6, 7)) == "g1";
    assert SquareName(Point(2, 0)) == "c8" && SquareName(Point(6, 0)) == "g8";
  }

  lemma PointFile(name: string)
    requires OnBoard(FenToGui(name))
    ensures |name| == 2 && FileChar(FenToGui(name).x) == name[0]
  {
    var p := FenToGui(name);
    assert p in BoardPoints;
    assert GuiToFen[p] == SquareName(p);
  }

  /** A diagonal pawn record changes file. */
  lemma DiagonalChangesFile(m: string)
    requires |m| >= 3 && PawnDiagonal(m)
    requires OnBoard(OriginPoint(m)) && OnBoard(DestPoint(m))
    ensures OriginPoint(m).x != DestPoint(m).x
  {
    PointFile(Origin(m));
    PointFile(Dest(m));
    assert Origin(m)[0] == m[0] && Dest(m)[0] == m[|m| - 2];
  }

  // ---------------------------------------------------------------------------
  // movePiece on a board with one key per cell

  lemma Reloc(b: Board, p: Point, q: Point, k: string)
    requires Injective(b) && k in b && k != "" && b[k] == CellOf(p) && !Occupied(b, CellOf(q))
    ensures MovePiece(b, p, q) == b[k := CellOf(q)]
    ensures Injective(b[k := CellOf(q)])
  {
    MoveUnique(b, p, q, k);
    assert EraseAllAt(b, CellOf(q)) == b;
  }

  lemma Capture(b: Board, p: Point, q: Point, k: string, cap: string)
    requires Injective(b) && k in b && k != "" && b[k] == CellOf(p)
    requires cap in b && b[cap] == CellOf(q) && CellOf(p) != CellOf(q)
    ensures MovePiece(b, p, q) == (b - {cap})[k := CellOf(q)]
  {
    MoveUnique(b, p, q, k);
    assert EraseAllAt(b, CellOf(q)) == b - {cap};
  }

  lemma TakeOfPawnKey(k: string)
    requires k == Take(k, 3) + " pawn"
    ensures |k| == 8 && Take(k, 3) == k[..3]
    ensures Take(Take(k, 3) + " queen", 3) + " pawn" == k
    ensures Take(k, 3) + " queen" != k
  {
    var q := Take(k, 3) + " queen";
    assert q[..3] == k[..3];
    assert q[4] != k[4];
  }

  // ---------------------------------------------------------------------------
  // The three shapes of a round trip

  /** Moving a castle's rook and then its king onto empty squares, and
      moving them back, restores the board. */
  lemma CastleMaps(b: Board, o: Point, d: Point, rh: Point, rt: Point, r: string, k: string)
    requires Injective(b) && r in b && k in b && r != "" && k != ""
    requires b[r] == CellOf(rh) && b[k] == CellOf(o)
    requires !Occupied(b, CellOf(rt)) && !Occupied(b, CellOf(d))
    requires CellOf(o) != CellOf(rh) && CellOf(d) != CellOf(rt)
    requires CellOf(o) != CellOf(rt) && CellOf(d) != CellOf(rh)
    ensures MovePiece(MovePiece(b, rh, rt), o, d) == b[r := CellOf(rt)][k := CellOf(d)]
    ensures MovePiece(MovePiece(b[r := CellOf(rt)][k := CellOf(d)], rt, rh), d, o) == b
  {
    Reloc(b, rh, rt, r);
    var b1 := b[r := CellOf(rt)];
    Reloc(b1, o, d, k);
    var b2 := b1[k := CellOf(d)];
    Reloc(b2, rt, rh, r);
    var b3 := b2[r := CellOf(rh)];
    Reloc(b3, d, o, k);
    assert b3[k := CellOf(o)] == b;
  }

  lemma CastleCells(c: Castle)
    ensures CellOf(KingHome(c)) != CellOf(RookHome(c)) && CellOf(KingTarget(c)) != CellOf(RookTarget(c))
    ensures CellOf(KingHome(c)) != CellOf(RookTarget(c)) && CellOf(KingTarget(c)) != CellOf(RookHome(c))
  {
  }

  /** A castle: the rook and then the king move out, and back. */
  lemma RoundTripCastle(s: State, c: Castle)
    requires |s.fwd| > 0 && Valid(s.board) && Applicable(s.board, Top(s.fwd))
    requires KindOf(Top(s.fwd)) == CastleMove(c)
    ensures var a := Advance(s); |Top(a.back)| >= 3 && CanUndo(a.sides, Top(a.back)) && Retreat(a) == s
  {
    var m := Top(s.fwd);
    var b := s.board;
    var o, d := OriginPoint(m), DestPoint(m);
    CastleSquares(m, c);
    CastleCells(c);
    var rh, rt := RookHome(c), RookTarget(c);
    var r := FirstAt(b, CellOf(rh));
    var k := FirstAt(b, CellOf(o));
    CastleMaps(b, o, d, rh, rt, r, k);
    var a := Advance(s);
    assert a.board == b[r := CellOf(rt)][k := CellOf(d)];
    PushPop(s.back, m);
    PopPush(s.fwd);
    assert Top(a.back) == m && a.sides == s.sides;
  }

  /** The board after the key `k` moves onto `d`, taking `cap` ("" for none). */
  function Moved(b: Board, k: string, cap: string, d: Point): Board
  {
    (if cap != "" then b - {cap} else b)[k := CellOf(d)]
  }

  /** The same piece move and its undo on a board without a promotion. */
  lemma StepMaps(b: Board, o: Point, d: Point, k: string)
    requires Valid(b) && k in b && b[k] == CellOf(o) && CellOf(o) != CellOf(d)
    ensures var cap := KeyAt(b, d); var f := Moved(b, k, cap, d);
      && MovePiece(b, o, d) == f
      && Injective(f) && k in f && f[k] == CellOf(d)
      && (if cap != "" then MovePiece(f, d, o)[cap := CellOf(d)] else MovePiece(f, d, o)) == b
  {
    var cap := KeyAt(b, d);
    if cap != "" {
      StepMapsCapture(b, o, d, k, cap);
    } else {
      Reloc(b, o, d, k);
      Reloc(b[k := CellOf(d)], d, o, k);
      assert b[k := CellOf(d)][k := CellOf(o)] == b;
    }
  }

  lemma StepMapsCapture(b: Board, o: Point, d: Point, k: string, cap: string)
    requires Valid(b) && k in b && b[k] == CellOf(o) && CellOf(o) != CellOf(d)
    requires cap in b && cap != "" && b[cap] == CellOf(d)
    ensures var f := (b - {cap})[k := CellOf(d)];
      && MovePiece(b, o, d) == f
      && Injective(f) && k in f && f[k] == CellOf(d)
      && MovePiece(f, d, o)[cap := CellOf(d)] == b
  {
    var f := (b - {cap})[k := CellOf(d)];
    Capture(b, o, d, k, cap);
    Reloc(b - {cap}, o, d, k);
    Reloc(f, d, o, k);
    assert f[k := CellOf(o)][cap := CellOf(d)] == b;
  }

  /** The promotion relabelling forwards and the demotion backwards cancel
      around a move of the promoted piece. */
  lemma PromoteMaps(b: Board, o: Point, d: Point, k: string)
    requires Valid(b) && k in b && b[k] == CellOf(o) && CellOf(o) != CellOf(d)
    requires PromotableKey(b, k)
    ensures var q := Take(k, 3) + " queen"; var b2 := b[q := CellOf(o)] - {k};
      && Relabel(b, o, " queen") == b2
      && Valid(b2) && q in b2 && b2[q] == CellOf(o) && KeyAt(b2, d) == KeyAt(b, d)
      && Relabel(Moved(b2, q, KeyAt(b, d), d), d, " pawn") == Moved(b, k, KeyAt(b, d), d)
  {
    var q := Take(k, 3) + " queen";
    TakeOfPawnKey(k);
    FindUnique(b, CellOf(o), k);
    var b2 := b[q := CellOf(o)] - {k};
    assert Valid(b2);
    var cap := KeyAt(b, d);
    if cap != "" {
      FindUnique(b, CellOf(d), cap);
      FindUnique(b2, CellOf(d), cap);
    } else {
      assert !Occupied(b2, CellOf(d));
    }
    var f := Moved(b2, q, cap, d);
    assert Injective(f);
    FindUnique(f, CellOf(d), q);
    assert f[k := CellOf(d)] - {q} == Moved(b, k, cap, d);
  }

  /** A move onto an empty or occupied square, recorded on the plain stack or,
      for a diagonal pawn capture, on the pawn stack; possibly promoting. */
  lemma RoundTripCapture(s: State)
    requires |s.fwd| > 0 && Valid(s.board) && Applicable(s.board, Top(s.fwd))
    requires KindOf(Top(s.fwd)) == Plain
      || (KindOf(Top(s.fwd)) == DiagonalPawn && Occupied(s.board, CellOf(DestPoint(Top(s.fwd)))))
    ensures var a := Advance(s); |Top(a.back)| >= 3 && CanUndo(a.sides, Top(a.back)) && Retreat(a) == s
  {
    var m := Top(s.fwd);
    var b := s.board;
    var o, d := OriginPoint(m), DestPoint(m);
    var k := FirstAt(b, CellOf(o));
    FindUnique(b, CellOf(o), k);
    var cap := KeyAt(b, d);
    var sd1 := ForwardCapture(b, s.sides, m).1;
    assert ForwardCapture(b, s.sides, m).0 == b;
    var a := Advance(s);
    assert a.sides == sd1 && Top(a.back) == m;
    if Promotes(m) {
      PromoteMaps(b, o, d, k);
      var q := Take(k, 3) + " queen";
      var b2 := b[q := CellOf(o)] - {k};
      StepMaps(b2, o, d, q);
      assert a.board == Moved(b2, q, cap, d);
    } else {
      assert a.board == MovePiece(b, o, d);
    }
    StepMaps(b, o, d, k);
    PushPop(s.back, m);
    PopPush(s.fwd);
  }

  /** The en-passant victim is lifted off, the pawn moves, and both go back. */
  lemma EnPassantMaps(b: Board, o: Point, d: Point, k: string, cap: string, capCell: Cell)
    requires Valid(b) && k in b && b[k] == CellOf(o) && cap in b && b[cap] == capCell
    requires !Occupied(b, CellOf(d)) && capCell != CellOf(o) && CellOf(o) != CellOf(d)
    ensures MovePiece(b - {cap}, o, d) == (b - {cap})[k := CellOf(d)]
    ensures MovePiece((b - {cap})[k := CellOf(d)][cap := capCell], d, o) == b
  {
    var b1 := b - {cap};
    Reloc(b1, o, d, k);
    var b3 := b1[k := CellOf(d)][cap := capCell];
    Reloc(b3, d, o, k);
    assert b3[k := CellOf(o)] == b;
  }

  /** The row the backward step puts a victim back on is the row it was taken from. */
  lemma VictimRow(b: Board, o: Point, d: Point)
    requires EnPassantVictim(b, o, d) && o.y != d.y
    ensures var cap := FirstAt(b, Cell(CapturedRow(o, d), d.x));
      (if StartsWith(cap, "w") then Cell(d.y - 1, d.x) else Cell(d.y + 1, d.x)) == Cell(CapturedRow(o, d), d.x)
  {
  }

  /** The forward step of an en-passant record, spelled out. */
  lemma EnPassantAdvance(s: State, k: string, cap: string)
    requires |s.fwd| > 0 && |Top(s.fwd)| >= 3 && Valid(s.board)
    requires var m := Top(s.fwd);
      && KindOf(m) == DiagonalPawn && !Promotes(m) && !Occupied(s.board, CellOf(DestPoint(m)))
      && var row := CapturedRow(OriginPoint(m), DestPoint(m));
      && 0 <= row < 8 && cap in s.board && s.board[cap] == Cell(row, DestPoint(m).x)
      && k in s.board && k != "" && s.board[k] == CellOf(OriginPoint(m)) && CellOf(OriginPoint(m)) != CellOf(DestPoint(m))
    ensures var m := Top(s.fwd);
      Advance(s) == State((s.board - {cap})[k := CellOf(DestPoint(m))], s.back + [m], Pop(s.fwd),
        s.sides.(epFlags := s.sides.epFlags + [true], epTaken := s.sides.epTaken + [cap]))
  {
    var m := Top(s.fwd);
    var o, d := OriginPoint(m), DestPoint(m);
    FindUnique(s.board, Cell(CapturedRow(o, d), d.x), cap);
    Reloc(s.board - {cap}, o, d, k);
  }

  /** The backward step over an en-passant record, spelled out. */
  lemma EnPassantRetreat(a: State, cap: string, capCell: Cell)
    requires |a.back| > 0 && |Top(a.back)| >= 3
    requires var m := Top(a.back);
      && KindOf(m) == DiagonalPawn && !Promotes(m)
      && |a.sides.epFlags| > 0 && Top(a.sides.epFlags) && |a.sides.epTaken| > 0 && Top(a.sides.epTaken) == cap
      && (if StartsWith(cap, "w") then Cell(DestPoint(m).y - 1, DestPoint(m).x) else Cell(DestPoint(m).y + 1, DestPoint(m).x)) == capCell
    ensures CanUndo(a.sides, Top(a.back))
    ensures var m := Top(a.back);
      Retreat(a) == State(MovePiece(a.board[cap := capCell], DestPoint(m), OriginPoint(m)), Pop(a.back), a.fwd + [m],
        a.sides.(epFlags := Pop(a.sides.epFlags), epTaken := Pop(a.sides.epTaken)))
  {
  }

  /** En passant: the victim behind the empty destination is lifted off and
      put back on the row the backward step computes from its colour. */
  lemma RoundTripEnPassant(s: State)
    requires |s.fwd| > 0 && Valid(s.board) && Applicable(s.board, Top(s.fwd))
    requires KindOf(Top(s.fwd)) == DiagonalPawn && !Occupied(s.board, CellOf(DestPoint(Top(s.fwd))))
    ensures var a := Advance(s); |Top(a.back)| >= 3 && CanUndo(a.sides, Top(a.back)) && Retreat(a) == s
  {
    var m := Top(s.fwd);
    var b := s.board;
    var o, d := OriginPoint(m), DestPoint(m);
    DiagonalChangesFile(m);
    var k := FirstAt(b, CellOf(o));
    var capCell := Cell(CapturedRow(o, d), d.x);
    var cap := FirstAt(b, capCell);
    EnPassantMaps(b, o, d, k, cap, capCell);
    VictimRow(b, o, d);
    EnPassantAdvance(s, k, cap);
    var a := Advance(s);
    PushPop(s.back, m);
    PushPop(s.sides.epFlags, true);
    PushPop(s.sides.epTaken, cap);
    PopPush(s.fwd);
    EnPassantRetreat(a, cap, capCell);
    var r := Retreat(a);
    assert r.board == b;
    assert r.sides == s.sides;
  }

  /** Stepping forward over a record the board can replay and then back
      restores the whole review state. */
  lemma RetreatUndoesAdvance(s: State)
    requires |s.fwd| > 0 && Valid(s.board) && Applicable(s.board, Top(s.fwd))
    ensures var a := Advance(s); |a.back| > 0 && |Top(a.back)| >= 3 && CanUndo(a.sides, Top(a.back))
    ensures Retreat(Advance(s)) == s
  {
    var m := Top(s.fwd);
    match KindOf(m)
    case CastleMove(c) => RoundTripCastle(s, c);
    case DiagonalPawn =>
      if Occupied(s.board, CellOf(DestPoint(m))) {
        RoundTripCapture(s);
      } else {
        RoundTripEnPassant(s);
      }
    case Plain => RoundTripCapture(s);
  }
}
