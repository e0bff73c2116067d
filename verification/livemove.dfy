/** How a live game redraws the render map when a move is made
    (mousePressGame): the capture, en passant, promotion to a queen and
    castling, and the record written for the move. */
module LiveMove {
  import opened Base
  import opened Strings
  import opened Coords
  import opened RenderMap
  import opened Records
  import opened Fen

  /** A king leaving e1 or e8 for the a- or h-file is castling (the rules
      engine names a castle by the rook's square). The wing comes from the
      target file, the side from whether the FEN text holds a 'w'. */
  function LiveCastle(from: Point, to: Point, kind: PieceType, fen: Fen): (c: Option<Castle>)
    requires OnBoard(from) && OnBoard(to)
    ensures c.Some? ==> kind == King && (from == Point(4, 7) || from == Point(4, 0))
    ensures c.Some? ==> (IsQueenside(c.value) <==> to.x == 0) && (to.x == 0 || to.x == 7)
  {
    if kind == King && SquareName(from) in {"e8", "e1"} && SquareName(to)[0] in {'h', 'a'} then
      var white := Contains(Text(fen), "w");
      assert from.x == 4 && (from.y == 7 || from.y == 0) by {
        assert SquareName(from)[0] == 'e';
      }
      Some(if to.x == 0 then (if white then WhiteQueenside else BlackQueenside)
           else (if white then WhiteKingside else BlackKingside))
    else None
  }

  /** A pawn reaching the far rank of the side to move. */
  predicate LivePromotes(kind: PieceType, to: Point, fen: Fen)
  {
    kind == Pawn && ((to.y == 0 && fen.side == "w") || (to.y == 7 && fen.side == "b"))
  }

  lemma {:induction false} PiecesOfSpaced(k: string)
    requires ' ' in k
    ensures |Pieces(k, ' ')| >= 2
  {
    if k[0] != ' ' {
      PiecesOfSpaced(k[1..]);
    }
  }

  lemma JoinStartsWith(ps: seq<string>, sep: char)
    requires |ps| >= 1
    ensures StartsWith(Join(ps, sep), ps[0])
  {
  }

  /** The key a promoted pawn gets: the first two words of its key, then "queen". */
  function QueenKey(k: string): (q: string)
    requires ' ' in k
    ensures |q| >= 7 && q[|q| - 6..] == " queen"
    ensures StartsWith(k, q[..|q| - 6])
  {
    PiecesOfSpaced(k);
    var parts := Pieces(k, ' ');
    JoinPieces(k, ' ');
    var rest := Join(parts[1..], ' ');
    JoinStartsWith(parts[1..], ' ');
    assert k == parts[0] + " " + rest;
    var q := parts[0] + " " + parts[1] + " queen";
    assert q[..|q| - 6] == parts[0] + " " + parts[1];
    assert k[..|parts[0]| + 1 + |parts[1]|] == parts[0] + " " + parts[1];
    q
  }

  /** For a key "<colour> <file> <type>" with one-letter first words, the
      promoted key is its first three characters followed by " queen". */
  lemma QueenKeyOfPieceKey(k: string)
    requires |k| >= 4 && k[0] != ' ' && k[1] == ' ' && k[2] != ' ' && k[3] == ' '
    ensures QueenKey(k) == k[..3] + " queen"
  {
    assert k == [k[0]] + " " + ([k[2]] + k[3..]);
    PiecesAround([k[0]], [k[2]] + k[3..], ' ');
    PiecesNoSep([k[0]], ' ');
    var rest := [k[2]] + k[3..];
    assert rest == [k[2]] + " " + k[4..];
    PiecesAround([k[2]], k[4..], ' ');
    PiecesNoSep([k[2]], ' ');
  }

  // ---------------------------------------------------------------------------
  // The square whose piece a move captures

  /** The en-passant test as the program writes it: the destination's name
      occurs anywhere in the FEN text. */
  predicate EnPassantAsWritten(fen: Fen, to: Point, kind: PieceType)
    requires OnBoard(to)
  {
    kind == Pawn && Contains(Text(fen), SquareName(to))
  }

  /** The en-passant test as intended: the destination is the FEN's
      en-passant target square. */
  predicate EnPassant(fen: Fen, to: Point, kind: PieceType)
    requires OnBoard(to)
  {
    kind == Pawn && fen.epSquare == SquareName(to)
  }

  /** The square of the pawn taken en passant: below the target when white
      moves, above it when black moves. */
  function Behind(to: Point, fen: Fen): (p: Point)
    ensures p.x == to.x && (p.y == to.y + 1 || p.y == to.y - 1)
    ensures p.y == to.y + 1 <==> Contains(Text(fen), "w")
  {
    Point(to.x, if Contains(Text(fen), "w") then to.y + 1 else to.y - 1)
  }

  function RemovalSquare(fen: Fen, to: Point, kind: PieceType): Point
    requires OnBoard(to)
  {
    if EnPassant(fen, to, kind) then Behind(to, fen) else to
  }

  function RemovalSquareAsWritten(fen: Fen, to: Point, kind: PieceType): Point
    requires OnBoard(to)
  {
    if EnPassantAsWritten(fen, to, kind) then Behind(to, fen) else to
  }

  /** What the promotion step needs of the moving key: a space, so that its
      first two words exist. */
  predicate PromotionKeyOk(b: Board, from: Point, to: Point, kind: PieceType, fen: Fen)
  {
    LivePromotes(kind, to, fen) && KeyAt(b, from) != "" ==> ' ' in KeyAt(b, from)
  }

  /** The key the moving piece is drawn under after the move. */
  function NewKey(b: Board, from: Point, to: Point, kind: PieceType, fen: Fen): string
    requires PromotionKeyOk(b, from, to, kind, fen) && KeyAt(b, from) != ""
  {
    if LivePromotes(kind, to, fen) then QueenKey(KeyAt(b, from)) else KeyAt(b, from)
  }

  /** The render-map update of a live move, with the captured piece looked
      for at `removeAt`. */
  function UpdateWith(b: Board, from: Point, to: Point, kind: PieceType, fen: Fen, removeAt: Point): (r: Board)
    requires OnBoard(from) && OnBoard(to)
    requires PromotionKeyOk(b, from, to, kind, fen)
    ensures KeyAt(b, from) == "" ==> r == b
    ensures KeyAt(b, from) != "" && LiveCastle(from, to, kind, fen).None? ==>
      var key := NewKey(b, from, to, kind, fen); key in r && r[key] == CellOf(to)
    ensures KeyAt(b, from) != "" && LiveCastle(from, to, kind, fen).Some? ==>
      var c := LiveCastle(from, to, kind, fen).value;
      KingKey(c) in r && r[KingKey(c)] == CellOf(KingTarget(c)) && RookKey(c) in r && r[RookKey(c)] == CellOf(RookTarget(c))
  {
    var mover := KeyAt(b, from);
    if mover == "" then b
    else
      var b1 := EraseFirstAt(b, CellOf(removeAt));
      var b2 := if LivePromotes(kind, to, fen) then b1 - {mover} else b1;
      match LiveCastle(from, to, kind, fen)
      case Some(c) => b2[RookKey(c) := CellOf(RookTarget(c))][KingKey(c) := CellOf(KingTarget(c))]
      case None => b2[NewKey(b, from, to, kind, fen) := CellOf(to)]
  }

  /** The live update with the intended en-passant test. */
  function Update(b: Board, from: Point, to: Point, kind: PieceType, fen: Fen): (r: Board)
    requires OnBoard(from) && OnBoard(to)
    requires PromotionKeyOk(b, from, to, kind, fen)
    ensures KeyAt(b, from) == "" ==> r == b
    ensures KeyAt(b, from) != "" && LiveCastle(from, to, kind, fen).None? ==>
      var key := NewKey(b, from, to, kind, fen); key in r && r[key] == CellOf(to)
  {
    UpdateWith(b, from, to, kind, fen, RemovalSquare(fen, to, kind))
  }

  /** The live update as the program writes it. */
  function UpdateAsWritten(b: Board, from: Point, to: Point, kind: PieceType, fen: Fen): (r: Board)
    requires OnBoard(from) && OnBoard(to)
    requires PromotionKeyOk(b, from, to, kind, fen)
    ensures KeyAt(b, from) == "" ==> r == b
    ensures KeyAt(b, from) != "" && LiveCastle(from, to, kind, fen).None? ==>
      var key := NewKey(b, from, to, kind, fen); key in r && r[key] == CellOf(to)
  {
    UpdateWith(b, from, to, kind, fen, RemovalSquareAsWritten(fen, to, kind))
  }

  /** A real en-passant capture passes the program's test too: the target
      square's name is the FEN's en-passant field, which the text holds. */
  lemma IntendedImpliesWritten(fen: Fen, to: Point, kind: PieceType)
    requires OnBoard(to)
    ensures EnPassant(fen, to, kind) ==> EnPassantAsWritten(fen, to, kind)
  {
    var e := fen.epSquare;
    var r4 := e + " " + (fen.halfmove + " " + fen.fullmove);
    var r3 := fen.castling + " " + r4;
    var r2 := fen.side + " " + r3;
    assert Text(fen) == fen.placement + " " + r2;
    ContainsItself(e);
    ContainsExtended(e, " ", e);
    ContainsExtended(e + " ", fen.halfmove + " " + fen.fullmove, e);
    ContainsPrefixed(fen.castling + " ", r4, e);
    ContainsPrefixed(fen.side + " ", r3, e);
    ContainsPrefixed(fen.placement + " ", r2, e);
  }

  /** The program's update and the intended one differ only where the two
      en-passant tests disagree; on a real en passant they coincide. */
  lemma UpdateAgrees(b: Board, from: Point, to: Point, kind: PieceType, fen: Fen)
    requires OnBoard(from) && OnBoard(to)
    requires PromotionKeyOk(b, from, to, kind, fen)
    ensures EnPassantAsWritten(fen, to, kind) == EnPassant(fen, to, kind) ==>
      UpdateAsWritten(b, from, to, kind, fen) == Update(b, from, to, kind, fen)
    ensures EnPassant(fen, to, kind) ==>
      UpdateAsWritten(b, from, to, kind, fen) == Update(b, from, to, kind, fen)
  {
    IntendedImpliesWritten(fen, to, kind);
  }

  /** An ordinary move or capture, one the program's substring test does
      not take for en passant: the moving piece (as a queen when it promotes)
      is drawn at the destination, whatever stood there is gone, and every
      other piece stays where it was. One key per cell is kept, and the
      intended update agrees. */
  lemma UpdateOrdinary(b: Board, from: Point, to: Point, kind: PieceType, fen: Fen)
    requires Valid(b) && OnBoard(from) && OnBoard(to) && from != to
    requires PromotionKeyOk(b, from, to, kind, fen) && KeyAt(b, from) != ""
    requires LiveCastle(from, to, kind, fen).None? && !EnPassantAsWritten(fen, to, kind)
    ensures var r := UpdateAsWritten(b, from, to, kind, fen);
      var key := NewKey(b, from, to, kind, fen);
      && r == Update(b, from, to, kind, fen)
      && Valid(r)
      && key in r && r[key] == CellOf(to)
      && (forall k :: k in r && k != key ==> k in b && r[k] == b[k] && b[k] != CellOf(to) && b[k] != CellOf(from))
      && (forall k :: k in b && b[k] != CellOf(to) && b[k] != CellOf(from) && k != key ==> k in r)
  {
    IntendedImpliesWritten(fen, to, kind);
    assert UpdateAsWritten(b, from, to, kind, fen) == UpdateWith(b, from, to, kind, fen, to);
    assert Update(b, from, to, kind, fen) == UpdateWith(b, from, to, kind, fen, to);
    ReplaceAtTarget(b, from, to, kind, fen);
  }

  /** The update that clears the target square itself. */
  lemma ReplaceAtTarget(b: Board, from: Point, to: Point, kind: PieceType, fen: Fen)
    requires Valid(b) && OnBoard(from) && OnBoard(to) && from != to
    requires PromotionKeyOk(b, from, to, kind, fen) && KeyAt(b, from) != ""
    requires LiveCastle(from, to, kind, fen).None?
    ensures var r := UpdateWith(b, from, to, kind, fen, to);
      var key := NewKey(b, from, to, kind, fen);
      && Valid(r)
      && key in r && r[key] == CellOf(to)
      && (forall k :: k in r && k != key ==> k in b && r[k] == b[k] && b[k] != CellOf(to) && b[k] != CellOf(from))
      && (forall k :: k in b && b[k] != CellOf(to) && b[k] != CellOf(from) && k != key ==> k in r)
  {
    var mover := KeyAt(b, from);
    assert b[mover] == CellOf(from);
  }

  /** En passant: the moving pawn is drawn at the empty target square and the
      pawn behind it, on the square it passed, is removed; nothing else changes. */
  lemma UpdateEnPassant(b: Board, from: Point, to: Point, kind: PieceType, fen: Fen)
    requires Valid(b) && OnBoard(from) && OnBoard(to) && from != to
    requires PromotionKeyOk(b, from, to, kind, fen) && KeyAt(b, from) != ""
    requires EnPassant(fen, to, kind) && !Occupied(b, CellOf(to)) && Behind(to, fen) != from
    ensures var r := Update(b, from, to, kind, fen);
      var key := NewKey(b, from, to, kind, fen);
      && Valid(r)
      && key in r && r[key] == CellOf(to)
      && !Occupied(r, CellOf(Behind(to, fen)))
      && (forall k :: k in r && k != key ==> k in b && r[k] == b[k] && b[k] != CellOf(Behind(to, fen)) && b[k] != CellOf(from))
      && (forall k :: k in b && b[k] != CellOf(Behind(to, fen)) && b[k] != CellOf(from) && k != key ==> k in r)
  {
    var mover := KeyAt(b, from);
    assert b[mover] == CellOf(from);
    assert LiveCastle(from, to, kind, fen).None?;
    assert CellOf(Behind(to, fen)) != CellOf(to);
  }

  /** Castling: exactly the king and its rook move, to the squares the wing
      prescribes; every other piece stays, and one key per cell is kept. */
  lemma UpdateCastle(b: Board, from: Point, to: Point, kind: PieceType, fen: Fen, c: Castle)
    requires Valid(b) && OnBoard(from) && OnBoard(to)
    requires LiveCastle(from, to, kind, fen) == Some(c)
    requires from == KingHome(c) && to == RookHome(c)
    requires KeyAt(b, from) == KingKey(c) && KeyAt(b, to) == RookKey(c)
    requires !Occupied(b, CellOf(KingTarget(c))) && !Occupied(b, CellOf(RookTarget(c)))
    ensures var r := Update(b, from, to, kind, fen);
      && Valid(r)
      && r.Keys == b.Keys
      && r[KingKey(c)] == CellOf(KingTarget(c)) && r[RookKey(c)] == CellOf(RookTarget(c))
      && (forall k :: k in b && k != KingKey(c) && k != RookKey(c) ==> r[k] == b[k])
  {
    var rk, kk := RookKey(c), KingKey(c);
    assert Update(b, from, to, kind, fen) == (b - {rk})[rk := CellOf(RookTarget(c))][kk := CellOf(KingTarget(c))] by {
      assert !LivePromotes(kind, to, fen);
      assert !EnPassant(fen, to, kind);
      FindUnique(b, CellOf(to), rk);
    }
    assert rk != kk && b[kk] == CellOf(from) && b[rk] == CellOf(to);
    RelocateTwo(b, rk, kk, CellOf(RookTarget(c)), CellOf(KingTarget(c)));
  }

  /** Two keys moved onto two distinct empty cells: the same keys, one per
      cell, and every other key where it was. */
  lemma RelocateTwo(b: Board, rk: string, kk: string, rc: Cell, kc: Cell)
    requires Valid(b) && rk in b && kk in b && rk != kk && rc != kc
    requires !Occupied(b, rc) && !Occupied(b, kc)
    ensures var r := (b - {rk})[rk := rc][kk := kc];
      && Valid(r) && r.Keys == b.Keys && r[kk] == kc && r[rk] == rc
      && (forall k :: k in b && k != kk && k != rk ==> r[k] == b[k])
  {
    var r := (b - {rk})[rk := rc][kk := kc];
    assert r.Keys == b.Keys;
    forall k, k' | k in r && k' in r && k != k'
      ensures r[k] != r[k']
    {
    }
  }

  // ---------------------------------------------------------------------------
  // The record of a live move

  /** The square the record names as destination: the clicked square, or the
      king's target square for a castle (c1, c8, g1, g8). */
  function RecordedDest(from: Point, to: Point, kind: PieceType, fen: Fen): (d: Point)
    requires OnBoard(from) && OnBoard(to)
    ensures OnBoard(d)
  {
    match LiveCastle(from, to, kind, fen)
    case Some(c) => KingTarget(c)
    case None => to
  }

  /** The text appended to the user's file for a live move. */
  function LiveRecord(from: Point, to: Point, kind: PieceType, fen: Fen): string
    requires OnBoard(from) && OnBoard(to)
  {
    Encode(from, kind, RecordedDest(from, to, kind, fen))
  }

  /** The review reads a live castle's record back as that same castle, and a
      live pawn capture as a diagonal pawn move. */
  lemma LiveRecordKind(from: Point, to: Point, kind: PieceType, fen: Fen)
    requires OnBoard(from) && OnBoard(to)
    ensures forall c :: LiveCastle(from, to, kind, fen) == Some(c) && from == KingHome(c) ==>
      KindOf(LiveRecord(from, to, kind, fen)) == CastleMove(c)
    ensures LiveCastle(from, to, kind, fen).None? ==>
      (KindOf(LiveRecord(from, to, kind, fen)) == DiagonalPawn <==> kind == Pawn && (from.x - to.x == 1 || to.x - from.x == 1))
  {
    EncodeKind(from, kind, RecordedDest(from, to, kind, fen));
  }

  // ---------------------------------------------------------------------------
  // The en-passant test as written fires on ordinary captures

  /** White to move with a black bishop on c1: the placement field holds "2b5". */
  const CounterFen: Fen := Fen("4k3/8/8/1p6/P7/8/4K3/2b5", "w", "-", "-", "0", "1")

  lemma CounterFenText()
    ensures Contains(Text(CounterFen), "b5") && Contains(Text(CounterFen), "w")
    ensures CounterFen.epSquare == "-"
  {
    var t := Text(CounterFen);
    assert t[22..24] == "b5";
    ContainsWitness(t, "b5", 22);
    assert t[24..26] == " w";
    ContainsWitness(t, "w", 25);
  }

  /** The board of the counterexample: a white pawn on a4, a black pawn on b5. */
  const CounterBoard: Board := map["w a pawn" := Cell(4, 0), "b b pawn" := Cell(3, 1)]

  lemma CounterBoardKeys()
    ensures KeyAt(CounterBoard, Point(0, 4)) == "w a pawn"
    ensures !Occupied(CounterBoard, Cell(4, 1))
    ensures EraseFirstAt(CounterBoard, Cell(3, 1)) == map["w a pawn" := Cell(4, 0)]
  {
    var b := CounterBoard;
    FindUnique(b, Cell(4, 0), "w a pawn");
    FindUnique(b, Cell(3, 1), "b b pawn");
    assert forall k :: k in b ==> b[k] != Cell(4, 1);
  }

  /** a4 takes the black pawn on b5, an ordinary capture (there is no
      en-passant square), yet the as-written test fires because the text "b5"
      occurs in the FEN. */
  lemma EnPassantTestMisfires()
    ensures EnPassantAsWritten(CounterFen, Point(1, 3), Pawn)
    ensures !EnPassant(CounterFen, Point(1, 3), Pawn)
  {
    CounterFenText();
    assert SquareName(Point(1, 3)) == "b5";
  }

  /** The program then clears the empty square b4 instead of b5, and both
      pawns end up drawn on b5. */
  lemma MisfireDrawsTwoPawns()
    ensures !Injective(UpdateAsWritten(CounterBoard, Point(0, 4), Point(1, 3), Pawn, CounterFen))
  {
    var from, to := Point(0, 4), Point(1, 3);
    EnPassantTestMisfires();
    CounterFenText();
    CounterBoardKeys();
    assert RemovalSquareAsWritten(CounterFen, to, Pawn) == Point(1, 4);
    assert LiveCastle(from, to, Pawn, CounterFen).None?;
    var r := UpdateAsWritten(CounterBoard, from, to, Pawn, CounterFen);
    assert r == CounterBoard["w a pawn" := Cell(3, 1)];
    assert r["w a pawn"] == r["b b pawn"];
  }

  /** With the intended test the capture removes the black pawn. */
  lemma IntendedTestCaptures()
    ensures Update(CounterBoard, Point(0, 4), Point(1, 3), Pawn, CounterFen) == map["w a pawn" := Cell(3, 1)]
  {
    var from, to := Point(0, 4), Point(1, 3);
    EnPassantTestMisfires();
    CounterBoardKeys();
    assert RemovalSquare(CounterFen, to, Pawn) == to;
    assert LiveCastle(from, to, Pawn, CounterFen).None?;
  }
}
