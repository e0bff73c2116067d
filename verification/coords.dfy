/** The three coordinate systems of the board and the translations between
    them: display points (QPoint, row 0 at the top), the engine's 0..63 square
    index (a1 = 0, rank-major), and algebraic square names ("e4"). */
module Coords {

  /** A display point: `x` is the column (0 = file a), `y` the row (0 = rank 8). */
  datatype Point = Point(x: int, y: int)

  /** The point fenToGui answers when no square has the given name. */
  const NotFound: Point := Point(-1, -1)

  predicate OnBoard(p: Point)
  {
    0 <= p.x < 8 && 0 <= p.y < 8
  }

  /** squareFromQt: the engine square index of a display point. */
  function SquareFromQt(q: Point): (sq: int)
    ensures OnBoard(q) ==> 0 <= sq < 64
  {
    (7 - q.y) * 8 + q.x
  }

  /** qtFromSquare: the display point of an engine square index. */
  function QtFromSquare(sq: nat): (p: Point)
    ensures p.x in {0, 1, 2, 3, 4, 5, 6, 7}
    ensures sq < 64 <==> OnBoard(p)
  {
    Point(sq % 8, 7 - sq / 8)
  }

  /** Every board point survives the trip to an engine square and back. */
  lemma {:induction false} QtFromSquareInverse(p: Point)
    requires OnBoard(p)
    ensures QtFromSquare(SquareFromQt(p)) == p
  {
    var sq := SquareFromQt(p);
    assert sq == (7 - p.y) * 8 + p.x;
    assert sq / 8 == 7 - p.y;
    assert sq % 8 == p.x;
  }

  /** Every engine square survives the trip to a display point and back. */
  lemma {:induction false} SquareFromQtInverse(sq: nat)
    ensures SquareFromQt(QtFromSquare(sq)) == sq
  {
    assert (sq / 8) * 8 + sq % 8 == sq;
  }

  /** A move of the rules engine, by square index. */
  datatype ChessMove = ChessMove(from: nat, to: nat)

  /** qtFromMove: the display point of a move's destination, computed on its own
      in the original and agreeing with qtFromSquare. */
  function QtFromMove(mv: ChessMove): (p: Point)
    ensures p == QtFromSquare(mv.to)
  {
    var rank := mv.to / 8;
    var file := mv.to % 8;
    Point(file, 7 - rank)
  }

  /** chess::PieceType, with NONE for an empty square. */
  datatype PieceType = Pawn | Knight | Bishop | Rook | Queen | King | NoPiece

  /** pieceTypeToQString: the lower-case name used inside board keys and move
      records, empty for an empty square. */
  function PieceTypeName(pt: PieceType): (s: string)
    ensures s == "" <==> pt == NoPiece
    ensures s != "" ==> 4 <= |s| <= 6
  {
    match pt
    case Pawn => "pawn"
    case Knight => "knight"
    case Bishop => "bishop"
    case Rook => "rook"
    case Queen => "queen"
    case King => "king"
    case NoPiece => ""
  }

  function FileChar(x: int): char
    requires 0 <= x < 8
  {
    ('a' as int + x) as char
  }

  function RankChar(y: int): char
    requires 0 <= y < 8
  {
    ('1' as int + (7 - y)) as char
  }

  /** guiToFen[p]: the algebraic name of a board point. */
  function SquareName(p: Point): (n: string)
    requires OnBoard(p)
    ensures |n| == 2 && 'a' <= n[0] <= 'h' && '1' <= n[1] <= '8'
  {
    [FileChar(p.x), RankChar(p.y)]
  }

  const BoardPoints: set<Point> := set x: int, y: int | 0 <= x < 8 && 0 <= y < 8 :: Point(x, y)

  /** The table guiToFen. The program declares it outside the files this
      model covers; it is taken to name each board point by file and rank. */
  const GuiToFen: map<Point, string> := map p | p in BoardPoints :: SquareName(p)

  /** fenToGui: the point whose algebraic name is `name`, or NotFound. */
  function FenToGui(name: string): (p: Point)
    ensures p != NotFound ==> p in GuiToFen && GuiToFen[p] == name
    ensures p == NotFound <==> forall q :: q in GuiToFen ==> GuiToFen[q] != name
  {
    if |name| == 2 && 'a' <= name[0] <= 'h' && '1' <= name[1] <= '8' then
      var p := Point(name[0] as int - 'a' as int, 7 - (name[1] as int - '1' as int));
      assert p in BoardPoints;
      assert SquareName(p) == name;
      p
    else NotFound
  }

  /** fenToGui undoes guiToFen: the name of a board point leads back to it. */
  lemma FenToGuiOfName(p: Point)
    requires OnBoard(p)
    ensures FenToGui(SquareName(p)) == p
  {
    assert p in BoardPoints;
    var q := FenToGui(SquareName(p));
    assert q in GuiToFen;
    assert q.x == p.x && q.y == p.y;
  }
}
