/** Move records: the text "<from> <piece> <to>" (for example "e2 pawn e4")
    that a live game appends to the user's file for every move, and the way
    the review screen reads such a record back. */
module Records {
  import opened Base
  import opened Strings
  import opened Coords

  /** The four castles, by side and wing. */
  datatype Castle = WhiteQueenside | WhiteKingside | BlackQueenside | BlackKingside

  predicate IsWhite(c: Castle)
  {
    c == WhiteQueenside || c == WhiteKingside
  }

  predicate IsQueenside(c: Castle)
  {
    c == WhiteQueenside || c == BlackQueenside
  }

  function HomeRow(c: Castle): int
  {
    if IsWhite(c) then 7 else 0
  }

  function KingHome(c: Castle): Point
  {
    Point(4, HomeRow(c))
  }

  /** Where the king lands; the record names this square (c1, g1, c8, g8). */
  function KingTarget(c: Castle): Point
  {
    Point(if IsQueenside(c) then 2 else 6, HomeRow(c))
  }

  function RookHome(c: Castle): Point
  {
    Point(if IsQueenside(c) then 0 else 7, HomeRow(c))
  }

  function RookTarget(c: Castle): Point
  {
    Point(if IsQueenside(c) then 3 else 5, HomeRow(c))
  }

  /** The render-map keys the live game moves when it castles. */
  function RookKey(c: Castle): string
  {
    match c
    case WhiteQueenside => "w a rook"
    case WhiteKingside => "w h rook"
    case BlackQueenside => "b a rook"
    case BlackKingside => "b h rook"
  }

  function KingKey(c: Castle): string
  {
    if IsWhite(c) then "w king" else "b king"
  }

  /** The record the live game writes for a move from `from` whose recorded
      destination is `dest`. */
  function Encode(from: Point, kind: PieceType, dest: Point): (m: string)
    requires OnBoard(from) && OnBoard(dest)
    ensures |m| >= 6
  {
    SquareName(from) + " " + PieceTypeName(kind) + " " + SquareName(dest)
  }

  // ---------------------------------------------------------------------------
  // Reading a record back (mousePressReview). Every branch reads substr(3, 4),
  // which throws on records shorter than three characters; the review step
  // checks that before calling these.

  /** substr(0, 2): the square the move starts from. */
  function Origin(m: string): string
    requires |m| >= 3
  {
    m[..2]
  }

  /** substr(size - 2, 2): the square the move ends on. */
  function Dest(m: string): string
    requires |m| >= 3
  {
    m[|m| - 2..]
  }

  /** substr(3, 4): where the piece name starts. */
  function PieceField(m: string): string
    requires |m| >= 3
  {
    Take(m[3..], 4)
  }

  predicate IsPawnRecord(m: string)
    requires |m| >= 3
  {
    PieceField(m) == "pawn"
  }

  /** A pawn record whose last character is '1' or '8'. */
  predicate Promotes(m: string)
    requires |m| >= 3
  {
    IsPawnRecord(m) && m[|m| - 1] in {'1', '8'}
  }

  /** The castle the review recognises in a record, tested in the order
      e1-c1, e1-g1, e8-c8, e8-g8, each also asking for the text "king". */
  function CastleOf(m: string): Option<Castle>
    requires |m| >= 3
  {
    if Origin(m) == "e1" && Dest(m) == "c1" && Contains(m, "king") then Some(WhiteQueenside)
    else if Origin(m) == "e1" && Dest(m) == "g1" && Contains(m, "king") then Some(WhiteKingside)
    else if Origin(m) == "e8" && Dest(m) == "c8" && Contains(m, "king") then Some(BlackQueenside)
    else if Origin(m) == "e8" && Dest(m) == "g8" && Contains(m, "king") then Some(BlackKingside)
    else None
  }

  /** The file table of the review: a..h, and the other file one step away. */
  predicate AdjacentFiles(a: char, b: char)
  {
    'a' <= a <= 'h' && 'a' <= b <= 'h' && (a as int - b as int == 1 || b as int - a as int == 1)
  }

  /** A pawn record between adjacent files: a capture, en passant or not. */
  predicate PawnDiagonal(m: string)
    requires |m| >= 3
  {
    IsPawnRecord(m) && AdjacentFiles(m[0], m[|m| - 2])
  }

  /** The three ways the review replays a record. */
  datatype Kind = CastleMove(castle: Castle) | DiagonalPawn | Plain

  function KindOf(m: string): (k: Kind)
    requires |m| >= 3
    ensures k.CastleMove? <==> CastleOf(m).Some?
    ensures k == DiagonalPawn <==> CastleOf(m).None? && PawnDiagonal(m)
  {
    match CastleOf(m)
    case Some(c) => CastleMove(c)
    case None => if PawnDiagonal(m) then DiagonalPawn else Plain
  }

  // ---------------------------------------------------------------------------
  // Written records read back as the move that was made

  lemma SquareNameChars(p: Point)
    requires OnBoard(p)
    ensures 'k' !in SquareName(p) && 'i' !in SquareName(p) && ' ' !in SquareName(p)
  {
  }

  /** A record mentions "king" exactly when a king moved. */
  lemma EncodeMentionsKing(from: Point, kind: PieceType, dest: Point)
    requires OnBoard(from) && OnBoard(dest)
    ensures Contains(Encode(from, kind, dest), "king") <==> kind == King
  {
    var a, b := SquareName(from), SquareName(dest);
    var m := Encode(from, kind, dest);
    SquareNameChars(from);
    SquareNameChars(dest);
    match kind {
      case King =>
        assert m[3..7] == "king";
        ContainsWitness(m, "king", 3);
      case Knight =>
        assert m == (a + " ") + ("knight " + b);
        assert ("knight " + b)[2] == 'i' != "king"[2];
        NoOccurrence(a + " ", "knight " + b, "king");
      case Rook =>
        MissingChar(m, "king", 1);
      case Bishop =>
        MissingChar(m, "king", 0);
      case _ =>
        MissingChar(m, "king", 0);
    }
  }

  /** The review reads a written record back as the same squares, the same
      pawn test and the same promotion test. */
  lemma EncodeDecodes(from: Point, kind: PieceType, dest: Point)
    requires OnBoard(from) && OnBoard(dest)
    ensures var m := Encode(from, kind, dest);
      && Origin(m) == SquareName(from) && FenToGui(Origin(m)) == from
      && Dest(m) == SquareName(dest) && FenToGui(Dest(m)) == dest
      && (IsPawnRecord(m) <==> kind == Pawn)
      && (Promotes(m) <==> kind == Pawn && (dest.y == 0 || dest.y == 7))
  {
    var m := Encode(from, kind, dest);
    var name := PieceTypeName(kind);
    assert m[..2] == SquareName(from);
    assert m[|m| - 2..] == SquareName(dest);
    FenToGuiOfName(from);
    FenToGuiOfName(dest);
    assert m[3..] == name + " " + SquareName(dest);
    if kind != Pawn {
      assert PieceField(m) != "pawn" by {
        if name == "" {
          assert |PieceField(m)| == 3;
        } else {
          assert PieceField(m)[0] == name[0];
        }
      }
    }
  }

  /** The review classifies a written record by the move that was made: a
      castle exactly when a king went from its home square to a castle
      target, a diagonal pawn exactly when a pawn changed file by one. */
  lemma EncodeKind(from: Point, kind: PieceType, dest: Point)
    requires OnBoard(from) && OnBoard(dest)
    ensures var m := Encode(from, kind, dest);
      && (forall c :: KindOf(m) == CastleMove(c) <==> kind == King && from == KingHome(c) && dest == KingTarget(c))
      && (KindOf(m) == DiagonalPawn <==> kind == Pawn && (from.x - dest.x == 1 || dest.x - from.x == 1))
  {
    var m := Encode(from, kind, dest);
    EncodeDecodes(from, kind, dest);
    EncodeMentionsKing(from, kind, dest);
    assert m[0] == SquareName(from)[0] && m[|m| - 2] == SquareName(dest)[0];
    forall c: Castle
      ensures SquareName(from) == SquareName(KingHome(c)) <==> from == KingHome(c)
      ensures SquareName(dest) == SquareName(KingTarget(c)) <==> dest == KingTarget(c)
    {
      FenToGuiOfName(from);
      FenToGuiOfName(dest);
      FenToGuiOfName(KingHome(c));
      FenToGuiOfName(KingTarget(c));
    }
    assert SquareName(KingHome(WhiteQueenside)) == "e1";
    assert SquareName(KingTarget(WhiteQueenside)) == "c1";
    assert SquareName(KingTarget(WhiteKingside)) == "g1";
    assert SquareName(KingHome(BlackQueenside)) == "e8";
    assert SquareName(KingTarget(BlackQueenside)) == "c8";
    assert SquareName(KingTarget(BlackKingside)) == "g8";
  }
}
