/** The render map `boardGui`: a QMap from piece keys ("w a pawn", "b queen")
    to the cell where each piece is drawn, and the primitive operations the
    board applies to it. A QMap visits its keys in ascending QString order,
    so "the first key found at a cell" is the least such key. */
module RenderMap {
  import opened Strings
  import opened Coords

  /** guiPiece: a drawing cell, row 0 at the top, column 0 = file a. */
  datatype Cell = Cell(row: int, col: int)

  type Board = map<string, Cell>

  function CellOf(p: Point): Cell
  {
    Cell(p.y, p.x)
  }

  /** Some key is drawn at `c`. */
  predicate Occupied(b: Board, c: Cell)
  {
    exists k :: k in b && b[k] == c
  }

  function KeysAt(b: Board, c: Cell): (ks: set<string>)
    ensures ks == {} <==> !Occupied(b, c)
  {
    var ks := set k | k in b && b[k] == c;
    assert Occupied(b, c) ==> ks != {} by {
      if Occupied(b, c) {
        var k :| k in b && b[k] == c;
        assert k in ks;
      }
    }
    ks
  }

  /** No two keys share a cell. */
  predicate Injective(b: Board)
  {
    forall k, k' :: k in b && k' in b && k != k' ==> b[k] != b[k']
  }

  /** The shape every board the program builds keeps: one key per cell and no
      empty key (an empty key is what the lookups report for "nothing here"). */
  predicate Valid(b: Board)
  {
    Injective(b) && "" !in b
  }

  /** The key the board's loops stop at: the first key, in QMap order, drawn at `c`. */
  function FirstAt(b: Board, c: Cell): (k: string)
    requires Occupied(b, c)
    ensures k in b && b[k] == c
    ensures forall k' :: k' in b && b[k'] == c && k' != k ==> Less(k, k')
  {
    Least(KeysAt(b, c))
  }

  /** findKeyByCoords: the first key drawn at (row, col), or "" when none is. */
  function FindKeyByCoords(b: Board, row: int, col: int): (k: string)
    ensures k != "" ==> k in b && b[k] == Cell(row, col)
    ensures k != "" ==> forall k' :: k' in b && b[k'] == Cell(row, col) && k' != k ==> Less(k, k')
    ensures k == "" <==> !Occupied(b, Cell(row, col)) || ("" in b && b[""] == Cell(row, col))
  {
    if Occupied(b, Cell(row, col)) then
      var k := FirstAt(b, Cell(row, col));
      assert forall k' :: !Less(k', "");
      k
    else ""
  }

  /** The lookup at a point. */
  function KeyAt(b: Board, p: Point): string
  {
    FindKeyByCoords(b, p.y, p.x)
  }

  /** The erase loop that stops after its first hit: drops the first key drawn
      at `c`, whatever it is. */
  function EraseFirstAt(b: Board, c: Cell): (r: Board)
    ensures r.Keys <= b.Keys && forall k :: k in r ==> r[k] == b[k]
    ensures !Occupied(b, c) ==> r == b
    ensures Occupied(b, c) ==> |r.Keys| == |b.Keys| - 1
    ensures Injective(b) ==> !Occupied(r, c) && forall k :: k in b && b[k] != c ==> k in r
  {
    if Occupied(b, c) then b - {FirstAt(b, c)} else b
  }

  /** The erase loop that runs to the end: drops every key drawn at `c`. */
  function EraseAllAt(b: Board, c: Cell): (r: Board)
    ensures !Occupied(r, c)
    ensures forall k :: k in r <==> k in b && b[k] != c
    ensures forall k :: k in r ==> r[k] == b[k]
  {
    map k | k in b && b[k] != c :: b[k]
  }

  /** movePiece: the first key drawn at `from` is redrawn at `to`, after every
      key drawn at `to` has been removed; with no key at `from` (or only the
      empty key) nothing changes. */
  function MovePiece(b: Board, from: Point, to: Point): (r: Board)
    ensures KeyAt(b, from) == "" ==> r == b
    ensures KeyAt(b, from) != "" ==>
      && KeyAt(b, from) in r && r[KeyAt(b, from)] == CellOf(to)
      && (forall k :: k in r && k != KeyAt(b, from) <==> k in b && k != KeyAt(b, from) && b[k] != CellOf(to))
      && (forall k :: k in r && k != KeyAt(b, from) ==> r[k] == b[k])
  {
    var mover := KeyAt(b, from);
    if mover == "" then b else EraseAllAt(b, CellOf(to))[mover := CellOf(to)]
  }

  /** movePiece keeps a valid board valid. */
  lemma MovePieceValid(b: Board, from: Point, to: Point)
    requires Valid(b)
    ensures Valid(MovePiece(b, from, to))
  {
  }

  /** On a board with one key per cell, the lookup at an occupied cell finds
      its only key. */
  lemma {:induction false} FindUnique(b: Board, c: Cell, k: string)
    requires Injective(b) && k in b && b[k] == c
    ensures KeysAt(b, c) == {k}
    ensures FirstAt(b, c) == k
    ensures FindKeyByCoords(b, c.row, c.col) == k
  {
    assert forall k' :: k' in KeysAt(b, c) ==> k' == k;
  }

  /** On a board with one key per cell, moving the key at `from` is a plain
      relocation after clearing `to`. */
  lemma {:induction false} MoveUnique(b: Board, from: Point, to: Point, k: string)
    requires Injective(b) && k in b && k != "" && b[k] == CellOf(from)
    ensures KeyAt(b, from) == k
    ensures MovePiece(b, from, to) == EraseAllAt(b, CellOf(to))[k := CellOf(to)]
  {
    FindUnique(b, CellOf(from), k);
  }

  /** The board the constructor and gameOver draw, row by row. */
  const StartBoard: Board := WhitePawns + BlackPawns + WhiteBack + BlackBack

  const WhitePawns: Board := map[
    "w a pawn" := Cell(6, 0), "w b pawn" := Cell(6, 1), "w c pawn" := Cell(6, 2), "w d pawn" := Cell(6, 3),
    "w e pawn" := Cell(6, 4), "w f pawn" := Cell(6, 5), "w g pawn" := Cell(6, 6), "w h pawn" := Cell(6, 7)]

  const BlackPawns: Board := map[
    "b a pawn" := Cell(1, 0), "b b pawn" := Cell(1, 1), "b c pawn" := Cell(1, 2), "b d pawn" := Cell(1, 3),
    "b e pawn" := Cell(1, 4), "b f pawn" := Cell(1, 5), "b g pawn" := Cell(1, 6), "b h pawn" := Cell(1, 7)]

  const WhiteBack: Board := map[
    "w a rook" := Cell(7, 0), "w h rook" := Cell(7, 7), "w b knight" := Cell(7, 1), "w g knight" := Cell(7, 6),
    "w c bishop" := Cell(7, 2), "w f bishop" := Cell(7, 5), "w queen" := Cell(7, 3), "w king" := Cell(7, 4)]

  const BlackBack: Board := map[
    "b a rook" := Cell(0, 0), "b h rook" := Cell(0, 7), "b b knight" := Cell(0, 1), "b g knight" := Cell(0, 6),
    "b c bishop" := Cell(0, 2), "b f bishop" := Cell(0, 5), "b queen" := Cell(0, 3), "b king" := Cell(0, 4)]
}
