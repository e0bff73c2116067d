/** The rules engine's position text (FEN): six space-separated fields. The
    board reads it through getFen() and QString::split(' '), and through
    plain substring tests on the whole text. */
module Fen {
  import opened Strings
  import Numbers

  datatype Fen = Fen(placement: string, side: string, castling: string, epSquare: string, halfmove: string, fullmove: string)

  function Fields(f: Fen): (fs: seq<string>)
    ensures |fs| == 6
  {
    [f.placement, f.side, f.castling, f.epSquare, f.halfmove, f.fullmove]
  }

  /** getFen(): the six fields, separated by single spaces. */
  function Text(f: Fen): string
  {
    f.placement + " " + (f.side + " " + (f.castling + " " + (f.epSquare + " " + (f.halfmove + " " + f.fullmove))))
  }

  predicate CharsIn(s: string, cs: set<char>)
  {
    forall i :: 0 <= i < |s| ==> s[i] in cs
  }

  const PlacementChars: set<char> := {'p', 'n', 'b', 'r', 'q', 'k', 'P', 'N', 'B', 'R', 'Q', 'K',
                                      '1', '2', '3', '4', '5', '6', '7', '8', '/'}

  /** The shape of every FEN the engine produces. */
  predicate WellFormed(f: Fen)
  {
    && |f.placement| > 0 && CharsIn(f.placement, PlacementChars)
    && f.side in {"w", "b"}
    && |f.castling| > 0 && CharsIn(f.castling, {'K', 'Q', 'k', 'q', '-'})
    && (f.epSquare == "-" || (|f.epSquare| == 2 && 'a' <= f.epSquare[0] <= 'h' && f.epSquare[1] in {'3', '6'}))
    && |f.halfmove| > 0 && Numbers.AllDigits(f.halfmove)
    && |f.fullmove| > 0 && Numbers.AllDigits(f.fullmove)
  }

  /** QString::split(' ') of getFen() gives back the six fields, so fenParts[i]
      is field i. */
  lemma SplitText(f: Fen)
    requires WellFormed(f)
    ensures Pieces(Text(f), ' ') == Fields(f)
  {
    NoSpaceInFields(f);
    var r4 := f.halfmove + [' '] + f.fullmove;
    var r3 := f.epSquare + [' '] + r4;
    var r2 := f.castling + [' '] + r3;
    var r1 := f.side + [' '] + r2;
    assert Pieces(r4, ' ') == [f.halfmove, f.fullmove] by {
      SplitFirst(f.halfmove, f.fullmove, ' ');
      PiecesNoSep(f.fullmove, ' ');
    }
    assert Pieces(r3, ' ') == [f.epSquare, f.halfmove, f.fullmove] by {
      SplitFirst(f.epSquare, r4, ' ');
    }
    assert Pieces(r2, ' ') == [f.castling, f.epSquare, f.halfmove, f.fullmove] by {
      SplitFirst(f.castling, r3, ' ');
    }
    assert Pieces(r1, ' ') == Fields(f)[1..] by {
      SplitFirst(f.side, r2, ' ');
    }
    SplitFirst(f.placement, r1, ' ');
  }

  /** A separator-free text followed by the separator is the first piece. */
  lemma SplitFirst(x: string, y: string, sep: char)
    requires sep !in x
    ensures Pieces(x + [sep] + y, sep) == [x] + Pieces(y, sep)
  {
    PiecesAround(x, y, sep);
    PiecesNoSep(x, sep);
  }

  lemma NoSpaceInFields(f: Fen)
    requires WellFormed(f)
    ensures ' ' !in f.placement && ' ' !in f.side && ' ' !in f.castling
    ensures ' ' !in f.epSquare && ' ' !in f.halfmove && ' ' !in f.fullmove
  {
    assert forall i :: 0 <= i < |f.halfmove| ==> Numbers.IsDigit(f.halfmove[i]);
    assert forall i :: 0 <= i < |f.fullmove| ==> Numbers.IsDigit(f.fullmove[i]);
  }

  /** The test `fen contains "w"` the board uses for "white is moving" agrees
      with the side-to-move field, because no other field of a FEN can hold a 'w'. */
  lemma SideInText(f: Fen)
    requires WellFormed(f)
    ensures Contains(Text(f), "w") <==> f.side == "w"
  {
    var t := Text(f);
    if f.side == "w" {
      assert t[|f.placement| + 1..|f.placement| + 2] == "w";
      ContainsWitness(t, "w", |f.placement| + 1);
    } else {
      assert 'w' !in f.placement && 'w' !in f.castling && 'w' !in f.epSquare;
      assert 'w' !in f.halfmove && 'w' !in f.fullmove;
      MissingChar(t, "w", 0);
    }
  }

  /** The text of a position begins with its placement field. */
  lemma TextBegins(f: Fen)
    ensures Text(f)[..|f.placement|] == f.placement
  {
  }

  /** The position every game starts from. */
  const Start: Fen := Fen("rnbqkbnr/pppppppp/8/8/8/8/PPPPPPPP/RNBQKBNR", "w", "KQkq", "-", "0", "1")

  /** The text the board compares getFen() with to recognise the start. */
  const StartText: string := Text(Start)
}
