/** The threefold-repetition window: the (placement, castling) fields of the
    positions reached without an en-passant right, the last nine of them kept,
    and a pattern test each time a tenth arrives. */
module Repetition {
  import opened Fen

  /** threeMoveStale and threeMoveCastle, index by index. */
  datatype Window = Window(positions: seq<string>, rights: seq<string>)

  /** What the program keeps true between moves: the two lists grow together,
      never empty, never longer than nine. */
  predicate Inv(w: Window)
  {
    |w.positions| == |w.rights| && 1 <= |w.positions| <= 9
  }

  /** The window the constructor and gameOver set up: the start position alone. */
  const Initial: Window := Window([Start.placement], [Start.castling])

  /** The repetition test on ten fingerprints. */
  predicate Pattern(p: seq<string>, c: seq<string>)
    requires |p| == 10 && |c| == 10
  {
    p[0] == p[4] && p[0] == p[8] && p[1] == p[5] && p[1] == p[9] && c[0] == c[8] && c[1] == c[9]
  }

  datatype Step = Step(window: Window, flagged: bool)

  /** The window after a move reaching position `f`; `flagged` is whether the
      move raises the pending-threefold flag. */
  function Track(w: Window, f: Fen): (s: Step)
    requires Inv(w)
    ensures Inv(s.window)
  {
    if f.epSquare != "-" then Step(w, false)
    else
      var p := w.positions + [f.placement];
      var c := w.rights + [f.castling];
      if |p| == 10 then Step(Window(p[1..], c[1..]), Pattern(p, c)) else Step(Window(p, c), false)
  }

  /** The last `n` elements (all of them when there are fewer). */
  function LastN<T>(s: seq<T>, n: nat): (r: seq<T>)
    ensures |r| == if |s| <= n then |s| else n
  {
    if |s| <= n then s else s[|s| - n..]
  }

  /** Every placement field the window has been offered in a game whose
      positions after each move are `fens`: the start position, then every
      position reached without an en-passant right. */
  function Positions(fens: seq<Fen>): (r: seq<string>)
    ensures |r| >= 1
  {
    if |fens| == 0 then [Start.placement]
    else
      var f := fens[|fens| - 1];
      Positions(fens[..|fens| - 1]) + (if f.epSquare == "-" then [f.placement] else [])
  }

  /** The castling fields, alongside Positions. */
  function Rights(fens: seq<Fen>): (r: seq<string>)
    ensures |r| == |Positions(fens)|
  {
    if |fens| == 0 then [Start.castling]
    else
      var f := fens[|fens| - 1];
      Rights(fens[..|fens| - 1]) + (if f.epSquare == "-" then [f.castling] else [])
  }

  /** The window after the moves of a game. */
  function Run(fens: seq<Fen>): (w: Window)
    ensures Inv(w)
  {
    if |fens| == 0 then Initial else Track(Run(fens[..|fens| - 1]), fens[|fens| - 1]).window
  }

  lemma LastNStep<T>(s: seq<T>, x: T)
    requires |s| >= 9
    ensures (LastN(s, 9) + [x])[1..] == LastN(s + [x], 9)
  {
  }

  /** The window always holds the latest nine fingerprints of the game. */
  lemma {:induction false} RunKeepsLatest(fens: seq<Fen>)
    ensures Run(fens) == Window(LastN(Positions(fens), 9), LastN(Rights(fens), 9))
  {
    if |fens| > 0 {
      var init, f := fens[..|fens| - 1], fens[|fens| - 1];
      RunKeepsLatest(init);
      if f.epSquare == "-" {
        var P, R := Positions(init), Rights(init);
        if |P| >= 9 {
          LastNStep(P, f.placement);
          LastNStep(R, f.castling);
        }
      }
    }
  }

  /** A move raises the flag exactly when it adds a fingerprint and the last
      ten fingerprints of the game, oldest first, repeat the first two
      positions three times each with matching castling rights. */
  lemma FlagMeansPattern(fens: seq<Fen>, f: Fen)
    ensures var P, R := Positions(fens + [f]), Rights(fens + [f]);
      Track(Run(fens), f).flagged <==>
        f.epSquare == "-" && |P| >= 10 && Pattern(LastN(P, 10), LastN(R, 10))
  {
    assert (fens + [f])[..|fens|] == fens;
    RunKeepsLatest(fens);
    var P, R := Positions(fens), Rights(fens);
    if f.epSquare == "-" && |P| >= 9 {
      assert LastN(P, 9) + [f.placement] == LastN(P + [f.placement], 10);
      assert LastN(R, 9) + [f.castling] == LastN(R + [f.castling], 10);
    }
  }
}
