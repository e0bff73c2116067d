/** How a game ends: the outcomes the live game detects, and what the
    game-over message announces, live or at the end of a review. */
module Outcomes {
  import opened Strings

  /** The game-over conditions mousePressGame checks. `loser` is the side to
      move in the checkmated position ("w" or "b"). */
  datatype Outcome = Checkmate(loser: string) | Stalemate | Insufficient | Threefold | Fifty

  /** The game-over message boxes: gameOverCM's two verdicts, the four draws,
      and gameOverUN's "Erroneous Finish". */
  datatype Ending = Erroneous | WhiteWins | BlackWins
                  | StalemateDraw | InsufficientDraw | ThreefoldDraw | FiftyDraw

  /** What a live game over announces: gameOverCM declares the side not to
      move the winner. */
  function Announced(o: Outcome): (e: Ending)
    ensures e != Erroneous
    ensures e == WhiteWins <==> o == Checkmate("b")
    ensures e == BlackWins <==> o.Checkmate? && o.loser != "b"
  {
    match o
    case Checkmate(loser) => if loser == "b" then WhiteWins else BlackWins
    case Stalemate => StalemateDraw
    case Insufficient => InsufficientDraw
    case Threefold => ThreefoldDraw
    case Fifty => FiftyDraw
  }

  /** The end of a review: an unfinished game is announced as erroneous, and
      independently of that the first matching verdict of the if-else chain is
      announced; `isWhite` is the colour the review read off the record. */
  function ReviewEndings(info: string, isWhite: bool): (es: seq<Ending>)
    ensures |es| <= 2
    ensures (Contains(info, "Quit") || Contains(info, "Undetermined")) <==> |es| > 0 && es[0] == Erroneous
    ensures forall i :: 1 <= i < |es| ==> es[i] != Erroneous
  {
    var unfinished := if Contains(info, "Quit") || Contains(info, "Undetermined") then [Erroneous] else [];
    var win, loss := Contains(info, "Win"), Contains(info, "Loss");
    var verdict :=
      if Contains(info, "Stalemate") then [StalemateDraw]
      else if Contains(info, "Insufficient Material") then [InsufficientDraw]
      else if Contains(info, "Threefold Repetition") then [ThreefoldDraw]
      else if Contains(info, "Fifty Move Rule") then [FiftyDraw]
      else if (win && isWhite) || (loss && !isWhite) then [WhiteWins]
      else if (loss && isWhite) || (win && !isWhite) then [BlackWins]
      else [];
    unfinished + verdict
  }
}
