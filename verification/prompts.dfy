/** The integer prompts of the session: the game mode, the game to review
    and the opponent's elo. Each reply is trimmed and read with std::stoi;
    the prompt then accepts it, ends the program (std::exit(0)), or warns and
    asks again. The dialogs themselves are replaced by the text typed. */
module Prompts {
  import opened Base
  import opened Strings
  import opened Numbers
  import GameLog

  /** What a prompt does with one reply. */
  datatype Reply<+T> = Accept(value: T) | Exit | Retry

  /** The integer a reply spells, as the prompts read it; None when std::stoi
      throws. */
  function ReadInt(input: string): Option<int>
  {
    Stoi(Trim(input))
  }

  datatype Mode = ReviewGame | NewGame

  /** promptGameMode: 1 reviews, 2 starts a new game, 0 ends the program. */
  function ModeReply(input: string): (r: Reply<Mode>)
    ensures r.Accept? <==> ReadInt(input) == Some(1) || ReadInt(input) == Some(2)
    ensures r.Accept? ==> (r.value == ReviewGame <==> ReadInt(input) == Some(1))
    ensures r.Exit? <==> ReadInt(input) == Some(0)
  {
    match ReadInt(input)
    case None => Retry
    case Some(m) =>
      if m == 1 then Accept(ReviewGame)
      else if m == 2 then Accept(NewGame)
      else if m == 0 then Exit
      else Retry
  }

  /** The game-number prompt of promptForReview: exactly "0" ends the
      program; otherwise a number from 1 to the count of games is accepted. */
  function GameNumberReply(input: string, count: int): (r: Reply<int>)
    ensures r.Exit? <==> Trim(input) == "0"
    ensures r.Accept? ==> 1 <= r.value <= count && ReadInt(input) == Some(r.value)
    ensures Trim(input) != "0" && ReadInt(input).Some? && 1 <= ReadInt(input).value <= count ==> r.Accept?
  {
    if Trim(input) == "0" then Exit
    else match ReadInt(input)
      case None => Retry
      case Some(n) => if 1 <= n <= count then Accept(n) else Retry
  }

  /** promptForElo: 800 to 3000 plays the engine, except that 1590 is raised
      to 3200; 1 plays a friend; 0 ends the program. */
  function EloReply(input: string): (r: Reply<int>)
    ensures r.Exit? <==> ReadInt(input) == Some(0)
    ensures r.Accept? <==> ReadInt(input).Some? && (ReadInt(input).value == 1 || 800 <= ReadInt(input).value <= 3000)
    ensures r.Accept? ==> r.value == 1 || r.value == 3200 || (800 <= r.value <= 3000 && r.value != 1590)
  {
    match ReadInt(input)
    case None => Retry
    case Some(e) =>
      if 800 <= e <= 3000 then Accept(if e == 1590 then 3200 else e)
      else if e == 1 then Accept(1)
      else if e == 0 then Exit
      else Retry
  }

  /** Every elo the prompt accepts can be written to and read back from the
      log. */
  lemma AcceptedEloRecordable(input: string)
    requires EloReply(input).Accept?
    ensures GameLog.RecordableElo(EloReply(input).value)
  {
  }

  /** A reply that neither starts nor ends with white space is read as typed. */
  lemma TrimKeeps(s: string)
    requires s == [] || (s[0] !in StdSpaces && s[|s| - 1] !in StdSpaces)
    ensures Trim(s) == s
  {
    TrimUnique([], s, [], StdSpaces);
    assert [] + s + [] == s;
  }

  /** A number typed as std::to_string writes it reads back as itself. */
  lemma ReadWritten(n: int)
    requires IntMin <= n <= IntMax
    ensures ReadInt(IntToString(n)) == Some(n)
  {
    TrimKeeps(IntToString(n));
    StoiOfIntToString(n);
  }

  /** The mode prompt accepts a written number exactly when it is 1 or 2. */
  lemma ModeAcceptsExactly(n: int)
    requires IntMin <= n <= IntMax
    ensures ModeReply(IntToString(n)).Accept? <==> n == 1 || n == 2
    ensures ModeReply(IntToString(n)).Exit? <==> n == 0
  {
    ReadWritten(n);
  }

  /** std::to_string(n) == "0" exactly when n is 0. */
  lemma WrittenZero(n: int)
    ensures IntToString(n) == "0" <==> n == 0
  {
    if IntToString(n) == "0" {
      assert n >= 0;
      NatToStringValue(n);
      assert DigitsValue("0") == 0;
    }
  }

  /** The game-number prompt accepts a written number exactly when it names
      one of the games, and ends the program exactly on 0. */
  lemma GameNumberAcceptsExactly(n: int, count: int)
    requires IntMin <= n <= IntMax
    ensures GameNumberReply(IntToString(n), count) == Accept(n) <==> 1 <= n <= count
    ensures GameNumberReply(IntToString(n), count).Exit? <==> n == 0
  {
    ReadWritten(n);
    TrimKeeps(IntToString(n));
    WrittenZero(n);
  }

  /** The elo prompt on a written number: the engine range (1590 raised to
      3200), a friend, the exit, and nothing else. */
  lemma EloAcceptsExactly(n: int)
    requires IntMin <= n <= IntMax
    ensures EloReply(IntToString(n)) ==
      if 800 <= n <= 3000 then Accept(if n == 1590 then 3200 else n)
      else if n == 1 then Accept(1)
      else if n == 0 then Exit
      else Retry
  {
    ReadWritten(n);
  }

  /** std::stoi ignores what follows the number, and the game-number prompt
      alone compares the text itself with "0": "00" ends the program at the
      mode prompt but is refused at the game-number prompt. */
  lemma ZeroSpellings()
    ensures ModeReply("00") == Exit
    ensures GameNumberReply("00", 5) == Retry
    ensures ModeReply("2 games") == Accept(NewGame)
  {
    ReadDoubleZero();
    ReadLeadingNumber();
  }

  lemma ReadDoubleZero()
    ensures Trim("00") == "00" && ReadInt("00") == Some(0)
  {
    var s := "00";
    TrimKeeps(s);
    assert LeadingCount(s, CSpaces) == 0;
    assert s[0..] == s;
    assert DigitRun(s[1..]) == 1;
    assert DigitRun(s) == 2;
    assert s[..2] == s;
    assert DigitsValue(s[..1]) == 0;
  }

  lemma ReadLeadingNumber()
    ensures ReadInt("2 games") == Some(2)
  {
    var s := "2 games";
    TrimKeeps(s);
    assert LeadingCount(s, CSpaces) == 0;
    assert s[0..] == s;
    assert DigitRun(s) == 1;
    assert s[..1] == "2";
    assert DigitsValue("2") == 2;
  }

  // ---------------------------------------------------------------------------
  // promptForReview with no games in the log

  /** A prompt asked until it accepts or exits; Retry when the replies run
      out first (the dialog is still waiting). */
  function Loop<T>(replies: seq<string>, answer: string -> Reply<T>): (r: Reply<T>)
    ensures r.Accept? ==> exists i :: 0 <= i < |replies| && answer(replies[i]) == r
    decreases |replies|
  {
    if |replies| == 0 then Retry
    else
      match answer(replies[0])
      case Retry => Loop(replies[1..], answer)
      case Accept(v) => Accept(v)
      case Exit => Exit
  }

  /** Where a review request ends. */
  datatype Session = Reviewing(game: int) | Playing(elo: int) | Exited | Waiting

  /** promptForReview as written: with no game in the log it asks for an elo,
      and when that prompt returns it falls through to the game-number loop
      with a count of zero. */
  function ReviewRequestAsWritten(count: int, eloReplies: seq<string>, gameReplies: seq<string>): (s: Session)
    ensures !s.Playing?
    ensures s.Reviewing? ==> 1 <= s.game <= count
  {
    var games := Loop(gameReplies, (s: string) => GameNumberReply(s, count));
    assert games.Accept? ==> 1 <= games.value <= count by {
      if games.Accept? {
        var i :| 0 <= i < |gameReplies| && GameNumberReply(gameReplies[i], count) == games;
      }
    }
    if count == 0 then
      match Loop(eloReplies, EloReply)
      case Exit => Exited
      case Retry => Waiting
      case Accept(_) => AfterGameLoop(games)
    else AfterGameLoop(games)
  }

  function AfterGameLoop(r: Reply<int>): Session
  {
    match r
    case Accept(n) => Reviewing(n)
    case Exit => Exited
    case Retry => Waiting
  }

  /** With no games, the program never starts the new game it asked an elo
      for: the game-number loop it falls into accepts nothing. */
  lemma NoGamesNeverPlays(eloReplies: seq<string>, gameReplies: seq<string>)
    ensures ReviewRequestAsWritten(0, eloReplies, gameReplies) in {Exited, Waiting}
  {
    var answer := (s: string) => GameNumberReply(s, 0);
    var games := Loop(gameReplies, answer);
    if games.Accept? {
      var i :| 0 <= i < |gameReplies| && answer(gameReplies[i]) == games;
      assert false;
    }
  }

  /** promptForReview as intended: with no games it goes on to the new game. */
  function ReviewRequest(count: int, eloReplies: seq<string>, gameReplies: seq<string>): (s: Session)
    ensures count == 0 ==> (s.Playing? <==> Loop(eloReplies, EloReply).Accept?)
    ensures count == 0 && s.Playing? ==> GameLog.RecordableElo(s.elo)
    ensures count != 0 ==> s == ReviewRequestAsWritten(count, eloReplies, gameReplies)
    ensures s.Reviewing? ==> 1 <= s.game <= count
  {
    if count == 0 then
      match Loop(eloReplies, EloReply)
      case Exit => Exited
      case Retry => Waiting
      case Accept(e) =>
        var i :| 0 <= i < |eloReplies| && EloReply(eloReplies[i]) == Accept(e);
        AcceptedEloRecordable(eloReplies[i]);
        Playing(e)
    else
      var games := Loop(gameReplies, (s: string) => GameNumberReply(s, count));
      assert games.Accept? ==> 1 <= games.value <= count by {
        if games.Accept? {
          var i :| 0 <= i < |gameReplies| && GameNumberReply(gameReplies[i], count) == games;
        }
      }
      AfterGameLoop(games)
  }

  /** A new player who asks to review and then picks an elo of 1200. */
  lemma NewPlayerStuck()
    ensures ReviewRequestAsWritten(0, ["1200"], ["1"]) == Waiting
    ensures ReviewRequest(0, ["1200"], ["1"]) == Playing(1200)
  {
    EloOf1200();
    GameOneOfNone();
  }

  lemma EloOf1200()
    ensures Loop(["1200"], EloReply) == Accept(1200)
  {
    Read1200();
    assert EloReply("1200") == Accept(1200);
  }

  lemma Read1200()
    ensures ReadInt("1200") == Some(1200)
  {
    var s := "1200";
    TrimKeeps(s);
    assert LeadingCount(s, CSpaces) == 0;
    assert s[0..] == s;
    assert DigitRun(s[3..]) == 1;
    assert DigitRun(s[2..]) == 2;
    assert DigitRun(s[1..]) == 3;
    assert DigitRun(s) == 4;
    assert s[..4] == s;
    assert s[..1] == "1" && s[..2] == "12" && s[..3] == "120";
    assert "12"[..1] == "1" && "120"[..2] == "12" && s[..3] == "120";
    assert DigitsValue("1") == 1;
    assert DigitsValue("12") == 12;
    assert DigitsValue("120") == 120;
  }

  lemma GameOneOfNone()
    ensures Loop(["1"], (s: string) => GameNumberReply(s, 0)) == Retry
  {
    ReadWritten(1);
    assert IntToString(1) == "1";
    TrimKeeps("1");
    assert ["1"][1..] == [];
  }
}
