/** The personal game log (UserInformation): the records the writers append
    to a user's file, and how promptForReview reads them back. A file is its
    whole text; every write is an append. */
module GameLog {
  import opened Base
  import opened Strings
  import opened Numbers
  import opened Outcomes

  // ---------------------------------------------------------------------------
  // Writing

  /** The line every game record starts on. */
  const Prompt: string := ">> "

  const HeaderRule: string := "---------------------------------------------------------------------"

  /** The personal file saveUser creates: the name, a rule, and a prompt. */
  function Header(username: string): (f: string)
    ensures |f| >= |Prompt| && f[|f| - |Prompt|..] == Prompt
  {
    username + "\n" + HeaderRule + "\n" + Prompt
  }

  function Player(isWhite: bool): string
  {
    if isWhite then "White" else "Black"
  }

  /** The opponent part of a record: "Friend)" when the opponent elo is 1,
      otherwise the elo in decimal followed by " Elo)". */
  function Opponent(elo: int): (t: string)
    ensures t == "Friend)" <==> elo == 1
  {
    IntToStringOne(elo);
    var e := IntToString(elo);
    assert (e + " Elo)")[0] == e[0] != 'F';
    if e == "1" then "Friend)" else e + " Elo)"
  }

  /** What a result record says about the game, between its "(" and its line
      break. */
  function Verdict(o: Outcome, isWhite: bool): string
  {
    match o
    case Checkmate(loser) =>
      "Checkmate | " +
      (if loser == "b" && isWhite then "White User Win"
       else if loser == "b" then "Black User Loss"
       else if loser == "w" && isWhite then "White User Loss"
       else "Black User Win")
    case Stalemate => "Stalemate | " + Player(isWhite) + " User Draw"
    case Insufficient => "Insufficient Material | " + Player(isWhite) + " User Draw"
    case Threefold => "Threefold Repetition | " + Player(isWhite) + " User Draw"
    case Fifty => "Fifty Move Rule | " + Player(isWhite) + " User Draw"
  }

  function ResultInfo(o: Outcome, isWhite: bool, elo: int): string
  {
    Verdict(o, isWhite) + " | vs. " + Opponent(elo)
  }

  function ExitInfo(isWhite: bool, elo: int): string
  {
    "Undetermined | " + Player(isWhite) + " User Exit | vs. " + Opponent(elo)
  }

  const QuitInfo: string := "Undetermined | User Quit)"

  /** A record: "(", what it says, and a fresh prompt line. */
  function Record(info: string): string
  {
    "(" + info + "\n" + Prompt
  }

  /** writeMove. */
  function WriteMove(f: string, move: string): (g: string)
    ensures |g| == |f| + |move| + 2 && g[..|f|] == f && g[|f|..|f| + |move|] == move
  {
    f + move + ", "
  }

  /** The moves of a game, written one by one. */
  function WriteMoves(f: string, moves: seq<string>): string
    decreases |moves|
  {
    if |moves| == 0 then f else WriteMoves(WriteMove(f, moves[0]), moves[1..])
  }

  /** writeCM, writeStale, writeIN, writeThree and writeFifty. */
  function WriteResult(f: string, o: Outcome, isWhite: bool, elo: int): (g: string)
    ensures AtPrompt(g) && |g| > |f| && g[..|f|] == f
  {
    RecordAtPrompt(f, ResultInfo(o, isWhite, elo));
    f + Record(ResultInfo(o, isWhite, elo))
  }

  /** The last non-empty line of the file, "" when there is none. */
  function LastNonEmptyLine(f: string): string
  {
    var ls := DropEmpty(Lines(f));
    if |ls| == 0 then "" else ls[|ls| - 1]
  }

  /** A game is open when the file does not end on a bare prompt line. */
  predicate GameOpen(f: string)
  {
    LastNonEmptyLine(f) != Prompt
  }

  /** writeExit: closes an open game as an exit by the player. */
  function WriteExit(f: string, isWhite: bool, elo: int): (r: string)
    ensures !GameOpen(r)
    ensures r == f <==> !GameOpen(f)
  {
    var info := ExitInfo(isWhite, elo);
    ExitInfoOneLine(isWhite, elo);
    RecordCloses(f, info);
    assert |f + Record(info)| > |f|;
    if GameOpen(f) then f + Record(info) else f
  }

  lemma ExitInfoOneLine(isWhite: bool, elo: int)
    ensures '\n' !in ExitInfo(isWhite, elo)
  {
    OpponentLine(elo);
    assert '\n' !in Player(isWhite);
    assert '\n' !in "Undetermined | ";
    assert '\n' !in " User Exit | vs. ";
  }

  /** writeQuit: closes a game the program was killed in, at the next login. */
  function WriteQuit(f: string): (r: string)
    ensures !GameOpen(r)
    ensures r == f <==> !GameOpen(f)
  {
    RecordCloses(f, QuitInfo);
    if GameOpen(f) then f + Record(QuitInfo) else f
  }

  // ---------------------------------------------------------------------------
  // Lines of appended text

  /** An opponent part is on one line. */
  lemma OpponentLine(elo: int)
    ensures '\n' !in Opponent(elo)
  {
    var e := IntToString(elo);
    IntToStringOne(elo);
    assert '\n' !in e;
    assert '\n' !in " Elo)" && '\n' !in "Friend)";
  }

  lemma {:induction false} DropEmptyAppend(ps: seq<string>, qs: seq<string>)
    ensures DropEmpty(ps + qs) == DropEmpty(ps) + DropEmpty(qs)
  {
    if |ps| > 0 {
      assert (ps + qs)[1..] == ps[1..] + qs;
      DropEmptyAppend(ps[1..], qs);
    } else {
      assert ps + qs == qs;
    }
  }

  /** A line break followed by a non-empty line adds exactly that line. */
  lemma LinesAppend(p: string, line: string)
    requires |line| > 0 && '\n' !in line
    ensures Lines(p + "\n" + line) == Pieces(p, '\n') + [line]
  {
    assert p + "\n" + line == p + ['\n'] + line;
    PiecesAround(p, line, '\n');
    PiecesNoSep(line, '\n');
  }

  /** Any record ends the file on a bare prompt line. */
  lemma RecordCloses(f: string, info: string)
    requires '\n' !in info
    ensures !GameOpen(f + Record(info))
  {
    var p := f + "(" + info;
    assert f + Record(info) == p + "\n" + Prompt;
    LinesAppend(p, Prompt);
    DropEmptyAppend(Pieces(p, '\n'), [Prompt]);
  }

  // ---------------------------------------------------------------------------
  // Reading (promptForReview)

  /** Index of the first `c` in `s`; |s| when there is none. */
  function FirstIndex(s: string, c: char): (i: nat)
    ensures i <= |s| && c !in s[..i]
    ensures forall k :: 0 <= k < i ==> s[k] != c
    ensures i < |s| ==> s[i] == c
  {
    if |s| == 0 || s[0] == c then 0
    else
      var i := 1 + FirstIndex(s[1..], c);
      assert s[..i] == [s[0]] + s[1..][..i - 1];
      i
  }

  /** A game of the log: the text before its "(" and the text after it. */
  datatype Entry = Entry(moves: string, info: string)

  /** The characters find_first_not_of("> ") skips. */
  const Arrows: set<char> := {'>', ' '}

  /** The moves part of a game line: when it starts with ">>", the leading run
      of '>' and ' ' is dropped; then it is trimmed. */
  function MovesPart(token: string): string
  {
    var t := if StartsWith(token, ">>") then token[LeadingCount(token, Arrows)..] else token;
    Trim(t)
  }

  /** One line of the file. The two std::getline calls both succeed exactly
      when the line holds a "(" that is not its last character; the first "("
      separates the moves from the game information. */
  function ParseLine(line: string): (r: Option<Entry>)
    ensures r.Some? <==> |line| > 0 && '(' in line[..|line| - 1]
  {
    var i := FirstIndex(line, '(');
    assert i + 1 < |line| <==> |line| > 0 && '(' in line[..|line| - 1] by {
      if |line| > 0 && '(' in line[..|line| - 1] {
        var j :| 0 <= j < |line| - 1 && line[..|line| - 1][j] == '(';
        assert line[j] == '(';
      }
      if i + 1 < |line| {
        assert line[..|line| - 1][i] == '(';
      }
    }
    if i + 1 >= |line| then None
    else Some(Entry(MovesPart(line[..i]), Trim(line[i + 1..])))
  }

  function ParseLines(ls: seq<string>): (es: seq<Entry>)
    ensures |es| <= |ls|
  {
    if |ls| == 0 then [] else Found(ls[0]) + ParseLines(ls[1..])
  }

  /** The game a line holds, if any. */
  function Found(line: string): (es: seq<Entry>)
    ensures |es| <= 1
  {
    match ParseLine(line)
    case Some(e) => [e]
    case None => []
  }

  /** The games of a personal file, in file order. */
  function ParseLog(f: string): seq<Entry>
  {
    ParseLines(Lines(f))
  }

  /** Each piece trimmed; pieces that trim to nothing are skipped. */
  function TrimAll(ts: seq<string>): (ms: seq<string>)
    ensures |ms| <= |ts|
    ensures forall i :: 0 <= i < |ms| ==> ms[i] != ""
  {
    if |ts| == 0 then []
    else (if Trim(ts[0]) == "" then [] else [Trim(ts[0])]) + TrimAll(ts[1..])
  }

  /** The moves of a game: the moves part split at commas. */
  function SplitMoves(text: string): (ms: seq<string>)
    ensures forall i :: 0 <= i < |ms| ==> ms[i] != "" && ',' !in ms[i]
  {
    var ts := Tokens(text, ',');
    var ms := TrimAll(ts);
    assert forall i :: 0 <= i < |ms| ==> ',' !in ms[i] by {
      TrimAllNoSep(ts, ',');
    }
    ms
  }

  lemma {:induction false} TrimAllNoSep(ts: seq<string>, c: char)
    requires forall i :: 0 <= i < |ts| ==> c !in ts[i]
    ensures forall i :: 0 <= i < |TrimAll(ts)| ==> c !in TrimAll(ts)[i]
  {
    if |ts| > 0 {
      TrimAllNoSep(ts[1..], c);
      var t := ts[0];
      var r := Trim(t);
      var a := LeadingCount(t, StdSpaces);
      assert forall k :: 0 <= k < |r| ==> r[k] == t[a + k];
    }
  }

  // ---------------------------------------------------------------------------
  // Writing then reading a game gives the game back

  /** A move as the game writes it: non-empty, on one line, without the
      separators the reader splits at, not starting with '>', and without
      surrounding white space. */
  predicate GoodMove(m: string)
  {
    && |m| > 0 && ',' !in m && '(' !in m && '\n' !in m
    && m[0] !in StdSpaces && m[0] != '>' && m[|m| - 1] !in StdSpaces
  }

  predicate GoodMoves(ms: seq<string>)
  {
    forall i :: 0 <= i < |ms| ==> GoodMove(ms[i])
  }

  /** Game information as the writers produce it: one non-empty line that
      neither starts nor ends with white space. */
  predicate GoodInfo(info: string)
  {
    |info| > 0 && '\n' !in info && info[0] !in StdSpaces && info[|info| - 1] !in StdSpaces
  }

  /** The text a game's moves add to the file. */
  function MovesText(ms: seq<string>): string
  {
    if |ms| == 0 then "" else ms[0] + ", " + MovesText(ms[1..])
  }

  /** The moves text without its final space: what trimming leaves. */
  function CoreText(ms: seq<string>): string
    requires |ms| > 0
  {
    if |ms| == 1 then ms[0] + "," else ms[0] + "," + " " + CoreText(ms[1..])
  }

  /** The comma-separated pieces of the core text. */
  function Spaced(ms: seq<string>): (ps: seq<string>)
    requires |ms| > 0
    ensures |ps| == |ms|
  {
    [ms[0]] + Prefixed(ms[1..])
  }

  function Prefixed(ms: seq<string>): (ps: seq<string>)
    ensures |ps| == |ms|
    ensures forall i :: 0 <= i < |ps| ==> ps[i] == " " + ms[i]
  {
    if |ms| == 0 then [] else [" " + ms[0]] + Prefixed(ms[1..])
  }

  lemma {:induction false} WriteMovesText(f: string, ms: seq<string>)
    ensures WriteMoves(f, ms) == f + MovesText(ms)
    decreases |ms|
  {
    if |ms| > 0 {
      WriteMovesText(WriteMove(f, ms[0]), ms[1..]);
    }
  }

  lemma {:induction false} MovesTextCore(ms: seq<string>)
    requires |ms| > 0
    ensures MovesText(ms) == CoreText(ms) + " "
  {
    if |ms| > 1 {
      MovesTextCore(ms[1..]);
    }
  }

  lemma JoinPrefix(c: string, ps: seq<string>, sep: char)
    requires |ps| >= 1
    ensures Join([c + ps[0]] + ps[1..], sep) == c + Join(ps, sep)
  {
    var qs := [c + ps[0]] + ps[1..];
    if |ps| > 1 {
      assert qs[1..] == ps[1..];
    }
  }

  lemma {:induction false} CoreTextJoin(ms: seq<string>)
    requires |ms| > 0
    ensures CoreText(ms) == Join(Spaced(ms) + [""], ',')
  {
    var ps := Spaced(ms) + [""];
    assert ps[0] == ms[0] && ps[1..] == Prefixed(ms[1..]) + [""];
    if |ms| == 1 {
      assert Join(ps, ',') == ms[0] + [','] + Join([""], ',');
    } else {
      var rest := ms[1..];
      CoreTextJoin(rest);
      var qs := Spaced(rest) + [""];
      assert ps[1..] == [" " + qs[0]] + qs[1..] by {
        assert Prefixed(rest) == [" " + rest[0]] + Prefixed(rest[1..]);
      }
      JoinPrefix(" ", qs, ',');
    }
  }

  lemma {:induction false} TrimAllPrefixed(ms: seq<string>)
    requires GoodMoves(ms)
    ensures TrimAll(Prefixed(ms)) == ms
  {
    if |ms| > 0 {
      TrimUnique(" ", ms[0], [], StdSpaces);
      assert " " + ms[0] + [] == " " + ms[0];
      TrimAllPrefixed(ms[1..]);
      assert Prefixed(ms)[1..] == Prefixed(ms[1..]);
    }
  }

  /** The core text starts with the first move and ends with a comma. */
  lemma CoreEnds(ms: seq<string>)
    requires |ms| > 0
    ensures var core := CoreText(ms);
              |core| > 0 && |ms[0]| <= |core| && core[..|ms[0]|] == ms[0] && core[|core| - 1] == ','
  {
    var core := CoreText(ms);
    CoreLast(ms);
    if |ms| > 1 {
      assert core == ms[0] + ("," + " " + CoreText(ms[1..]));
    }
  }

  /** Trimming the moves text drops exactly its final space. */
  lemma TrimMovesText(ms: seq<string>)
    requires GoodMoves(ms) && |ms| > 0
    ensures Trim(MovesText(ms)) == CoreText(ms)
  {
    var core := CoreText(ms);
    MovesTextCore(ms);
    CoreEnds(ms);
    assert core[0] == ms[0][0];
    TrimUnique([], core, " ", StdSpaces);
    assert [] + core + " " == MovesText(ms);
  }

  lemma TokensCore(ms: seq<string>)
    requires GoodMoves(ms) && |ms| > 0
    ensures Tokens(CoreText(ms), ',') == Spaced(ms)
  {
    CoreTextJoin(ms);
    var ps := Spaced(ms) + [""];
    forall i | 0 <= i < |ps|
      ensures ',' !in ps[i]
    {
      if 0 < i < |ms| {
        assert ps[i] == Prefixed(ms[1..])[i - 1] == " " + ms[i];
      }
    }
    PiecesJoin(ps, ',');
    assert Pieces(CoreText(ms), ',') == ps;
    assert ps[..|ps| - 1] == Spaced(ms);
  }

  lemma TrimAllSpaced(ms: seq<string>)
    requires GoodMoves(ms) && |ms| > 0
    ensures TrimAll(Spaced(ms)) == ms
  {
    var sp := Spaced(ms);
    assert Trim(ms[0]) == ms[0] by {
      TrimUnique([], ms[0], [], StdSpaces);
      assert [] + ms[0] + [] == ms[0];
    }
    assert sp[0] == ms[0] && sp[1..] == Prefixed(ms[1..]);
    assert TrimAll(sp) == [ms[0]] + TrimAll(sp[1..]);
    TrimAllPrefixed(ms[1..]);
    assert [ms[0]] + ms[1..] == ms;
  }

  /** Splitting the trimmed moves text gives back the moves. */
  lemma SplitMovesText(ms: seq<string>)
    requires GoodMoves(ms)
    ensures SplitMoves(Trim(MovesText(ms))) == ms
  {
    if |ms| > 0 {
      TrimMovesText(ms);
      TokensCore(ms);
      TrimAllSpaced(ms);
    }
  }

  lemma {:induction false} CoreLast(ms: seq<string>)
    requires |ms| > 0
    ensures |CoreText(ms)| > 0 && CoreText(ms)[|CoreText(ms)| - 1] == ','
  {
    if |ms| > 1 {
      CoreLast(ms[1..]);
    }
  }

  lemma {:induction false} MovesTextAvoids(ms: seq<string>, c: char)
    requires c != ',' && c != ' '
    requires forall i :: 0 <= i < |ms| ==> c !in ms[i]
    ensures c !in MovesText(ms)
  {
    if |ms| > 0 {
      MovesTextAvoids(ms[1..], c);
    }
  }

  lemma FirstIndexAt(a: string, b: string, c: char)
    requires c !in a
    ensures FirstIndex(a + [c] + b, c) == |a|
  {
    var s := a + [c] + b;
    var i := FirstIndex(s, c);
    assert s[|a|] == c;
    assert forall k :: 0 <= k < |a| ==> s[k] == a[k];
  }

  /** A game line reads back as the trimmed moves text and the information. */
  lemma GameLineParse(ms: seq<string>, info: string)
    requires GoodMoves(ms) && GoodInfo(info)
    ensures ParseLine(Prompt + MovesText(ms) + "(" + info) == Some(Entry(Trim(MovesText(ms)), info))
  {
    var mt := MovesText(ms);
    var a := Prompt + mt;
    var line := a + ['('] + info;
    assert Prompt + mt + "(" + info == line;
    MovesTextAvoids(ms, '(');
    FirstIndexAt(a, info, '(');
    ParseLineAt(a, info);
    assert MovesPart(a) == Trim(mt) by {
      MovesPartOfPrompt(ms);
    }
    assert Trim(info) == info by {
      TrimUnique([], info, [], StdSpaces);
      assert [] + info + [] == info;
    }
  }

  /** A line holding a "(" that is not its last character splits at it. */
  lemma ParseLineAt(a: string, info: string)
    requires '(' !in a && |info| > 0
    ensures ParseLine(a + ['('] + info) == Some(Entry(MovesPart(a), Trim(info)))
  {
    var line := a + ['('] + info;
    FirstIndexAt(a, info, '(');
    assert line[..|a|] == a && line[|a| + 1..] == info;
  }

  /** The leading prompt is what the reader strips off a game line. */
  lemma MovesPartOfPrompt(ms: seq<string>)
    requires GoodMoves(ms)
    ensures MovesPart(Prompt + MovesText(ms)) == Trim(MovesText(ms))
  {
    var mt := MovesText(ms);
    var a := Prompt + mt;
    assert StartsWith(a, ">>") by {
      assert a[..2] == ">>";
    }
    if |ms| > 0 {
      assert mt[0] == ms[0][0];
      LeadingCountOf(Prompt, mt, Arrows);
    } else {
      assert a == ">> ";
    }
    assert a[LeadingCount(a, Arrows)..] == mt;
  }

  lemma {:induction false} ParseLinesAppend(xs: seq<string>, ys: seq<string>)
    ensures ParseLines(xs + ys) == ParseLines(xs) + ParseLines(ys)
  {
    if |xs| > 0 {
      var zs := xs + ys;
      assert zs[0] == xs[0] && zs[1..] == xs[1..] + ys;
      ParseLinesAppend(xs[1..], ys);
    } else {
      assert xs + ys == ys;
    }
  }

  /** The file ends on a bare prompt line, ready for the next game. */
  predicate AtPrompt(f: string)
  {
    |f| >= 4 && f[|f| - 4..] == "\n" + Prompt
  }

  /** The lines of a file that ends with a line and a prompt. */
  lemma LinesOfGame(p: string, line: string)
    requires |line| > 0 && '\n' !in line
    ensures Lines(p + "\n" + line + "\n" + Prompt) == Pieces(p, '\n') + [line, Prompt]
    ensures Lines(p + "\n" + Prompt) == Pieces(p, '\n') + [Prompt]
  {
    LinesAppend(p + "\n" + line, Prompt);
    assert p + "\n" + line == p + ['\n'] + line;
    PiecesAround(p, line, '\n');
    PiecesNoSep(line, '\n');
    LinesAppend(p, Prompt);
  }

  /** Reading a file that ends with a line and a prompt. */
  lemma ParseOfGame(p: string, line: string)
    requires |line| > 0 && '\n' !in line
    ensures ParseLog(p + "\n" + line + "\n" + Prompt) == ParseLog(p + "\n" + Prompt) + Found(line)
  {
    LinesOfGame(p, line);
    var ps := Pieces(p, '\n');
    var g := p + "\n" + line + "\n" + Prompt;
    var f := p + "\n" + Prompt;
    PromptHoldsNoGame();
    ParseOne(line);
    ParseLinesAppend(ps, [Prompt]);
    assert ParseLog(f) == ParseLines(ps);
    ParseLinesAppend(ps + [line], [Prompt]);
    ParseLinesAppend(ps, [line]);
    PairAppends(ps, line, Prompt);
    assert ParseLog(g) == ParseLines(ps + [line, Prompt]);
  }

  lemma PairAppends<T>(xs: seq<T>, a: T, b: T)
    ensures xs + [a, b] == (xs + [a]) + [b]
  {
  }

  lemma PromptHoldsNoGame()
    ensures ParseLines([Prompt]) == []
  {
    assert Prompt[..|Prompt| - 1] == ">>";
    assert Found(Prompt) == [];
  }

  lemma ParseOne(line: string)
    ensures ParseLines([line]) == Found(line)
  {
    assert [line][1..] == [];
  }

  /** Appending a game (its moves, then any record) to a file that is at the
      prompt adds exactly that game to what the reader sees. */
  lemma GameAppends(f: string, ms: seq<string>, info: string)
    requires AtPrompt(f) && GoodMoves(ms) && GoodInfo(info)
    ensures var g := WriteMoves(f, ms) + Record(info);
      AtPrompt(g) && ParseLog(g) == ParseLog(f) + [Entry(Trim(MovesText(ms)), info)]
  {
    var p := f[..|f| - 4];
    var line := Prompt + MovesText(ms) + "(" + info;
    var g := WriteMoves(f, ms) + Record(info);
    GameText(f, ms, info);
    RecordAtPrompt(WriteMoves(f, ms), info);
    assert '\n' !in line by {
      MovesTextAvoids(ms, '\n');
    }
    ParseOfGame(p, line);
    GameLineParse(ms, info);
  }

  /** The text of a file at the prompt after a game: the file before its
      prompt, the game line, and a fresh prompt. */
  lemma GameText(f: string, ms: seq<string>, info: string)
    requires AtPrompt(f)
    ensures var p := f[..|f| - 4];
      && f == p + "\n" + Prompt
      && WriteMoves(f, ms) + Record(info) == p + "\n" + (Prompt + MovesText(ms) + "(" + info) + "\n" + Prompt
  {
    var p := f[..|f| - 4];
    assert f == p + "\n" + Prompt;
    WriteMovesText(f, ms);
    Regroup8(p, "\n", Prompt, MovesText(ms), "(", info, "\n", Prompt);
  }

  lemma Regroup8(a: string, b: string, c: string, d: string, e: string, f: string, g: string, h: string)
    ensures (a + b + c) + d + (e + f + g + h) == a + b + (c + d + e + f) + g + h
  {
  }

  /** A record ends the file on a bare prompt line. */
  lemma RecordAtPrompt(h: string, info: string)
    ensures AtPrompt(h + Record(info))
  {
    var g := h + Record(info);
    assert g[|g| - 4..] == "\n" + Prompt;
  }

  // ---------------------------------------------------------------------------
  // Reading a game's information back

  /** What promptForReview reads off a game's information: the player's
      colour and the opponent elo. A quit record gives the placeholders
      (false, -1); a friend game gives elo 1; otherwise the elo is read from
      the four characters that start nine before the end, and the review
      crashes when the text is shorter than nine characters or std::stoi finds
      no number there. */
  function ReadInfo(info: string): (r: Result<(bool, int)>)
    ensures Contains(info, "Quit") ==> r == Ok((false, -1))
    ensures r.Ok? && !Contains(info, "Quit") ==> r.value.0 == Contains(info, "White")
    ensures r.Crash? ==> !Contains(info, "Quit") && !Contains(info, "Friend")
  {
    if Contains(info, "Quit") then Ok((false, -1))
    else
      var isWhite := Contains(info, "White");
      if Contains(info, "Friend") then Ok((isWhite, 1))
      else if |info| < 9 then Crash
      else match Stoi(Trim(info[|info| - 9..|info| - 5]))
        case Some(elo) => Ok((isWhite, elo))
        case None => Crash
  }

  /** The opponent elos a record can be read back with: a friend (1), or an
      elo of three or four digits. */
  predicate RecordableElo(elo: int)
  {
    elo == 1 || 100 <= elo <= 9999
  }

  /** The characters a record's tail can hold. */
  lemma OpponentAvoids(elo: int, c: char)
    requires c !in "-0123456789 Elo)" && c !in "Friend)"
    ensures c !in Opponent(elo)
  {
    var e := IntToString(elo);
    if e != "1" {
      forall k | 0 <= k < |Opponent(elo)|
        ensures Opponent(elo)[k] != c
      {
        if k < |e| {
          assert Opponent(elo)[k] == e[k];
        } else {
          assert Opponent(elo)[k] == " Elo)"[k - |e|];
        }
      }
    }
  }

  /** A character absent from the verdict and from every tail is absent from
      the whole information. */
  lemma Absent(v: string, elo: int, c: char)
    requires c !in v && c !in "-0123456789 Elo)" && c !in "Friend) |.vs"
    ensures c !in v + " | vs. " + Opponent(elo)
  {
    OpponentAvoids(elo, c);
  }

  lemma EloDigits(elo: int)
    requires 100 <= elo <= 9999
    ensures var d := IntToString(elo); (|d| == 3 || |d| == 4) && d == NatToString(elo)
  {
    assert Pow10(2) == 100 && Pow10(3) == 1000 && Pow10(4) == 10000;
    NatToStringLength(elo, 3);
    NatToStringLength(elo, 4);
  }

  /** The four characters nine before the end, trimmed, are the number. */
  lemma ReadTail(u: string, d: string)
    requires |u| > 0 && u[|u| - 1] == ' '
    requires (|d| == 3 || |d| == 4) && AllDigits(d)
    ensures var info := u + d + " Elo)";
      |info| >= 9 && Trim(info[|info| - 9..|info| - 5]) == d
  {
    var info := u + d + " Elo)";
    var w := info[|info| - 9..|info| - 5];
    assert d[0] !in StdSpaces && d[|d| - 1] !in StdSpaces;
    if |d| == 4 {
      assert w == d;
      TrimUnique([], d, [], StdSpaces);
      assert [] + d + [] == d;
    } else {
      assert w == " " + d;
      TrimUnique(" ", d, [], StdSpaces);
      assert " " + d + [] == " " + d;
    }
  }

  /** The elo of a non-friend record reads back. */
  lemma ReadElo(v: string, elo: int)
    requires 100 <= elo <= 9999
    ensures var info := v + " | vs. " + Opponent(elo);
      |info| >= 9 && Stoi(Trim(info[|info| - 9..|info| - 5])) == Some(elo)
  {
    var d := IntToString(elo);
    IntToStringOne(elo);
    EloDigits(elo);
    var u := v + " | vs. ";
    assert v + " | vs. " + Opponent(elo) == u + d + " Elo)";
    assert u[|u| - 1] == ' ';
    ReadTail(u, d);
    StoiOfIntToString(elo);
  }

  /** A numeric tail holds only digits, a minus sign and " Elo)". */
  lemma AbsentNumeric(v: string, elo: int, c: char)
    requires elo != 1
    requires c !in v && c !in "-0123456789 Elo) |.vs"
    ensures c !in v + " | vs. " + Opponent(elo)
  {
    var e := IntToString(elo);
    IntToStringOne(elo);
    assert Opponent(elo) == e + " Elo)";
    assert c != '-' && !IsDigit(c);
    assert c !in e;
    assert c !in " Elo)" && c !in " | vs. ";
  }

  /** `t` occurs in `a + t + b`. */
  lemma Holds(a: string, t: string, b: string)
    ensures Contains(a + t + b, t)
  {
    ContainsWitness(t, t, 0);
    ContainsInPart(a, t, b, t);
  }

  /** Appending a tail that neither holds the first character of `t` nor
      starts with any character of `t` creates no new occurrence of `t`. */
  lemma ContainsBeforeTail(v: string, tail: string, t: string)
    requires |t| > 0 && |tail| > 0 && t[0] !in tail && tail[0] !in t
    ensures Contains(v + tail, t) == Contains(v, t)
  {
    var s := v + tail;
    if Contains(v, t) {
      var i :| 0 <= i <= |v| - |t| && OccursAt(v, t, i);
      assert s[i..i + |t|] == v[i..i + |t|];
      ContainsWitness(s, t, i);
    } else {
      forall i | 0 <= i <= |s| - |t|
        ensures !OccursAt(s, t, i)
      {
        if i <= |v| - |t| {
          assert s[i..i + |t|] == v[i..i + |t|];
          assert !OccursAt(v, t, i);
        } else if i < |v| {
          assert s[i..i + |t|][|v| - i] == tail[0];
        } else {
          assert s[i..i + |t|][0] == tail[i - |v|];
        }
      }
    }
  }

  /** The record's tail adds no "White". */
  lemma WhiteInVerdict(v: string, elo: int)
    ensures Contains(v + " | vs. " + Opponent(elo), "White") == Contains(v, "White")
  {
    var tail := " | vs. " + Opponent(elo);
    Absent("", elo, 'W');
    assert v + " | vs. " + Opponent(elo) == v + tail;
    ContainsBeforeTail(v, tail, "White");
  }

  /** The only 'U' of a result verdict is that of "User". */
  lemma NotUndetermined(before: string, after: string, elo: int)
    requires 'U' !in before && 'U' !in after
    ensures !Contains(before + "User" + after + " | vs. " + Opponent(elo), "Undetermined")
  {
    var rest := "ser" + after + " | vs. " + Opponent(elo);
    var b := "U" + rest;
    assert "User" == "U" + "ser";
    SplitHead(before, "U", "ser", after, " | vs. ", Opponent(elo));
    Absent("ser" + after, elo, 'U');
    DropHead("U", rest);
    assert !StartsWith(b, "Undetermined") by {
      assert b[1] == rest[0] == 's';
      assert |b| >= 12 ==> b[..12][1] == 's';
    }
    NoOccurrence(before, b, "Undetermined");
  }

  lemma SplitHead(a: string, h: string, t: string, x: string, y: string, z: string)
    ensures a + (h + t) + x + y + z == a + (h + (t + x + y + z))
  {
  }

  lemma DropHead(h: string, r: string)
    requires |h| == 1
    ensures (h + r)[1..] == r
  {
  }

  /** The opponent reads back from the tail. */
  lemma OpponentReadsBack(v: string, elo: int, j: int)
    requires RecordableElo(elo) && 0 <= j < 6
    requires elo != 1 ==> "Friend"[j] !in v
    requires "Friend"[j] !in "-0123456789 Elo) |.vs"
    ensures var info := v + " | vs. " + Opponent(elo);
      Contains(info, "Friend") == (elo == 1)
      && (elo != 1 ==> |info| >= 9 && Stoi(Trim(info[|info| - 9..|info| - 5])) == Some(elo))
  {
    var info := v + " | vs. " + Opponent(elo);
    if elo == 1 {
      assert info == v + " | vs. " + "Friend" + ")";
      Holds(v + " | vs. ", "Friend", ")");
    } else {
      AbsentNumeric(v, elo, "Friend"[j]);
      MissingChar(info, "Friend", j);
      ReadElo(v, elo);
    }
  }

  /** The information part every result record shares: no "Quit", no
      "Undetermined", the player's colour, and the opponent. `before` is the
      verdict up to "User", `after` the rest of the verdict; `j` picks a
      letter of "Friend" that a numeric record cannot hold. */
  lemma ReadsBack(before: string, after: string, w: bool, elo: int, j: int)
    requires RecordableElo(elo) && 0 <= j < 6
    requires 'Q' !in before + after
    requires Contains(before + "User" + after, "White") == w
    requires elo != 1 ==> "Friend"[j] !in before + "User" + after
    requires "Friend"[j] !in "-0123456789 Elo) |.vs"
    ensures ReadInfo(before + "User" + after + " | vs. " + Opponent(elo)) == Ok((w, elo))
  {
    var v := before + "User" + after;
    var info := v + " | vs. " + Opponent(elo);
    Absent(v, elo, 'Q');
    MissingChar(info, "Quit", 0);
    WhiteInVerdict(v, elo);
    OpponentReadsBack(v, elo, j);
  }

  /** A result record is not read as an unfinished game. */
  lemma Finished(before: string, after: string, elo: int)
    requires 'Q' !in before + after && 'U' !in before && 'U' !in after
    ensures var info := before + "User" + after + " | vs. " + Opponent(elo);
      !Contains(info, "Quit") && !Contains(info, "Undetermined")
  {
    var v := before + "User" + after;
    Absent(v, elo, 'Q');
    MissingChar(v + " | vs. " + Opponent(elo), "Quit", 0);
    NotUndetermined(before, after, elo);
  }

  /** A draw record reads back with the player's colour and the opponent. */
  lemma DrawReadsBack(title: string, w: bool, elo: int, j: int)
    requires RecordableElo(elo) && 0 <= j < 6
    requires 'Q' !in title && 'W' !in title
    requires elo != 1 ==> "Friend"[j] !in title + " | " + Player(w) + " User Draw"
    requires "Friend"[j] !in "-0123456789 Elo) |.vs"
    ensures ReadInfo(title + " | " + Player(w) + " User Draw" + " | vs. " + Opponent(elo)) == Ok((w, elo))
  {
    var before := title + " | " + Player(w) + " ";
    var after := " Draw";
    var v := title + " | " + Player(w) + " User Draw";
    assert v == before + "User" + after;
    assert Contains(v, "White") == w by {
      if w {
        Holds(title + " | ", "White", " User Draw");
      } else {
        BlackDrawLacksWhite(title);
      }
    }
    assert 'Q' !in before + after by {
      assert 'Q' !in Player(w);
    }
    ReadsBack(before, after, w, elo, j);
  }

  lemma BlackDrawLacksWhite(title: string)
    requires 'W' !in title
    ensures !Contains(title + " | " + Player(false) + " User Draw", "White")
  {
    var v := title + " | " + Player(false) + " User Draw";
    assert v == title + " | Black User Draw";
    assert 'W' !in v;
    MissingChar(v, "White", 0);
  }

  /** The information of a draw record with the given title. */
  function DrawText(title: string, w: bool, elo: int): (r: string)
    ensures |r| > |title|
  {
    title + " | " + Player(w) + " User Draw" + " | vs. " + Opponent(elo)
  }

  /** A draw record is not read as an unfinished game. */
  lemma DrawFinished(title: string, w: bool, elo: int)
    requires 'Q' !in title && 'U' !in title
    ensures !Contains(DrawText(title, w, elo), "Quit") && !Contains(DrawText(title, w, elo), "Undetermined")
  {
    var before := title + " | " + Player(w) + " ";
    assert title + " | " + Player(w) + " User Draw" == before + "User" + " Draw";
    Finished(before, " Draw", elo);
  }

  /** The review's verdict chain, given which keywords the information holds. */
  lemma EndingOfDraw(info: string, w: bool, o: Outcome)
    requires !o.Checkmate?
    requires !Contains(info, "Quit") && !Contains(info, "Undetermined")
    requires Contains(info, "Stalemate") == (o == Stalemate)
    requires o != Stalemate ==> Contains(info, "Insufficient Material") == (o == Insufficient)
    requires o == Threefold || o == Fifty ==> Contains(info, "Threefold Repetition") == (o == Threefold)
    requires o == Fifty ==> Contains(info, "Fifty Move Rule")
    ensures ReviewEndings(info, w) == [Announced(o)]
  {
  }

  /** The title of a draw record and the letter of "Friend" its numeric
      form lacks. */
  function DrawTitle(o: Outcome): string
    requires !o.Checkmate?
  {
    match o
    case Stalemate => "Stalemate"
    case Insufficient => "Insufficient Material"
    case Threefold => "Threefold Repetition"
    case Fifty => "Fifty Move Rule"
  }

  lemma DrawInfo(o: Outcome, w: bool, elo: int)
    requires !o.Checkmate?
    ensures ResultInfo(o, w, elo) == DrawText(DrawTitle(o), w, elo)
  {
    match o
    case Stalemate => assert "Stalemate | " == "Stalemate" + " | ";
    case Insufficient => assert "Insufficient Material | " == "Insufficient Material" + " | ";
    case Threefold => assert "Threefold Repetition | " == "Threefold Repetition" + " | ";
    case Fifty => assert "Fifty Move Rule | " == "Fifty Move Rule" + " | ";
  }

  /** A draw record reads back as the player's colour and the opponent. */
  lemma DrawRecordReads(o: Outcome, w: bool, elo: int)
    requires !o.Checkmate? && RecordableElo(elo)
    ensures ReadInfo(ResultInfo(o, w, elo)) == Ok((w, elo))
  {
    match o
    case Stalemate => StalemateReads(w, elo);
    case Insufficient => InsufficientReads(w, elo);
    case Threefold => ThreefoldReads(w, elo);
    case Fifty => FiftyReads(w, elo);
  }

  lemma StalemateReads(w: bool, elo: int)
    requires RecordableElo(elo)
    ensures ReadInfo(ResultInfo(Stalemate, w, elo)) == Ok((w, elo))
  {
    DrawInfo(Stalemate, w, elo);
    StalemateTitleReads(w, elo);
  }

  lemma StalemateTitleReads(w: bool, elo: int)
    requires RecordableElo(elo)
    ensures ReadInfo("Stalemate" + " | " + Player(w) + " User Draw" + " | vs. " + Opponent(elo)) == Ok((w, elo))
  {
    DrawReadsBack("Stalemate", w, elo, 0);
  }

  lemma InsufficientReads(w: bool, elo: int)
    requires RecordableElo(elo)
    ensures ReadInfo(ResultInfo(Insufficient, w, elo)) == Ok((w, elo))
  {
    DrawInfo(Insufficient, w, elo);
    InsufficientTitleReads(w, elo);
  }

  lemma InsufficientTitleReads(w: bool, elo: int)
    requires RecordableElo(elo)
    ensures ReadInfo("Insufficient Material" + " | " + Player(w) + " User Draw" + " | vs. " + Opponent(elo)) == Ok((w, elo))
  {
    DrawReadsBack("Insufficient Material", w, elo, 0);
  }

  lemma ThreefoldReads(w: bool, elo: int)
    requires RecordableElo(elo)
    ensures ReadInfo(ResultInfo(Threefold, w, elo)) == Ok((w, elo))
  {
    DrawInfo(Threefold, w, elo);
    ThreefoldTitleReads(w, elo);
  }

  lemma ThreefoldTitleReads(w: bool, elo: int)
    requires RecordableElo(elo)
    ensures ReadInfo("Threefold Repetition" + " | " + Player(w) + " User Draw" + " | vs. " + Opponent(elo)) == Ok((w, elo))
  {
    DrawReadsBack("Threefold Repetition", w, elo, 0);
  }

  lemma FiftyReads(w: bool, elo: int)
    requires RecordableElo(elo)
    ensures ReadInfo(ResultInfo(Fifty, w, elo)) == Ok((w, elo))
  {
    DrawInfo(Fifty, w, elo);
    FiftyTitleReads(w, elo);
  }

  lemma FiftyTitleReads(w: bool, elo: int)
    requires RecordableElo(elo)
    ensures ReadInfo("Fifty Move Rule" + " | " + Player(w) + " User Draw" + " | vs. " + Opponent(elo)) == Ok((w, elo))
  {
    DrawReadsBack("Fifty Move Rule", w, elo, 4);
  }

  lemma TitleHeld(title: string, w: bool, elo: int)
    ensures Contains(DrawText(title, w, elo), title)
  {
    ContainsItself(title);
    ContainsExtended(title, " | ", title);
    ContainsExtended(title + " | ", Player(w), title);
    ContainsExtended(title + " | " + Player(w), " User Draw", title);
    ContainsExtended(title + " | " + Player(w) + " User Draw", " | vs. ", title);
    ContainsExtended(title + " | " + Player(w) + " User Draw" + " | vs. ", Opponent(elo), title);
  }

  lemma TitleLacks(title: string, w: bool, elo: int, t: string, j: int)
    requires 0 <= j < |t|
    requires t[j] !in title && t[j] !in " | User Draw" && t[j] !in "White" && t[j] !in "Black"
    requires t[j] !in "-0123456789 Elo)" && t[j] !in "Friend) |.vs"
    ensures !Contains(DrawText(title, w, elo), t)
  {
    var v := title + " | " + Player(w) + " User Draw";
    Absent(v, elo, t[j]);
    MissingChar(v + " | vs. " + Opponent(elo), t, j);
  }

  /** The review of a drawn game ends with the draw the game ended in. */
  lemma DrawRecordEnds(o: Outcome, w: bool, elo: int)
    requires !o.Checkmate?
    ensures ReviewEndings(ResultInfo(o, w, elo), w) == [Announced(o)]
  {
    DrawInfo(o, w, elo);
    match o
    case Stalemate => StalemateEnds(w, elo);
    case Insufficient => InsufficientEnds(w, elo);
    case Threefold => ThreefoldEnds(w, elo);
    case Fifty => FiftyEnds(w, elo);
  }

  lemma StalemateEnds(w: bool, elo: int)
    ensures ReviewEndings(DrawText("Stalemate", w, elo), w) == [Announced(Stalemate)]
  {
    DrawFinished("Stalemate", w, elo);
    TitleHeld("Stalemate", w, elo);
    EndingOfDraw(DrawText("Stalemate", w, elo), w, Stalemate);
  }

  lemma InsufficientEnds(w: bool, elo: int)
    ensures ReviewEndings(DrawText("Insufficient Material", w, elo), w) == [Announced(Insufficient)]
  {
    DrawFinished("Insufficient Material", w, elo);
    TitleHeld("Insufficient Material", w, elo);
    InsufficientLacks(w, elo);
    EndingOfDraw(DrawText("Insufficient Material", w, elo), w, Insufficient);
  }

  lemma InsufficientLacks(w: bool, elo: int)
    ensures !Contains(DrawText("Insufficient Material", w, elo), "Stalemate")
  {
    TitleLacks("Insufficient Material", w, elo, "Stalemate", 0);
  }

  lemma ThreefoldEnds(w: bool, elo: int)
    ensures ReviewEndings(DrawText("Threefold Repetition", w, elo), w) == [Announced(Threefold)]
  {
    DrawFinished("Threefold Repetition", w, elo);
    TitleHeld("Threefold Repetition", w, elo);
    ThreefoldLacks(w, elo);
    EndingOfDraw(DrawText("Threefold Repetition", w, elo), w, Threefold);
  }

  lemma ThreefoldLacks(w: bool, elo: int)
    ensures !Contains(DrawText("Threefold Repetition", w, elo), "Stalemate")
    ensures !Contains(DrawText("Threefold Repetition", w, elo), "Insufficient Material")
  {
    TitleLacks("Threefold Repetition", w, elo, "Stalemate", 0);
    TitleLacks("Threefold Repetition", w, elo, "Insufficient Material", 0);
  }

  lemma FiftyEnds(w: bool, elo: int)
    ensures ReviewEndings(DrawText("Fifty Move Rule", w, elo), w) == [Announced(Fifty)]
  {
    DrawFinished("Fifty Move Rule", w, elo);
    TitleHeld("Fifty Move Rule", w, elo);
    FiftyLacks(w, elo);
    FiftyLacksThreefold(w, elo);
    EndingOfDraw(DrawText("Fifty Move Rule", w, elo), w, Fifty);
  }

  lemma FiftyLacks(w: bool, elo: int)
    ensures !Contains(DrawText("Fifty Move Rule", w, elo), "Stalemate")
    ensures !Contains(DrawText("Fifty Move Rule", w, elo), "Insufficient Material")
  {
    TitleLacks("Fifty Move Rule", w, elo, "Stalemate", 0);
    TitleLacks("Fifty Move Rule", w, elo, "Insufficient Material", 0);
  }

  lemma FiftyLacksThreefold(w: bool, elo: int)
    ensures !Contains(DrawText("Fifty Move Rule", w, elo), "Threefold Repetition")
  {
    TitleLacks("Fifty Move Rule", w, elo, "Threefold Repetition", 0);
  }

  /** The information of a checkmate record: the user's colour `p` and the
      word `x` after "User", split around "User" as the record lemmas read it. */
  function MateLine(p: string, x: string, elo: int): (r: string)
    ensures |r| > |p| + |x|
  {
    ("Checkmate | " + p + " ") + "User" + (" " + x) + " | vs. " + Opponent(elo)
  }

  function MateVerdict(loser: string, w: bool): (v: string)
    requires loser == "w" || loser == "b"
    ensures v == Player(w) + " User " + (if (loser == "b") == w then "Win" else "Loss")
  {
    if loser == "b" && w then "White User Win"
    else if loser == "b" then "Black User Loss"
    else if w then "White User Loss"
    else "Black User Win"
  }

  /** The word after "User" in a checkmate record. */
  function MateWord(loser: string, w: bool): string
  {
    if (loser == "b") == w then "Win" else "Loss"
  }

  lemma MateInfo(loser: string, w: bool, elo: int)
    requires loser == "w" || loser == "b"
    ensures ResultInfo(Checkmate(loser), w, elo) == MateLine(Player(w), MateWord(loser, w), elo)
  {
    var v := MateVerdict(loser, w);
    assert Verdict(Checkmate(loser), w) == "Checkmate | " + v;
    MateRegroup(Player(w), MateWord(loser, w), Opponent(elo));
  }

  lemma MateRegroup(p: string, x: string, t: string)
    ensures ("Checkmate | " + p + " ") + "User" + (" " + x) + " | vs. " + t
      == "Checkmate | " + (p + " User " + x) + " | vs. " + t
  {
  }

  /** A checkmate record is neither unfinished nor a draw. */
  lemma MateFinished(p: string, x: string, elo: int)
    requires 'U' !in p && 'Q' !in p && 'U' !in x && 'Q' !in x
    ensures !Contains(MateLine(p, x, elo), "Quit")
    ensures !Contains(MateLine(p, x, elo), "Undetermined")
  {
    Finished("Checkmate | " + p + " ", " " + x, elo);
  }

  lemma MateNoDraw(p: string, x: string, elo: int)
    requires 'S' !in p && 'S' !in x && 'I' !in p && 'I' !in x
    requires 'T' !in p && 'T' !in x && 'M' !in p && 'M' !in x
    ensures !Contains(MateLine(p, x, elo), "Stalemate")
    ensures !Contains(MateLine(p, x, elo), "Insufficient Material")
    ensures !Contains(MateLine(p, x, elo), "Threefold Repetition")
    ensures !Contains(MateLine(p, x, elo), "Fifty Move Rule")
  {
    MateLacks(p, x, elo, "Stalemate", 0);
    MateLacks(p, x, elo, "Insufficient Material", 0);
    MateNoLateDraw(p, x, elo);
  }

  lemma MateNoLateDraw(p: string, x: string, elo: int)
    requires 'T' !in p && 'T' !in x && 'M' !in p && 'M' !in x
    ensures !Contains(MateLine(p, x, elo), "Threefold Repetition")
    ensures !Contains(MateLine(p, x, elo), "Fifty Move Rule")
  {
    MateLacks(p, x, elo, "Threefold Repetition", 0);
    MateLacks(p, x, elo, "Fifty Move Rule", 6);
  }

  lemma MateLacks(p: string, x: string, elo: int, t: string, j: int)
    requires 0 <= j < |t| && t[j] !in p && t[j] !in x && t[j] !in "Checkmate | User"
    requires t[j] !in "-0123456789 Elo)" && t[j] !in "Friend) |.vs"
    ensures !Contains(MateLine(p, x, elo), t)
  {
    var v := ("Checkmate | " + p + " ") + "User" + (" " + x);
    Absent(v, elo, t[j]);
    MissingChar(MateLine(p, x, elo), t, j);
  }

  lemma MateHolds(p: string, x: string, elo: int)
    ensures Contains(MateLine(p, x, elo), x)
  {
    var head := ("Checkmate | " + p + " ") + "User";
    ContainsItself(x);
    ContainsPrefixed(" ", x, x);
    ContainsPrefixed(head, " " + x, x);
    ContainsExtended(head + (" " + x), " | vs. ", x);
    ContainsExtended(head + (" " + x) + " | vs. ", Opponent(elo), x);
  }

  /** The 'W' of "White" does not start a "Win". */
  lemma MateNoWin(p: string, x: string, elo: int)
    requires |p| > 1 && p[1] != 'i' && 'W' !in p[1..] && 'W' !in x
    ensures !Contains(MateLine(p, x, elo), "Win")
  {
    var e := " " + x;
    Absent(" " + "User" + e, elo, 'W');
    NoWinAfter("Checkmate | ", p, " " + "User" + e + " | vs. " + Opponent(elo));
    Regroup("Checkmate | ", p, " ", "User", e, " | vs. ", Opponent(elo));
  }

  /** A colour word whose 'W' is at its head, between text without a 'W',
      does not start a "Win" elsewhere. */
  lemma NoWinAfter(h: string, p: string, tail: string)
    requires 'W' !in h && 'W' !in tail && |p| > 1 && p[1] != 'i' && 'W' !in p[1..]
    ensures !Contains(h + (p + tail), "Win")
  {
    var b := p + tail;
    assert b[1..] == p[1..] + tail;
    assert !StartsWith(b, "Win") by {
      assert b[1] == p[1];
      assert |b| >= 3 ==> b[..3][1] == p[1];
    }
    NoOccurrence(h, b, "Win");
  }

  lemma Regroup(a: string, b: string, c: string, d: string, e: string, f: string, g: string)
    ensures a + b + c + d + e + f + g == a + (b + (c + d + e + f + g))
  {
  }

  /** The review's verdict chain, given which keywords a checkmate record holds. */
  lemma EndingOfMate(info: string, w: bool, loser: string)
    requires loser == "w" || loser == "b"
    requires !Contains(info, "Quit") && !Contains(info, "Undetermined")
    requires !Contains(info, "Stalemate") && !Contains(info, "Insufficient Material")
    requires !Contains(info, "Threefold Repetition") && !Contains(info, "Fifty Move Rule")
    requires Contains(info, "Win") == ((loser == "b") == w)
    requires Contains(info, "Loss") == ((loser == "b") != w)
    ensures ReviewEndings(info, w) == [Announced(Checkmate(loser))]
  {
  }

  /** A checkmate record holds "Win" or "Loss" as its verdict says. */
  lemma MateWinLoss(loser: string, w: bool, elo: int)
    requires loser == "w" || loser == "b"
    ensures var info := MateLine(Player(w), MateWord(loser, w), elo);
      Contains(info, "Win") == ((loser == "b") == w) && Contains(info, "Loss") == ((loser == "b") != w)
  {
    var p, x := Player(w), MateWord(loser, w);
    MateHolds(p, x, elo);
    if x == "Win" {
      MateLacks(p, x, elo, "Loss", 0);
    } else if w {
      MateNoWin(p, x, elo);
    } else {
      MateLacks(p, x, elo, "Win", 0);
    }
  }

  /** The review of a game lost to checkmate announces the side that won. */
  lemma MateRecordEnds(loser: string, w: bool, elo: int)
    requires loser == "w" || loser == "b"
    ensures ReviewEndings(ResultInfo(Checkmate(loser), w, elo), w) == [Announced(Checkmate(loser))]
  {
    MateInfo(loser, w, elo);
    MateLineEnds(loser, w, elo);
  }

  lemma MateLineEnds(loser: string, w: bool, elo: int)
    requires loser == "w" || loser == "b"
    ensures ReviewEndings(MateLine(Player(w), MateWord(loser, w), elo), w) == [Announced(Checkmate(loser))]
  {
    var p, x := Player(w), MateWord(loser, w);
    MateFinished(p, x, elo);
    MateNoDraw(p, x, elo);
    MateWinLoss(loser, w, elo);
    EndingOfMate(MateLine(p, x, elo), w, loser);
  }

  /** A checkmate record reads back as the player's colour and the opponent. */
  lemma MateRecordReads(loser: string, w: bool, elo: int)
    requires (loser == "w" || loser == "b") && RecordableElo(elo)
    ensures ReadInfo(ResultInfo(Checkmate(loser), w, elo)) == Ok((w, elo))
  {
    MateInfo(loser, w, elo);
    MateLineReads(Player(w), MateWord(loser, w), w, elo);
  }

  lemma MateLineReads(p: string, x: string, w: bool, elo: int)
    requires p == Player(w) && (x == "Win" || x == "Loss") && RecordableElo(elo)
    ensures ReadInfo(MateLine(p, x, elo)) == Ok((w, elo))
  {
    MateWhite(p, x, w);
    ReadsBack("Checkmate | " + p + " ", " " + x, w, elo, 0);
  }

  /** A checkmate verdict names "White" exactly when the user plays white. */
  lemma MateWhite(p: string, x: string, w: bool)
    requires p == Player(w) && (x == "Win" || x == "Loss")
    ensures Contains(("Checkmate | " + p + " ") + "User" + (" " + x), "White") == w
  {
    var v := ("Checkmate | " + p + " ") + "User" + (" " + x);
    if w {
      Holds("Checkmate | ", "White", " User " + x);
      assert "Checkmate | " + "White" + (" User " + x) == v;
    } else {
      assert v == "Checkmate | Black User " + x;
      NoOccurrence("Checkmate | Black User ", x, "White");
    }
  }

  /** The information of an exit record, split around "User". */
  function ExitLine(p: string, elo: int): (r: string)
    ensures |r| > |p|
  {
    ("Undetermined | " + p + " ") + "User" + " Exit" + " | vs. " + Opponent(elo)
  }

  lemma ExitInfoLine(w: bool, elo: int)
    ensures ExitInfo(w, elo) == ExitLine(Player(w), elo)
  {
  }

  /** An exit record reads back as the player's colour and the opponent. */
  lemma ExitRecordReads(w: bool, elo: int)
    requires RecordableElo(elo)
    ensures ReadInfo(ExitInfo(w, elo)) == Ok((w, elo))
  {
    ExitInfoLine(w, elo);
    ExitLineReads(Player(w), w, elo);
  }

  lemma ExitLineReads(p: string, w: bool, elo: int)
    requires p == Player(w) && RecordableElo(elo)
    ensures ReadInfo(ExitLine(p, elo)) == Ok((w, elo))
  {
    var v := ("Undetermined | " + p + " ") + "User" + " Exit";
    if w {
      Holds("Undetermined | ", "White", " User Exit");
      assert "Undetermined | " + "White" + " User Exit" == v;
    } else {
      assert 'W' !in v;
      MissingChar(v, "White", 0);
    }
    ReadsBack("Undetermined | " + p + " ", " Exit", w, elo, 0);
  }

  /** The review of an exited game reports it as unfinished and nothing else. */
  lemma ExitRecordEnds(w: bool, elo: int)
    ensures ReviewEndings(ExitInfo(w, elo), w) == [Erroneous]
  {
    ExitInfoLine(w, elo);
    ExitLineEnds(Player(w), w, elo);
  }

  lemma ExitLineEnds(p: string, w: bool, elo: int)
    requires p == Player(w)
    ensures ReviewEndings(ExitLine(p, elo), w) == [Erroneous]
  {
    ExitHolds(p, elo);
    ExitNoDraw(p, elo);
    ExitNoVerdict(p, elo);
  }

  lemma ExitHolds(p: string, elo: int)
    ensures Contains(ExitLine(p, elo), "Undetermined")
  {
    var s := ExitLine(p, elo);
    assert s[..12] == "Undetermined";
    ContainsWitness(s, "Undetermined", 0);
  }

  lemma ExitNoDraw(p: string, elo: int)
    requires 'S' !in p && 'I' !in p && 'T' !in p && 'M' !in p
    ensures !Contains(ExitLine(p, elo), "Stalemate")
    ensures !Contains(ExitLine(p, elo), "Insufficient Material")
    ensures !Contains(ExitLine(p, elo), "Threefold Repetition")
    ensures !Contains(ExitLine(p, elo), "Fifty Move Rule")
  {
    ExitLacks(p, elo, "Stalemate", 0);
    ExitLacks(p, elo, "Insufficient Material", 0);
    ExitNoLateDraw(p, elo);
  }

  lemma ExitNoLateDraw(p: string, elo: int)
    requires 'T' !in p && 'M' !in p
    ensures !Contains(ExitLine(p, elo), "Threefold Repetition")
    ensures !Contains(ExitLine(p, elo), "Fifty Move Rule")
  {
    ExitLacks(p, elo, "Threefold Repetition", 0);
    ExitLacks(p, elo, "Fifty Move Rule", 6);
  }

  lemma ExitNoVerdict(p: string, elo: int)
    requires p == Player(true) || p == Player(false)
    ensures !Contains(ExitLine(p, elo), "Win") && !Contains(ExitLine(p, elo), "Loss")
  {
    ExitLacks(p, elo, "Loss", 0);
    if p == Player(false) {
      ExitLacks(p, elo, "Win", 0);
    } else {
      ExitNoWin(p, elo);
    }
  }

  /** The 'W' of "White" does not start a "Win". */
  lemma ExitNoWin(p: string, elo: int)
    requires |p| > 1 && p[1] != 'i' && 'W' !in p[1..]
    ensures !Contains(ExitLine(p, elo), "Win")
  {
    Absent(" " + "User" + " Exit", elo, 'W');
    NoWinAfter("Undetermined | ", p, " " + "User" + " Exit" + " | vs. " + Opponent(elo));
    Regroup("Undetermined | ", p, " ", "User", " Exit", " | vs. ", Opponent(elo));
  }

  lemma ExitLacks(p: string, elo: int, t: string, j: int)
    requires 0 <= j < |t| && t[j] !in p && t[j] !in "Undetermined | User Exit"
    requires t[j] !in "-0123456789 Elo)" && t[j] !in "Friend) |.vs"
    ensures !Contains(ExitLine(p, elo), t)
  {
    var v := ("Undetermined | " + p + " ") + "User" + " Exit";
    Absent(v, elo, t[j]);
    MissingChar(ExitLine(p, elo), t, j);
  }

  /** A quit record reads back as no colour and no opponent. */
  lemma QuitRecordReads()
    ensures ReadInfo(QuitInfo) == Ok((false, -1))
  {
    QuitHolds();
  }

  lemma QuitHolds()
    ensures Contains(QuitInfo, "Quit")
  {
    assert QuitInfo[20..24] == "Quit";
    ContainsWitness(QuitInfo, "Quit", 20);
  }

  /** The review of a quit game reports it as unfinished and nothing else. */
  lemma QuitRecordEnds(w: bool)
    ensures ReviewEndings(QuitInfo, w) == [Erroneous]
  {
    QuitHolds();
    QuitNoVerdict();
  }

  lemma QuitNoVerdict()
    ensures !Contains(QuitInfo, "Stalemate") && !Contains(QuitInfo, "Insufficient Material")
    ensures !Contains(QuitInfo, "Threefold Repetition") && !Contains(QuitInfo, "Fifty Move Rule")
    ensures !Contains(QuitInfo, "Win") && !Contains(QuitInfo, "Loss")
  {
    MissingChar(QuitInfo, "Stalemate", 0);
    MissingChar(QuitInfo, "Insufficient Material", 0);
    MissingChar(QuitInfo, "Threefold Repetition", 0);
    MissingChar(QuitInfo, "Fifty Move Rule", 0);
    MissingChar(QuitInfo, "Win", 0);
    MissingChar(QuitInfo, "Loss", 0);
  }

  /** A result record's information is one line with no white space at
      either end. */
  lemma ResultInfoGood(o: Outcome, w: bool, elo: int)
    ensures GoodInfo(ResultInfo(o, w, elo))
  {
    var v := Verdict(o, w);
    VerdictLine(o, w);
    OpponentLine(elo);
    OpponentEnds(elo);
    var info := ResultInfo(o, w, elo);
    assert info[0] == v[0];
    assert info[|info| - 1] == Opponent(elo)[|Opponent(elo)| - 1];
  }

  lemma VerdictLine(o: Outcome, w: bool)
    ensures var v := Verdict(o, w); |v| > 0 && '\n' !in v && v[0] in "CSITF"
  {
    var p := Player(w);
    assert '\n' !in p;
    assert '\n' !in " User Draw";
    match o
    case Checkmate(_) =>
      assert '\n' !in "Checkmate | ";
      assert '\n' !in "White User Win" && '\n' !in "Black User Loss";
      assert '\n' !in "White User Loss" && '\n' !in "Black User Win";
    case Stalemate => assert '\n' !in "Stalemate | ";
    case Insufficient => assert '\n' !in "Insufficient Material | ";
    case Threefold => assert '\n' !in "Threefold Repetition | ";
    case Fifty => assert '\n' !in "Fifty Move Rule | ";
  }

  lemma OpponentEnds(elo: int)
    ensures |Opponent(elo)| > 0 && Opponent(elo)[|Opponent(elo)| - 1] == ')'
  {
  }

  /** What the review loads from a game of the log: the forward stack (first
      move on top), the information, the user's colour and the opponent. */
  datatype Loaded = Loaded(fwd: seq<string>, info: string, isWhite: bool, elo: int)

  /** The reading of the chosen game in promptForReview. */
  function LoadGame(e: Entry): (r: Result<Loaded>)
    ensures r.Ok? <==> ReadInfo(e.info).Ok?
    ensures r.Ok? ==> r.value.info == e.info && Reverse(r.value.fwd) == SplitMoves(e.moves)
  {
    var ms := SplitMoves(e.moves);
    ReverseTwice(ms);
    match ReadInfo(e.info)
    case Crash => Crash
    case Ok((w, elo)) => Ok(Loaded(Reverse(ms), e.info, w, elo))
  }

  lemma {:induction false} ReverseTwice<T>(s: seq<T>)
    ensures Reverse(Reverse(s)) == s
  {
    var r := Reverse(Reverse(s));
    assert forall i :: 0 <= i < |s| ==> r[i] == s[i];
  }

  /** A finished game written to the log comes back, as the last game, with
      its moves in play order on the forward stack, the user's colour and
      opponent, and a review verdict that announces the same ending. */
  lemma ReviewOfWrittenGame(f: string, ms: seq<string>, o: Outcome, w: bool, elo: int)
    requires AtPrompt(f) && GoodMoves(ms) && RecordableElo(elo)
    requires o.Checkmate? ==> o.loser == "w" || o.loser == "b"
    ensures var log := ParseLog(WriteResult(WriteMoves(f, ms), o, w, elo));
      && |log| == |ParseLog(f)| + 1 && log[..|ParseLog(f)|] == ParseLog(f)
      && LoadGame(log[|log| - 1]) == Ok(Loaded(Reverse(ms), ResultInfo(o, w, elo), w, elo))
      && ReviewEndings(log[|log| - 1].info, w) == [Announced(o)]
  {
    var info := ResultInfo(o, w, elo);
    ResultInfoGood(o, w, elo);
    GameAppends(f, ms, info);
    SplitMovesText(ms);
    ResultRecordReads(o, w, elo);
    ResultRecordEnds(o, w, elo);
    var log := ParseLog(WriteResult(WriteMoves(f, ms), o, w, elo));
    assert log == ParseLog(f) + [Entry(Trim(MovesText(ms)), info)];
    assert log[|log| - 1] == Entry(Trim(MovesText(ms)), info);
  }

  lemma ResultRecordReads(o: Outcome, w: bool, elo: int)
    requires RecordableElo(elo)
    requires o.Checkmate? ==> o.loser == "w" || o.loser == "b"
    ensures ReadInfo(ResultInfo(o, w, elo)) == Ok((w, elo))
  {
    if o.Checkmate? {
      MateRecordReads(o.loser, w, elo);
    } else {
      DrawRecordReads(o, w, elo);
    }
  }

  lemma ResultRecordEnds(o: Outcome, w: bool, elo: int)
    requires o.Checkmate? ==> o.loser == "w" || o.loser == "b"
    ensures ReviewEndings(ResultInfo(o, w, elo), w) == [Announced(o)]
  {
    if o.Checkmate? {
      MateRecordEnds(o.loser, w, elo);
    } else {
      DrawRecordEnds(o, w, elo);
    }
  }
}
