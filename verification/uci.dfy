/** The wrapper around the engine process: start, stop, the strength
    setting, the best-move request and the new-game flag. The process is
    abstract: the environment decides whether each write goes through, which
    chunks of output arrive, and how many arrive before each deadline. */
module Uci {
  import opened Base
  import opened Strings
  import opened Numbers
  import opened UciFrame
  import Prompts

  /** The wrapper's fields: whether a process object exists (proc_), the
      receive buffer (buf_), the new-game flag (freshGame_), and the lines
      the process has been sent. */
  datatype Engine = Engine(running: bool, buf: string, newGame: bool, sent: seq<string>)

  /** What the outside world does: the outcome of each write in turn (a
      write with no outcome left goes through), the chunks the process
      writes, in order, and for each wait how many of them arrive before its
      deadline (none when no count is left). */
  datatype Env = Env(writes: seq<bool>, chunks: seq<string>, budgets: seq<nat>)

  /** The value an operation returns, with the wrapper and the world after it. */
  datatype Step<+T> = Step(value: T, engine: Engine, env: Env)

  /** A wrapper just constructed: no process, an empty buffer, a fresh game. */
  const Initial: Engine := Engine(false, "", true, [])

  /** Without a process the wrapper is waiting for a fresh game and holds no
      data. */
  predicate Inv(e: Engine)
  {
    !e.running ==> e.newGame && e.buf == ""
  }

  /** The lines sent only grow. */
  predicate Extends(e: Engine, e': Engine)
  {
    |e.sent| <= |e'.sent| && e'.sent[..|e.sent|] == e.sent
  }

  function NextBudget(env: Env): nat
  {
    if |env.budgets| == 0 then 0 else env.budgets[0]
  }

  /** send: fails at once without a process; otherwise the write goes
      through or not as the world decides. */
  function Send(e: Engine, env: Env, line: string): (r: Step<bool>)
    ensures !e.running ==> r == Step(false, e, env)
    ensures r.value ==> e.running && r.engine == e.(sent := e.sent + [line])
    ensures !r.value ==> r.engine == e
  {
    if !e.running then Step(false, e, env)
    else
      var ok := |env.writes| == 0 || env.writes[0];
      var env' := env.(writes := if |env.writes| == 0 then [] else env.writes[1..]);
      if ok then Step(true, e.(sent := e.sent + [line]), env') else Step(false, e, env')
  }

  /** Sends each line in turn, ignoring the outcomes. */
  function SendAll(e: Engine, env: Env, lines: seq<string>): (r: Step<bool>)
    ensures r.engine.running == e.running && r.engine.buf == e.buf && r.engine.newGame == e.newGame
    ensures Extends(e, r.engine)
    decreases |lines|
  {
    if |lines| == 0 then Step(true, e, env)
    else
      var s := Send(e, env, lines[0]);
      SendAll(s.engine, s.env, lines[1..])
  }

  /** A waited-for line: exactly the token once trimmed. */
  function IsToken(token: string): string -> bool
  {
    (raw: string) => QTrimmed(raw) == token
  }

  /** A reply to `go`: a trimmed line starting with "bestmove ". */
  function IsBestMove(raw: string): bool
  {
    StartsWith(QTrimmed(raw), "bestmove ")
  }

  /** The lines of a text that end with a newline. */
  function CompleteLines(s: string): seq<string>
  {
    var ps := Pieces(s, '\n');
    ps[..|ps| - 1]
  }

  /** waitFor: the chunks that arrive in time are appended to the buffer,
      complete lines are taken off it, and the wait succeeds at the first
      one equal to the token. */
  function WaitFor(e: Engine, env: Env, token: string): (r: Step<bool>)
    ensures r.engine == e.(buf := r.engine.buf)
    ensures NextBudget(env) == 0 || env.chunks == [] ==> r == Step(false, e, env.(budgets := Rest(env.budgets)))
  {
    var w := Receive(e.buf, env.chunks, NextBudget(env), IsToken(token));
    Step(w.matched.Some?, e.(buf := w.buf), env.(chunks := w.unread, budgets := Rest(env.budgets)))
  }

  function Rest(s: seq<nat>): seq<nat>
  {
    if |s| == 0 then [] else s[1..]
  }

  /** The second field of a line split at spaces, empty fields dropped;
      empty when there is none. */
  function SecondField(line: string): string
  {
    var parts := NonEmptyPieces(line, ' ');
    if |parts| >= 2 then parts[1] else ""
  }

  /** waitBestMove: like waitFor, but the wait ends at the first line that
      starts with "bestmove ", and the move is its second field. */
  function WaitBestMove(e: Engine, env: Env): (r: Step<string>)
    ensures r.engine == e.(buf := r.engine.buf)
    ensures ' ' !in r.value
  {
    var w := Receive(e.buf, env.chunks, NextBudget(env), IsBestMove);
    var env' := env.(chunks := w.unread, budgets := Rest(env.budgets));
    match w.matched
    case None => Step("", e.(buf := w.buf), env')
    case Some(line) =>
      var m := SecondField(QTrimmed(line));
      assert ' ' !in m by {
        if |NonEmptyPieces(QTrimmed(line), ' ')| >= 2 {
          assert m == NonEmptyPieces(QTrimmed(line), ' ')[1];
        }
      }
      Step(m, e.(buf := w.buf), env')
  }

  /** isReady: send "isready" and wait for "readyok". */
  function IsReady(e: Engine, env: Env): (r: Step<bool>)
    ensures r.engine.running == e.running && r.engine.newGame == e.newGame
    ensures r.value ==> e.running && r.engine.sent == e.sent + ["isready"]
    ensures !r.value ==> Extends(e, r.engine)
  {
    var s := Send(e, env, "isready");
    if !s.value then s else WaitFor(s.engine, s.env, "readyok")
  }

  /** stop: nothing without a process; otherwise "quit" is sent and the
      process, the buffer and the game are dropped. */
  function Stop(e: Engine, env: Env): (r: Step<()>)
    ensures !e.running ==> r == Step((), e, env)
    ensures e.running ==> !r.engine.running && r.engine.buf == "" && r.engine.newGame
    ensures e.running ==> r.engine.sent == e.sent || r.engine.sent == e.sent + ["quit"]
  {
    if !e.running then Step((), e, env)
    else
      var q := Send(e, env, "quit");
      Step((), Engine(false, "", true, q.engine.sent), q.env)
  }

  /** The options start sends, ignoring whether they arrive. */
  const Options: seq<string> := [
    "setoption name Threads value 1",
    "setoption name Hash value 256",
    "setoption name Ponder value false",
    "setoption name MultiPV value 1",
    "setoption name Contempt value 0",
    "setoption name Move Overhead value 0",
    "setoption name Skill Level value 20"]

  /** start: stop any previous process, then create one (`launched` says
      whether it starts in time), switch it to UCI, send the options and
      wait until it is ready. The process object stays even when a step
      fails. */
  function Start(e: Engine, env: Env, launched: bool): (r: Step<bool>)
    ensures r.engine.running
    ensures r.engine.newGame == (e.newGame || e.running)
    ensures var base := Stop(e, env).engine.sent;
      r.value ==>
        && |r.engine.sent| >= |base| + 2
        && r.engine.sent[..|base| + 1] == base + ["uci"]
        && r.engine.sent[|r.engine.sent| - 1] == "isready"
  {
    var s := Stop(e, env);
    var e1 := s.engine.(running := true);
    if !launched then Step(false, e1, s.env) else Handover(e1, s.env)
  }

  /** The part of start after the process has started. */
  function Handover(e: Engine, env: Env): (r: Step<bool>)
    requires e.running
    ensures r.engine.running && r.engine.newGame == e.newGame
    ensures r.value ==>
      && |r.engine.sent| >= |e.sent| + 2
      && r.engine.sent[..|e.sent| + 1] == e.sent + ["uci"]
      && r.engine.sent[|r.engine.sent| - 1] == "isready"
  {
    var u := Send(e, env, "uci");
    if !u.value then Step(false, u.engine, u.env)
    else
      var r := Greeted(u.engine, u.env);
      assert r.value ==> r.engine.sent[..|e.sent| + 1] == e.sent + ["uci"] by {
        assert u.engine.sent == e.sent + ["uci"];
        assert Extends(u.engine, r.engine);
      }
      r
  }

  /** After "uci": wait for "uciok", then configure. */
  function Greeted(e: Engine, env: Env): (r: Step<bool>)
    requires e.running
    ensures r.engine.running && r.engine.newGame == e.newGame
    ensures Extends(e, r.engine)
    ensures r.value ==> |r.engine.sent| > |e.sent| && r.engine.sent[|r.engine.sent| - 1] == "isready"
  {
    var w := WaitFor(e, env, "uciok");
    if !w.value then Step(false, w.engine, w.env) else Configure(w.engine, w.env)
  }

  /** The options, then the readiness check that decides start's result. */
  function Configure(e: Engine, env: Env): (r: Step<bool>)
    ensures r.engine.running == e.running && r.engine.newGame == e.newGame
    ensures Extends(e, r.engine)
    ensures r.value ==> |r.engine.sent| > |e.sent| && r.engine.sent[|r.engine.sent| - 1] == "isready"
  {
    var o := SendAll(e, env, Options);
    var r := IsReady(o.engine, o.env);
    assert Extends(o.engine, r.engine);
    ExtendsTransitive(e, o.engine, r.engine);
    r
  }

  lemma ExtendsTransitive(a: Engine, b: Engine, c: Engine)
    requires Extends(a, b) && Extends(b, c)
    ensures Extends(a, c)
  {
    assert c.sent[..|a.sent|] == c.sent[..|b.sent|][..|a.sent|];
  }

  /** The elo setElo sends: raised to 800, lowered to 3200. */
  function ClampElo(elo: int): (c: int)
    ensures 800 <= c <= 3200
    ensures 800 <= elo <= 3200 ==> c == elo
    ensures elo < 800 ==> c == 800
    ensures elo > 3200 ==> c == 3200
  {
    var lo := if elo < 800 then 800 else elo;
    if lo > 3200 then 3200 else lo
  }

  const LimitStrength: string := "setoption name UCI_LimitStrength value true"

  function EloOption(c: int): string
  {
    "setoption name UCI_Elo value " + IntToString(c)
  }

  /** setElo: limit the strength, send the clamped elo, wait until ready;
      the first failure ends it. */
  function SetElo(e: Engine, env: Env, elo: int): (r: Step<bool>)
    ensures !e.running ==> r == Step(false, e, env)
    ensures r.value ==> r.engine.sent == e.sent + [LimitStrength, EloOption(ClampElo(elo)), "isready"]
    ensures r.engine.running == e.running && r.engine.newGame == e.newGame
    ensures Extends(e, r.engine)
    ensures !e.running ==> r.engine == e
  {
    var a := Send(e, env, LimitStrength);
    if !a.value then a
    else
      var b := Send(a.engine, a.env, EloOption(ClampElo(elo)));
      if !b.value then b
      else IsReady(b.engine, b.env)
  }

  /** markNewGame. */
  function MarkNewGame(e: Engine): (r: Engine)
    ensures r.newGame && r.running == e.running && r.buf == e.buf && r.sent == e.sent
  {
    e.(newGame := true)
  }

  /** bestMove: on a fresh game first "ucinewgame" and a readiness check,
      after which the game is no longer fresh; then the buffer is cleared,
      the position and the search time are sent, and the answer awaited.
      Any failed step gives the empty move. */
  function BestMove(e: Engine, env: Env, fen: string, ms: int): (r: Step<string>)
    ensures r.engine.running == e.running
    ensures !e.newGame ==> !r.engine.newGame
    ensures r.engine.newGame ==> r.value == "" && r.engine.newGame == e.newGame
    ensures e.newGame && !r.engine.newGame ==>
      |r.engine.sent| >= |e.sent| + 2 && r.engine.sent[..|e.sent| + 2] == e.sent + ["ucinewgame", "isready"]
    ensures r.value != "" ==> ' ' !in r.value && !r.engine.newGame
    ensures r.value != "" ==>
      r.engine.sent == e.sent
        + (if e.newGame then ["ucinewgame", "isready"] else [])
        + ["position fen " + fen, "go movetime " + IntToString(ms)]
    ensures Extends(e, r.engine)
  {
    var h := Handshake(e, env);
    if !h.value then Step("", h.engine, h.env)
    else
      var c := h.engine.(buf := "");
      var p := Send(c, h.env, "position fen " + fen);
      if !p.value then Step("", p.engine, p.env)
      else
        var g := Send(p.engine, p.env, "go movetime " + IntToString(ms));
        if !g.value then Step("", g.engine, g.env)
        else WaitBestMove(g.engine, g.env)
  }

  /** The new-game exchange at the head of bestMove, when the game is fresh. */
  function Handshake(e: Engine, env: Env): (r: Step<bool>)
    ensures r.engine.running == e.running
    ensures !r.value ==> r.engine.newGame == e.newGame
    ensures r.value ==> !r.engine.newGame
    ensures r.value ==> r.engine.sent == e.sent + (if e.newGame then ["ucinewgame", "isready"] else [])
    ensures !e.newGame ==> r == Step(true, e, env)
    ensures Extends(e, r.engine)
  {
    if !e.newGame then Step(true, e, env)
    else
      var n := Send(e, env, "ucinewgame");
      if !n.value then Step(false, n.engine, n.env)
      else
        var i := IsReady(n.engine, n.env);
        if !i.value then Step(false, i.engine, i.env)
        else Step(true, i.engine.(newGame := false), i.env)
  }

  // ---------------------------------------------------------------------------
  // The waits in terms of the lines received

  /** A wait that reads at least one chunk succeeds exactly when one of the
      complete lines of the buffer and the chunks arrived in time, trimmed,
      is the token. When it fails, the incomplete last line stays buffered
      and the chunks that arrive later stay unread. */
  lemma WaitForHears(e: Engine, env: Env, token: string)
    requires NextBudget(env) > 0 && env.chunks != []
    ensures var seen := Seen(e.buf, env.chunks, NextBudget(env));
      var ls := CompleteLines(seen);
      var r := WaitFor(e, env, token);
      && (r.value <==> exists i :: 0 <= i < |ls| && QTrimmed(ls[i]) == token)
      && (!r.value ==>
            r.engine.buf == Pieces(seen, '\n')[|ls|]
            && r.env.chunks == env.chunks[Arrived(env.chunks, NextBudget(env))..])
  {
    var seen := Seen(e.buf, env.chunks, NextBudget(env));
    WaitForIsScan(e, env, token);
    ScanHears(seen, token);
  }

  lemma WaitForIsScan(e: Engine, env: Env, token: string)
    requires NextBudget(env) > 0 && env.chunks != []
    ensures var s := Scan(Seen(e.buf, env.chunks, NextBudget(env)), IsToken(token));
      var r := WaitFor(e, env, token);
      && (r.value <==> s.Matched?)
      && (!r.value ==>
            r.engine.buf == s.rest && r.env.chunks == env.chunks[Arrived(env.chunks, NextBudget(env))..])
  {
    ReceiveIsScan(e.buf, env.chunks, NextBudget(env), IsToken(token));
  }

  lemma ScanHears(seen: string, token: string)
    ensures var ls := CompleteLines(seen);
      var s := Scan(seen, IsToken(token));
      && (s.Matched? <==> exists i :: 0 <= i < |ls| && QTrimmed(ls[i]) == token)
      && (s.Unmatched? ==> s.rest == Pieces(seen, '\n')[|ls|])
  {
    var ls := CompleteLines(seen);
    ScanIsFirstLine(seen, IsToken(token));
    match FirstAccepted(ls, IsToken(token))
    case None =>
      assert forall i :: 0 <= i < |ls| ==> !IsToken(token)(ls[i]);
    case Some(i) =>
      assert IsToken(token)(ls[i]);
  }

  /** A reply line always carries a move: once trimmed, "bestmove " is
      followed by at least one character that is not white space. */
  lemma BestMoveLineHasMove(raw: string)
    requires IsBestMove(raw)
    ensures SecondField(QTrimmed(raw)) != ""
  {
    var line := QTrimmed(raw);
    assert line[8] == "bestmove "[8] == ' ';
    assert line[|line| - 1] != ' ';
    var rest := line[9..];
    assert line == "bestmove" + [' '] + rest;
    PiecesAround("bestmove", rest, ' ');
    PiecesNoSep("bestmove", ' ');
    var pr := Pieces(rest, ' ');
    assert Pieces(line, ' ') == ["bestmove"] + pr;
    assert DropEmpty(["bestmove"] + pr) == ["bestmove"] + DropEmpty(pr) by {
      assert (["bestmove"] + pr)[1..] == pr;
    }
    assert rest[|rest| - 1] != ' ';
    SomePieceLeft(rest, ' ', |rest| - 1);
  }

  /** A text holding a character other than the separator keeps a non-empty
      piece. */
  lemma {:induction false} SomePieceLeft(s: string, sep: char, k: nat)
    requires k < |s| && s[k] != sep
    ensures |DropEmpty(Pieces(s, sep))| >= 1
    decreases k
  {
    var rest := Pieces(s[1..], sep);
    if s[0] == sep {
      assert Pieces(s, sep) == [""] + rest;
      assert ([""] + rest)[1..] == rest;
      SomePieceLeft(s[1..], sep, k - 1);
    } else {
      var p := Pieces(s, sep);
      assert p[0] == [s[0]] + rest[0];
      assert p[0] != "";
    }
  }

  /** The move waitBestMove returns: the second field of the first complete
      "bestmove " line among the buffer and the chunks arrived in time, and
      the empty string exactly when there is no such line. */
  lemma WaitBestMoveReads(e: Engine, env: Env)
    requires NextBudget(env) > 0 && env.chunks != []
    ensures var seen := Seen(e.buf, env.chunks, NextBudget(env));
      var ls := CompleteLines(seen);
      var r := WaitBestMove(e, env);
      && (r.value == match FirstAccepted(ls, IsBestMove)
            case None => ""
            case Some(i) => SecondField(QTrimmed(ls[i])))
      && (r.value != "" <==> exists i :: 0 <= i < |ls| && IsBestMove(ls[i]))
  {
    var seen := Seen(e.buf, env.chunks, NextBudget(env));
    var ls := CompleteLines(seen);
    ReceiveIsScan(e.buf, env.chunks, NextBudget(env), IsBestMove);
    ScanIsFirstLine(seen, IsBestMove);
    match FirstAccepted(ls, IsBestMove)
    case None =>
    case Some(i) =>
      BestMoveLineHasMove(ls[i]);
  }

  // ---------------------------------------------------------------------------
  // The session as a whole

  /** What the rest of the program asks of the wrapper. */
  datatype Op = StartOp(launched: bool) | StopOp | SetEloOp(elo: int)
              | BestMoveOp(fen: string, ms: int) | MarkNewGameOp

  function Apply(e: Engine, env: Env, op: Op): (Engine, Env)
  {
    match op
    case StartOp(l) => var r := Start(e, env, l); (r.engine, r.env)
    case StopOp => var r := Stop(e, env); (r.engine, r.env)
    case SetEloOp(elo) => var r := SetElo(e, env, elo); (r.engine, r.env)
    case BestMoveOp(fen, ms) => var r := BestMove(e, env, fen, ms); (r.engine, r.env)
    case MarkNewGameOp => (MarkNewGame(e), env)
  }

  /** The wrapper after a sequence of requests. */
  function Run(e: Engine, env: Env, ops: seq<Op>): (Engine, Env)
    decreases |ops|
  {
    if |ops| == 0 then (e, env)
    else
      var (e1, env1) := Apply(e, env, ops[0]);
      Run(e1, env1, ops[1..])
  }

  /** Every request keeps the invariant: only stop drops the process, and it
      marks the game fresh and empties the buffer as it does. */
  lemma ApplyKeepsInv(e: Engine, env: Env, op: Op)
    requires Inv(e)
    ensures Inv(Apply(e, env, op).0)
  {
    match op
    case StartOp(l) =>
    case StopOp =>
    case SetEloOp(elo) =>
    case BestMoveOp(fen, ms) =>
      assert !e.running ==> BestMove(e, env, fen, ms).engine == e by {
        if !e.running {
          assert Handshake(e, env) == Step(false, e, env);
        }
      }
    case MarkNewGameOp =>
  }

  lemma {:induction false} RunKeepsInv(e: Engine, env: Env, ops: seq<Op>)
    requires Inv(e)
    ensures Inv(Run(e, env, ops).0)
    decreases |ops|
  {
    if |ops| > 0 {
      ApplyKeepsInv(e, env, ops[0]);
      var (e1, env1) := Apply(e, env, ops[0]);
      RunKeepsInv(e1, env1, ops[1..]);
    }
  }

  /** Whatever the program has done with the wrapper, a process it starts
      begins a fresh game: its first best move is preceded by "ucinewgame"
      and a readiness check. */
  lemma StartedProcessBeginsFresh(env: Env, ops: seq<Op>, launched: bool, fen: string, ms: int)
    ensures var (e, env1) := Run(Initial, env, ops);
      var s := Start(e, env1, launched);
      var b := BestMove(s.engine, s.env, fen, ms);
      && s.engine.newGame
      && (b.value != "" ==>
            b.engine.sent[|s.engine.sent|..|s.engine.sent| + 2] == ["ucinewgame", "isready"])
  {
    RunKeepsInv(Initial, env, ops);
  }

  /** Data left in the buffer from earlier waits never answers a request in
      a game already under way: bestMove clears the buffer first. */
  lemma BestMoveIgnoresStaleBuffer(e: Engine, env: Env, fen: string, ms: int)
    requires !e.newGame
    ensures BestMove(e, env, fen, ms) == BestMove(e.(buf := ""), env, fen, ms)
  {
  }

  /** An elo the prompt accepts for an engine game reaches the engine as
      typed (after the 1590 remapping): setElo's clamp never changes it, and
      the game that follows is fresh. */
  lemma AcceptedEloReachesEngine(input: string, e: Engine, env: Env)
    requires Prompts.EloReply(input).Accept? && Prompts.EloReply(input).value != 1
    ensures var v := Prompts.EloReply(input).value;
      var r := SetElo(MarkNewGame(e), env, v);
      && ClampElo(v) == v
      && r.engine.newGame
      && (r.value ==> r.engine.sent == e.sent + [LimitStrength, EloOption(v), "isready"])
  {
  }
}
