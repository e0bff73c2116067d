/** How the engine wrapper reads the engine's replies: data arrives in chunks
    and is appended to a receive buffer; every complete line (the text before
    a newline, trimmed as QString::trimmed does) is removed from the buffer
    and examined, until one is accepted. An incomplete last line stays in the
    buffer. */
module UciFrame {
  import opened Base
  import opened Strings

  /** Index of the first newline (QString::indexOf('\n')), if any. */
  function NewlineAt(s: string): (r: Option<nat>)
    ensures r.Some? ==> r.value < |s| && s[r.value] == '\n'
    ensures r.Some? ==> forall j :: 0 <= j < r.value ==> s[j] != '\n'
    ensures r.None? <==> '\n' !in s
  {
    if |s| == 0 then None
    else if s[0] == '\n' then Some(0)
    else match NewlineAt(s[1..])
      case None => None
      case Some(i) => Some(i + 1)
  }

  /** What examining the buffer line by line leaves: the accepted line and
      the text after its newline, or, when no complete line is accepted, the
      incomplete fragment after the last newline. */
  datatype Scanned = Matched(line: string, rest: string) | Unmatched(rest: string)

  /** The inner loop of waitFor and waitBestMove on one buffer. The line is
      handed to `accept` as it stands before the newline; the callers trim it
      before they compare. */
  function Scan(s: string, accept: string -> bool): (r: Scanned)
    ensures r.Matched? ==> accept(r.line) && |r.rest| < |s|
    ensures r.Unmatched? ==> '\n' !in r.rest
    decreases |s|
  {
    match NewlineAt(s)
    case None => Unmatched(s)
    case Some(nl) =>
      if accept(s[..nl]) then Matched(s[..nl], s[nl + 1..]) else Scan(s[nl + 1..], accept)
  }

  /** The index of the first accepted line. */
  function FirstAccepted(ls: seq<string>, accept: string -> bool): (r: Option<nat>)
    ensures r.Some? ==> r.value < |ls| && accept(ls[r.value])
    ensures r.Some? ==> forall j :: 0 <= j < r.value ==> !accept(ls[j])
    ensures r.None? ==> forall j :: 0 <= j < |ls| ==> !accept(ls[j])
  {
    if |ls| == 0 then None
    else if accept(ls[0]) then Some(0)
    else match FirstAccepted(ls[1..], accept)
      case None => None
      case Some(i) => Some(i + 1)
  }

  /** The scan described by the lines of the buffer: the pieces between
      newlines are the complete lines followed by the incomplete fragment.
      The first accepted complete line is returned with the lines after it,
      joined back; without one, the fragment alone remains. */
  function FirstLineOf(ps: seq<string>, accept: string -> bool): Scanned
    requires |ps| > 0
  {
    var ls := ps[..|ps| - 1];
    match FirstAccepted(ls, accept)
    case None => Unmatched(ps[|ps| - 1])
    case Some(i) => Matched(ls[i], Join(ps[i + 1..], '\n'))
  }

  /** Scanning finds the first accepted line of the buffer. */
  lemma {:induction false} ScanIsFirstLine(s: string, accept: string -> bool)
    ensures Scan(s, accept) == FirstLineOf(Pieces(s, '\n'), accept)
    decreases |s|
  {
    match NewlineAt(s)
    case None =>
      PiecesNoSep(s, '\n');
    case Some(nl) =>
      var x, y := s[..nl], s[nl + 1..];
      PiecesAtNewline(s, nl);
      if accept(x) {
        FirstLineTakes(x, Pieces(y, '\n'), accept);
        JoinPieces(y, '\n');
      } else {
        ScanIsFirstLine(y, accept);
        FirstLineSkips(x, Pieces(y, '\n'), accept);
      }
  }

  /** An accepted first line is the one returned, with the rest joined back. */
  lemma FirstLineTakes(x: string, py: seq<string>, accept: string -> bool)
    requires |py| > 0 && accept(x)
    ensures FirstLineOf([x] + py, accept) == Matched(x, Join(py, '\n'))
  {
    var ps := [x] + py;
    assert ps[..|ps| - 1][0] == x;
    assert ps[1..] == py;
  }

  /** A first line that is not accepted is skipped. */
  lemma FirstLineSkips(x: string, py: seq<string>, accept: string -> bool)
    requires |py| > 0 && !accept(x)
    ensures FirstLineOf([x] + py, accept) == FirstLineOf(py, accept)
  {
    var ps := [x] + py;
    var ls, ly := ps[..|ps| - 1], py[..|py| - 1];
    assert ls[0] == x && ls[1..] == ly;
    match FirstAccepted(ly, accept)
    case None =>
    case Some(i) =>
      assert ps[i + 2..] == py[i + 1..];
  }

  /** The first piece of a text is the text before its first newline. */
  lemma PiecesAtNewline(s: string, nl: nat)
    requires NewlineAt(s) == Some(nl)
    ensures Pieces(s, '\n') == [s[..nl]] + Pieces(s[nl + 1..], '\n')
  {
    var x, y := s[..nl], s[nl + 1..];
    assert s == x + ['\n'] + y;
    assert '\n' !in x;
    PiecesAround(x, y, '\n');
    PiecesNoSep(x, '\n');
  }

  /** The first newline of a text is the first newline of any longer text
      that starts with it. */
  lemma NewlineAtPrefix(a: string, b: string)
    requires NewlineAt(a).Some?
    ensures NewlineAt(a + b) == NewlineAt(a)
  {
    var nl := NewlineAt(a).value;
    assert (a + b)[nl] == '\n';
    assert forall j :: 0 <= j < nl ==> (a + b)[j] == a[j];
  }

  /** Appending data after a complete line leaves that line, and the scan
      goes on over the rest followed by the new data. */
  lemma ScanStep(a: string, b: string, accept: string -> bool)
    requires NewlineAt(a).Some?
    ensures var nl := NewlineAt(a).value;
      Scan(a + b, accept) ==
        if accept(a[..nl]) then Matched(a[..nl], a[nl + 1..] + b) else Scan(a[nl + 1..] + b, accept)
  {
    NewlineAtPrefix(a, b);
    var nl := NewlineAt(a).value;
    assert (a + b)[..nl] == a[..nl];
    assert (a + b)[nl + 1..] == a[nl + 1..] + b;
  }

  /** Data arriving after an accepted line does not change the line; it
      lands after the rest of the buffer. */
  lemma {:induction false} ScanExtends(a: string, b: string, accept: string -> bool)
    requires Scan(a, accept).Matched?
    ensures Scan(a + b, accept) == Matched(Scan(a, accept).line, Scan(a, accept).rest + b)
    decreases |a|
  {
    ScanStep(a, b, accept);
    var nl := NewlineAt(a).value;
    if !accept(a[..nl]) {
      ScanExtends(a[nl + 1..], b, accept);
    }
  }

  /** When nothing in `a` is accepted, only its fragment matters for what
      follows: scanning `a` then the new data is scanning the fragment
      followed by the new data. */
  lemma {:induction false} ScanAppend(a: string, b: string, accept: string -> bool)
    requires Scan(a, accept).Unmatched?
    ensures Scan(a + b, accept) == Scan(Scan(a, accept).rest + b, accept)
    decreases |a|
  {
    match NewlineAt(a)
    case None =>
    case Some(nl) =>
      ScanStep(a, b, accept);
      assert Scan(a, accept) == Scan(a[nl + 1..], accept);
      ScanAppend(a[nl + 1..], b, accept);
  }

  /** The chunks glued together. */
  function Concat(cs: seq<string>): string
  {
    if |cs| == 0 then "" else cs[0] + Concat(cs[1..])
  }

  lemma {:induction false} ConcatSplit(cs: seq<string>, k: nat)
    requires k <= |cs|
    ensures Concat(cs) == Concat(cs[..k]) + Concat(cs[k..])
  {
    if k > 0 {
      ConcatSplit(cs[1..], k - 1);
      assert cs[1..][..k - 1] == cs[..k][1..];
      assert cs[1..][k - 1..] == cs[k..];
    }
  }

  /** The outcome of a wait: the accepted line if any, the receive buffer
      afterwards, and the chunks not yet read. */
  datatype Wait = Wait(matched: Option<string>, buf: string, unread: seq<string>)

  /** The outer loop of waitFor and waitBestMove: up to `budget` chunks arrive
      before the deadline; each is appended to the buffer, which is then
      scanned. The wait stops at the first accepted line, leaving later
      chunks unread. */
  function Receive(buf: string, chunks: seq<string>, budget: nat, accept: string -> bool): (r: Wait)
    ensures |r.unread| <= |chunks| && r.unread == chunks[|chunks| - |r.unread|..]
    ensures r.matched.Some? ==> accept(r.matched.value)
    decreases budget
  {
    if budget == 0 || |chunks| == 0 then Wait(None, buf, chunks)
    else
      match Scan(buf + chunks[0], accept)
      case Matched(l, rest) => Wait(Some(l), rest, chunks[1..])
      case Unmatched(rest) =>
        var r := Receive(rest, chunks[1..], budget - 1, accept);
        assert chunks[1..][|chunks[1..]| - |r.unread|..] == chunks[|chunks| - |r.unread|..];
        r
  }

  /** What a wait that reads at least one chunk sees: the buffer followed by
      every chunk that arrives in time. */
  function Seen(buf: string, chunks: seq<string>, budget: nat): string
  {
    buf + Concat(chunks[..Arrived(chunks, budget)])
  }

  /** How many chunks arrive before the deadline. */
  function Arrived(chunks: seq<string>, budget: nat): (k: nat)
    ensures k <= |chunks|
  {
    if budget < |chunks| then budget else |chunks|
  }

  /** The wait finds the first accepted line of what it sees, and loses
      nothing: the buffer and the unread chunks hold what follows that line. */
  predicate ReadsAsOne(buf: string, chunks: seq<string>, budget: nat, accept: string -> bool)
  {
    var k := Arrived(chunks, budget);
    var r := Receive(buf, chunks, budget, accept);
    var s := Scan(Seen(buf, chunks, budget), accept);
    && (r.matched.Some? <==> s.Matched?)
    && (s.Matched? ==>
          r.matched.value == s.line && r.buf + Concat(r.unread) == s.rest + Concat(chunks[k..]))
    && (s.Unmatched? ==> r.buf == s.rest && r.unread == chunks[k..])
  }

  /** Chunk boundaries do not matter: a wait that reads at least one chunk
      behaves as if everything that arrived in time had arrived at once. */
  lemma {:induction false} ReceiveIsScan(buf: string, chunks: seq<string>, budget: nat, accept: string -> bool)
    requires budget > 0 && |chunks| > 0
    ensures ReadsAsOne(buf, chunks, budget, accept)
    decreases budget
  {
    if Scan(buf + chunks[0], accept).Matched? {
      ReceiveMatchedFirst(buf, chunks, budget, accept);
    } else if budget - 1 == 0 || |chunks| == 1 {
      ReceiveLastChunk(buf, chunks, budget, accept);
    } else {
      var rest := Scan(buf + chunks[0], accept).rest;
      ReceiveIsScan(rest, chunks[1..], budget - 1, accept);
      ReceiveUnmatchedFirst(buf, chunks, budget, accept);
    }
  }

  /** What is seen is the buffer with the first chunk, then the other chunks
      that arrive in time. */
  lemma SeenFirst(buf: string, chunks: seq<string>, budget: nat)
    requires budget > 0 && |chunks| > 0
    ensures var k := Arrived(chunks, budget);
      Seen(buf, chunks, budget) == (buf + chunks[0]) + Concat(chunks[1..][..k - 1])
  {
    var k := Arrived(chunks, budget);
    assert chunks[..k] == [chunks[0]] + chunks[1..][..k - 1];
    assert chunks[..k][1..] == chunks[1..][..k - 1];
  }

  /** The step of the induction: a first chunk that completes no accepted
      line leaves its fragment for the rest of the wait. */
  lemma ReceiveUnmatchedFirst(buf: string, chunks: seq<string>, budget: nat, accept: string -> bool)
    requires budget > 1 && |chunks| > 1
    requires Scan(buf + chunks[0], accept).Unmatched?
    requires ReadsAsOne(Scan(buf + chunks[0], accept).rest, chunks[1..], budget - 1, accept)
    ensures ReadsAsOne(buf, chunks, budget, accept)
  {
    var rest := Scan(buf + chunks[0], accept).rest;
    ReceiveSkipsFirst(buf, chunks, budget, accept);
    SeenSkipsFirst(buf, chunks, budget, accept);
    ReadsAsOneTransfer(buf, chunks, budget, rest, chunks[1..], budget - 1, accept);
  }

  /** A first chunk with no accepted line: the wait goes on from its fragment. */
  lemma ReceiveSkipsFirst(buf: string, chunks: seq<string>, budget: nat, accept: string -> bool)
    requires budget > 1 && |chunks| > 1
    requires Scan(buf + chunks[0], accept).Unmatched?
    ensures Receive(buf, chunks, budget, accept)
      == Receive(Scan(buf + chunks[0], accept).rest, chunks[1..], budget - 1, accept)
  {
  }

  /** ... and what it sees is what the rest of the wait sees. */
  lemma SeenSkipsFirst(buf: string, chunks: seq<string>, budget: nat, accept: string -> bool)
    requires budget > 1 && |chunks| > 1
    requires Scan(buf + chunks[0], accept).Unmatched?
    ensures var rest := Scan(buf + chunks[0], accept).rest;
      && Scan(Seen(buf, chunks, budget), accept) == Scan(Seen(rest, chunks[1..], budget - 1), accept)
      && chunks[Arrived(chunks, budget)..] == chunks[1..][Arrived(chunks[1..], budget - 1)..]
  {
    var k := Arrived(chunks, budget);
    var a := buf + chunks[0];
    var tail := chunks[1..][..k - 1];
    assert Arrived(chunks[1..], budget - 1) == k - 1;
    assert Seen(buf, chunks, budget) == a + Concat(tail) by {
      SeenFirst(buf, chunks, budget);
    }
    assert Seen(Scan(a, accept).rest, chunks[1..], budget - 1) == Scan(a, accept).rest + Concat(tail);
    ScanAppend(a, Concat(tail), accept);
  }

  /** Two waits that end alike and see the same text read alike. */
  lemma ReadsAsOneTransfer(b1: string, c1: seq<string>, n1: nat, b2: string, c2: seq<string>, n2: nat,
                           accept: string -> bool)
    requires Receive(b1, c1, n1, accept) == Receive(b2, c2, n2, accept)
    requires Scan(Seen(b1, c1, n1), accept) == Scan(Seen(b2, c2, n2), accept)
    requires c1[Arrived(c1, n1)..] == c2[Arrived(c2, n2)..]
    requires ReadsAsOne(b2, c2, n2, accept)
    ensures ReadsAsOne(b1, c1, n1, accept)
  {
  }

  lemma ReceiveLastChunk(buf: string, chunks: seq<string>, budget: nat, accept: string -> bool)
    requires budget > 0 && |chunks| > 0 && (budget == 1 || |chunks| == 1)
    requires Scan(buf + chunks[0], accept).Unmatched?
    ensures ReadsAsOne(buf, chunks, budget, accept)
  {
    var a := buf + chunks[0];
    assert Arrived(chunks, budget) == 1;
    assert Receive(buf, chunks, budget, accept) == Wait(None, Scan(a, accept).rest, chunks[1..]);
    assert Seen(buf, chunks, budget) == a by {
      assert chunks[..1] == [chunks[0]];
      assert Concat([chunks[0]]) == chunks[0] + Concat([]);
    }
  }

  lemma ReceiveMatchedFirst(buf: string, chunks: seq<string>, budget: nat, accept: string -> bool)
    requires budget > 0 && |chunks| > 0
    requires Scan(buf + chunks[0], accept).Matched?
    ensures ReadsAsOne(buf, chunks, budget, accept)
  {
    var k := Arrived(chunks, budget);
    var a := buf + chunks[0];
    var m := Scan(a, accept);
    var tail := chunks[1..][..k - 1];
    assert Receive(buf, chunks, budget, accept) == Wait(Some(m.line), m.rest, chunks[1..]);
    assert Seen(buf, chunks, budget) == a + Concat(tail) by {
      SeenFirst(buf, chunks, budget);
    }
    assert Scan(a + Concat(tail), accept) == Matched(m.line, m.rest + Concat(tail)) by {
      ScanExtends(a, Concat(tail), accept);
    }
    assert Concat(chunks[1..]) == Concat(tail) + Concat(chunks[k..]) by {
      ConcatSplit(chunks[1..], k - 1);
      assert chunks[1..][k - 1..] == chunks[k..];
    }
  }
}
