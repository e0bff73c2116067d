/** Text primitives shared by the board, the game log and the engine client:
    whitespace trimming in its std::string and QString flavours, splitting on
    one separator character (std::getline, QString::split), substring search,
    and the lexicographic order in which a QMap keeps its QString keys. */
module Strings {

  /** The characters `find_first_not_of(" \t\r\n")` skips in the game-log code. */
  const StdSpaces: set<char> := {' ', '\t', '\r', '\n'}

  /** The Latin-1 characters QChar::isSpace accepts; QString::trimmed strips them. */
  const QtSpaces: set<char> := {' ', '\t', '\n', 11 as char, 12 as char, '\r', 133 as char, 160 as char}

  // ---------------------------------------------------------------------------
  // Trimming

  /** Number of leading characters of `s` that belong to `ws`. */
  function LeadingCount(s: string, ws: set<char>): (n: nat)
    ensures n <= |s|
    ensures forall i :: 0 <= i < n ==> s[i] in ws
    ensures n < |s| ==> s[n] !in ws
  {
    if |s| > 0 && s[0] in ws then 1 + LeadingCount(s[1..], ws) else 0
  }

  /** Number of trailing characters of `s` that belong to `ws`. */
  function TrailingCount(s: string, ws: set<char>): (n: nat)
    ensures n <= |s|
    ensures forall i :: |s| - n <= i < |s| ==> s[i] in ws
    ensures n < |s| ==> s[|s| - n - 1] !in ws
  {
    if |s| > 0 && s[|s| - 1] in ws then 1 + TrailingCount(s[..|s| - 1], ws) else 0
  }

  /** `s` without its leading and trailing characters from `ws`: the
      find_first_not_of / find_last_not_of / substr idiom, and QString::trimmed. */
  function TrimWith(s: string, ws: set<char>): (r: string)
    ensures LeadingCount(s, ws) + |r| <= |s|
    ensures r == s[LeadingCount(s, ws)..LeadingCount(s, ws) + |r|]
    ensures r == [] || (r[0] !in ws && r[|r| - 1] !in ws)
    ensures r == [] <==> forall i :: 0 <= i < |s| ==> s[i] in ws
    ensures forall i :: LeadingCount(s, ws) + |r| <= i < |s| ==> s[i] in ws
  {
    var a := LeadingCount(s, ws);
    var rest := s[a..];
    var z := TrailingCount(rest, ws);
    assert z < |rest| ==> rest[|rest| - z - 1] == s[a + |rest| - z - 1];
    rest[..|rest| - z]
  }

  /** userinformation.cpp `trim`. */
  function Trim(s: string): string
  {
    TrimWith(s, StdSpaces)
  }

  /** QString::trimmed. */
  function QTrimmed(s: string): string
  {
    TrimWith(s, QtSpaces)
  }

  lemma {:induction false} LeadingCountOf(a: string, r: string, ws: set<char>)
    requires forall i :: 0 <= i < |a| ==> a[i] in ws
    requires |r| > 0 && r[0] !in ws
    ensures LeadingCount(a + r, ws) == |a|
    decreases |a|
  {
    if |a| > 0 {
      assert (a + r)[1..] == a[1..] + r;
      LeadingCountOf(a[1..], r, ws);
    }
  }

  lemma {:induction false} TrailingCountOf(r: string, z: string, ws: set<char>)
    requires forall i :: 0 <= i < |z| ==> z[i] in ws
    requires |r| > 0 && r[|r| - 1] !in ws
    ensures TrailingCount(r + z, ws) == |z|
    decreases |z|
  {
    if |z| > 0 {
      assert (r + z)[..|r + z| - 1] == r + z[..|z| - 1];
      TrailingCountOf(r, z[..|z| - 1], ws);
    }
  }

  /** Trimming is determined by its defining shape: whatever `ws` padding
      surrounds a core that neither starts nor ends with `ws`, trimming returns
      exactly that core. */
  lemma {:induction false} TrimUnique(a: string, r: string, z: string, ws: set<char>)
    requires forall i :: 0 <= i < |a| ==> a[i] in ws
    requires forall i :: 0 <= i < |z| ==> z[i] in ws
    requires r == [] || (r[0] !in ws && r[|r| - 1] !in ws)
    ensures TrimWith(a + r + z, ws) == r
  {
    var s := a + r + z;
    if r == [] {
      assert forall i :: 0 <= i < |s| ==> s[i] in ws by {
        forall i | 0 <= i < |s| ensures s[i] in ws {
          if i < |a| { assert s[i] == a[i]; } else { assert s[i] == z[i - |a|]; }
        }
      }
    } else {
      assert s == a + (r + z);
      LeadingCountOf(a, r + z, ws);
      assert s[|a|..] == r + z;
      TrailingCountOf(r, z, ws);
    }
  }

  /** Trimming twice is trimming once. */
  lemma TrimIdempotent(s: string, ws: set<char>)
    ensures TrimWith(TrimWith(s, ws), ws) == TrimWith(s, ws)
  {
    var r := TrimWith(s, ws);
    TrimUnique([], r, [], ws);
    assert [] + r + [] == r;
  }

  // ---------------------------------------------------------------------------
  // Splitting on one separator

  /** All pieces of `s` between occurrences of `sep`, empty ones included
      (QString::split with KeepEmptyParts). There is always at least one piece. */
  function Pieces(s: string, sep: char): (r: seq<string>)
    ensures |r| >= 1
    ensures forall i :: 0 <= i < |r| ==> sep !in r[i]
  {
    if |s| == 0 then [""]
    else
      var rest := Pieces(s[1..], sep);
      if s[0] == sep then [""] + rest else [[s[0]] + rest[0]] + rest[1..]
  }

  /** The pieces glued back together with `sep` between them. */
  function Join(ps: seq<string>, sep: char): string
    requires |ps| >= 1
  {
    if |ps| == 1 then ps[0] else ps[0] + [sep] + Join(ps[1..], sep)
  }

  /** Splitting a text that holds no separator gives the text itself. */
  lemma {:induction false} PiecesNoSep(s: string, sep: char)
    requires sep !in s
    ensures Pieces(s, sep) == [s]
  {
    if |s| > 0 {
      PiecesNoSep(s[1..], sep);
      assert [s[0]] + s[1..] == s;
    }
  }

  /** A separator splits the text into the pieces of its two sides. */
  lemma {:induction false} PiecesAround(x: string, y: string, sep: char)
    ensures Pieces(x + [sep] + y, sep) == Pieces(x, sep) + Pieces(y, sep)
    decreases |x|
  {
    var s := x + [sep] + y;
    if |x| == 0 {
      assert s[1..] == y;
    } else {
      assert s[1..] == x[1..] + [sep] + y;
      PiecesAround(x[1..], y, sep);
    }
  }

  /** Joining the pieces gives back the original text. */
  lemma {:induction false} JoinPieces(s: string, sep: char)
    ensures Join(Pieces(s, sep), sep) == s
  {
    if |s| > 0 {
      JoinPieces(s[1..], sep);
      var rest := Pieces(s[1..], sep);
      if s[0] == sep {
        assert Pieces(s, sep) == [""] + rest;
        assert ([""] + rest)[1..] == rest;
      } else {
        var p := Pieces(s, sep);
        assert p == [[s[0]] + rest[0]] + rest[1..];
        if |rest| == 1 {
          assert s == [s[0]] + s[1..];
        } else {
          assert p[1..] == rest[1..];
          assert Join(rest, sep) == rest[0] + [sep] + Join(rest[1..], sep);
        }
      }
    }
  }

  /** Splitting a join of separator-free pieces gives back the pieces. */
  lemma {:induction false} PiecesJoin(ps: seq<string>, sep: char)
    requires |ps| >= 1
    requires forall i :: 0 <= i < |ps| ==> sep !in ps[i]
    ensures Pieces(Join(ps, sep), sep) == ps
  {
    PiecesNoSep(ps[0], sep);
    if |ps| > 1 {
      PiecesJoin(ps[1..], sep);
      PiecesAround(ps[0], Join(ps[1..], sep), sep);
      assert [ps[0]] + ps[1..] == ps;
    }
  }

  /** The tokens std::getline yields with delimiter `delim`: the pieces, except
      that a final empty piece (the text ends with the delimiter, or is empty)
      is not produced. */
  function Tokens(s: string, delim: char): (r: seq<string>)
    ensures forall i :: 0 <= i < |r| ==> delim !in r[i]
    ensures |r| == 0 <==> s == []
  {
    var p := Pieces(s, delim);
    JoinPieces(s, delim);
    if p[|p| - 1] == "" then p[..|p| - 1] else p
  }

  /** Lines of a text file read with std::getline. */
  function Lines(s: string): seq<string>
  {
    Tokens(s, '\n')
  }

  /** The non-empty pieces (QString::split with Qt::SkipEmptyParts). */
  function NonEmptyPieces(s: string, sep: char): (r: seq<string>)
    ensures forall i :: 0 <= i < |r| ==> r[i] != "" && sep !in r[i]
  {
    DropEmpty(Pieces(s, sep))
  }

  function DropEmpty(ps: seq<string>): (r: seq<string>)
    ensures forall i :: 0 <= i < |r| ==> r[i] != "" && r[i] in ps
  {
    if |ps| == 0 then []
    else if ps[0] == "" then DropEmpty(ps[1..])
    else [ps[0]] + DropEmpty(ps[1..])
  }

  // ---------------------------------------------------------------------------
  // Searching

  /** `t` occurs in `s` starting at index `i`. */
  predicate OccursAt(s: string, t: string, i: int)
  {
    0 <= i && i + |t| <= |s| && s[i..i + |t|] == t
  }

  /** QString::contains / std::string::find != npos. */
  predicate Contains(s: string, t: string)
  {
    exists i | 0 <= i <= |s| - |t| :: OccursAt(s, t, i)
  }

  /** QString::startsWith; also `rfind(t, 0) == 0`. */
  predicate StartsWith(s: string, t: string)
  {
    |t| <= |s| && s[..|t|] == t
  }

  /** The first `n` characters, or all of them when there are fewer
      (std::string::substr(0, n)). */
  function Take(s: string, n: nat): (r: string)
    ensures |r| <= n && StartsWith(s, r)
  {
    if n <= |s| then s[..n] else s
  }

  lemma ContainsWitness(s: string, t: string, i: int)
    requires OccursAt(s, t, i)
    ensures Contains(s, t)
  {
  }

  /** An occurrence inside a part is an occurrence in the whole. */
  lemma ContainsInPart(a: string, b: string, c: string, t: string)
    requires Contains(b, t)
    ensures Contains(a + b + c, t)
  {
    var i :| 0 <= i <= |b| - |t| && OccursAt(b, t, i);
    assert (a + b + c)[|a| + i..|a| + i + |t|] == b[i..i + |t|];
    ContainsWitness(a + b + c, t, |a| + i);
  }

  lemma ContainsItself(t: string)
    ensures Contains(t, t)
  {
    assert t[0..|t|] == t;
    ContainsWitness(t, t, 0);
  }

  /** Text appended after an occurrence keeps it. */
  lemma ContainsExtended(s: string, b: string, t: string)
    requires Contains(s, t)
    ensures Contains(s + b, t)
  {
    var i :| 0 <= i <= |s| - |t| && OccursAt(s, t, i);
    assert (s + b)[i..i + |t|] == s[i..i + |t|];
    ContainsWitness(s + b, t, i);
  }

  /** Text put before an occurrence keeps it. */
  lemma ContainsPrefixed(a: string, s: string, t: string)
    requires Contains(s, t)
    ensures Contains(a + s, t)
  {
    var i :| 0 <= i <= |s| - |t| && OccursAt(s, t, i);
    assert (a + s)[|a| + i..|a| + i + |t|] == s[i..i + |t|];
    ContainsWitness(a + s, t, |a| + i);
  }

  /** A text never contains a pattern one of whose characters it lacks. */
  lemma MissingChar(s: string, t: string, j: int)
    requires 0 <= j < |t| && t[j] !in s
    ensures !Contains(s, t)
  {
    forall i | 0 <= i <= |s| - |t|
      ensures !OccursAt(s, t, i)
    {
      assert s[i..i + |t|][j] == s[i + j];
    }
  }

  /** No occurrence in `a + b` when the first character of `t` is missing from
      `a`, `b` does not start with `t`, and that character does not reappear
      in `b` after its first position. */
  lemma NoOccurrence(a: string, b: string, t: string)
    requires |t| > 0 && t[0] !in a
    requires !StartsWith(b, t)
    requires |b| > 0 ==> t[0] !in b[1..]
    ensures !Contains(a + b, t)
  {
    var s := a + b;
    forall i | 0 <= i <= |s| - |t|
      ensures !OccursAt(s, t, i)
    {
      assert s[i..i + |t|][0] == s[i];
      if i < |a| {
        assert s[i] == a[i];
      } else if i == |a| {
        assert s[i..i + |t|] == b[..|t|];
      } else {
        assert s[i] == b[1..][i - |a| - 1];
      }
    }
  }

  // ---------------------------------------------------------------------------
  // QString order (the iteration order of a QMap<QString, ...>)

  /** Lexicographic order on character codes; a proper prefix comes first. */
  predicate Less(a: string, b: string)
    decreases |a|
  {
    |b| > 0 && (|a| == 0 || a[0] < b[0] || (a[0] == b[0] && Less(a[1..], b[1..])))
  }

  lemma {:induction false} LessAsymmetric(a: string, b: string)
    ensures Less(a, b) ==> !Less(b, a)
    decreases |a|
  {
    if |a| > 0 && |b| > 0 && a[0] == b[0] {
      LessAsymmetric(a[1..], b[1..]);
    }
  }

  lemma LessAsymmetricAll()
    ensures forall a, b :: Less(a, b) ==> !Less(b, a)
  {
    forall a, b ensures Less(a, b) ==> !Less(b, a) {
      LessAsymmetric(a, b);
    }
  }

  lemma {:induction false} LessTransitive(a: string, b: string, c: string)
    ensures Less(a, b) && Less(b, c) ==> Less(a, c)
    decreases |a|
  {
    if |a| > 0 && |b| > 0 && |c| > 0 && a[0] == b[0] && b[0] == c[0] {
      LessTransitive(a[1..], b[1..], c[1..]);
    }
  }

  lemma {:induction false} LessTotal(a: string, b: string)
    ensures a == b || Less(a, b) || Less(b, a)
    decreases |a|
  {
    if |a| > 0 && |b| > 0 && a[0] == b[0] {
      LessTotal(a[1..], b[1..]);
      if a[1..] == b[1..] {
        assert a == [a[0]] + a[1..] && b == [b[0]] + b[1..];
      }
    }
  }

  /** `k` is the first element of `S` in QString order. */
  predicate IsLeast(k: string, S: set<string>)
  {
    k in S && forall k' :: k' in S && k' != k ==> Less(k, k')
  }

  /** Every finite non-empty set of strings has a first element. */
  lemma {:induction false} LeastExists(S: set<string>)
    requires S != {}
    ensures exists k :: IsLeast(k, S)
    decreases |S|
  {
    var x :| x in S;
    if S != {x} {
      var T := S - {x};
      LeastExists(T);
      var y :| IsLeast(y, T);
      LessTotal(x, y);
      if Less(x, y) {
        forall k | k in S && k != x
          ensures Less(x, k)
        {
          if k != y {
            LessTransitive(x, y, k);
          }
        }
        assert IsLeast(x, S);
      } else {
        assert IsLeast(y, S);
      }
    } else {
      assert IsLeast(x, S);
    }
  }

  /** The first element of a non-empty set of strings in QString order. */
  function Least(S: set<string>): (k: string)
    requires S != {}
    ensures IsLeast(k, S)
  {
    LeastExists(S);
    LessAsymmetricAll();
    var k :| IsLeast(k, S); k
  }
}
