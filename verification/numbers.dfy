/** Decimal text conversions of the C++ standard library: std::to_string on an
    int and std::stoi, including the cases in which std::stoi throws. */
module Numbers {
  import opened Base
  import opened Strings

  const IntMin: int := -0x8000_0000
  const IntMax: int := 0x7FFF_FFFF

  predicate IsDigit(c: char)
  {
    '0' <= c <= '9'
  }

  predicate AllDigits(s: string)
  {
    forall i :: 0 <= i < |s| ==> IsDigit(s[i])
  }

  function Digit(d: nat): (c: char)
    requires d < 10
    ensures IsDigit(c) && c as int - '0' as int == d
  {
    ('0' as int + d) as char
  }

  /** The number a run of decimal digits denotes. */
  function DigitsValue(s: string): nat
    requires AllDigits(s)
  {
    if |s| == 0 then 0 else DigitsValue(s[..|s| - 1]) * 10 + (s[|s| - 1] as int - '0' as int)
  }

  /** Decimal text of `n`, without leading zeros. */
  function NatToString(n: nat): (s: string)
    ensures |s| >= 1 && AllDigits(s)
    ensures |s| > 1 ==> s[0] != '0'
  {
    if n < 10 then [Digit(n)] else NatToString(n / 10) + [Digit(n % 10)]
  }

  /** std::to_string on an int. */
  function IntToString(i: int): (s: string)
    ensures |s| >= 1
    ensures s[0] == '-' <==> i < 0
    ensures forall k :: 0 <= k < |s| ==> IsDigit(s[k]) || (k == 0 && s[k] == '-')
  {
    if i < 0 then "-" + NatToString(-i) else NatToString(i)
  }

  /** Reading back the digits of `n` gives `n`. */
  lemma {:induction false} NatToStringValue(n: nat)
    ensures DigitsValue(NatToString(n)) == n
  {
    if n >= 10 {
      NatToStringValue(n / 10);
      var s := NatToString(n);
      assert s[..|s| - 1] == NatToString(n / 10);
    }
  }

  /** The length of the decimal text pins down the magnitude. */
  lemma {:induction false} NatToStringLength(n: nat, k: nat)
    requires k >= 1
    ensures |NatToString(n)| == k <==> (k == 1 || Pow10(k - 1) <= n) && n < Pow10(k)
  {
    if n >= 10 {
      if k > 1 {
        NatToStringLength(n / 10, k - 1);
      } else {
        NatToStringLength(n / 10, 1);
      }
    }
  }

  function Pow10(k: nat): (p: nat)
    ensures p >= 1
  {
    if k == 0 then 1 else 10 * Pow10(k - 1)
  }

  /** Length of the run of digits at the start of `s`. */
  function DigitRun(s: string): (n: nat)
    ensures n <= |s| && AllDigits(s[..n])
    ensures n < |s| ==> !IsDigit(s[n])
  {
    if |s| > 0 && IsDigit(s[0]) then
      var n := 1 + DigitRun(s[1..]);
      assert s[..n] == [s[0]] + s[1..][..n - 1];
      n
    else 0
  }

  /** The characters C's isspace accepts; std::stoi skips them first. */
  const CSpaces: set<char> := {' ', '\t', '\n', 11 as char, 12 as char, '\r'}

  /** std::stoi in base 10: skip leading white space, read an optional sign and
      at least one digit, ignore whatever follows. `None` stands for the
      exceptions it throws: no digit (std::invalid_argument) or a value outside
      the range of a 32-bit int (std::out_of_range). */
  function Stoi(s: string): (r: Option<int>)
    ensures r.Some? ==> IntMin <= r.value <= IntMax
    ensures r.Some? ==> exists k :: 0 <= k < |s| && IsDigit(s[k])
  {
    var t := s[LeadingCount(s, CSpaces)..];
    var signed := |t| > 0 && (t[0] == '-' || t[0] == '+');
    var u := if signed then t[1..] else t;
    var n := DigitRun(u);
    if n == 0 then None
    else
      var magnitude: int := DigitsValue(u[..n]);
      var v: int := if signed && t[0] == '-' then -magnitude else magnitude;
      assert IsDigit(s[|s| - |u|]) by {
        assert u[0] == s[|s| - |u|];
      }
      if IntMin <= v <= IntMax then Some(v) else None
  }

  /** std::stoi reads back what std::to_string wrote. */
  lemma StoiOfIntToString(i: int)
    requires IntMin <= i <= IntMax
    ensures Stoi(IntToString(i)) == Some(i)
  {
    var s := IntToString(i);
    assert s[0] !in CSpaces;
    assert LeadingCount(s, CSpaces) == 0;
    assert s[0..] == s;
    if i < 0 {
      var d := NatToString(-i);
      assert s[1..] == d;
      assert DigitRun(d) == |d|;
      assert d[..|d|] == d;
      NatToStringValue(-i);
    } else {
      assert DigitRun(s) == |s|;
      assert s[..|s|] == s;
      NatToStringValue(i);
    }
  }

  /** std::to_string(e) == "1" exactly when e is 1. */
  lemma IntToStringOne(i: int)
    ensures IntToString(i) == "1" <==> i == 1
  {
    if IntToString(i) == "1" {
      assert i >= 0;
      NatToStringValue(i);
      assert DigitsValue("1") == 1;
    }
  }
}
