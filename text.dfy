/**
 * String utilities the generated code relies on, each paired with the
 * inverse that reads its output back: prefix/suffix stripping, splitting
 * newline-terminated lines, and Swift's decimal rendering of an integer
 * (string interpolation `"\(n)"`).
 */
module Text {
  import opened Wrappers

  /** `s` with the prefix `p` removed, when `s` starts with `p`. */
  function StripPrefix(s: string, p: string): (r: Option<string>)
    ensures r.Some? <==> p <= s
    ensures r.Some? ==> p + r.value == s
  {
    if p <= s then Some(s[|p|..]) else None
  }

  /** `s` with the suffix `q` removed, when `s` ends with `q`. */
  function StripSuffix(s: string, q: string): (r: Option<string>)
    ensures r.Some? <==> |q| <= |s| && s[|s| - |q|..] == q
    ensures r.Some? ==> r.value + q == s
  {
    if |q| <= |s| && s[|s| - |q|..] == q then Some(s[..|s| - |q|]) else None
  }

  lemma StripAffixes(p: string, m: string, q: string)
    ensures StripPrefix(p + m + q, p) == Some(m + q)
    ensures StripSuffix(m + q, q) == Some(m)
  {
    assert (p + m + q)[|p|..] == m + q;
    assert (m + q)[..|m|] == m;
    assert (m + q)[|m|..] == q;
  }

  /** The position of the first `c` in `s`, if any. */
  function IndexOf(s: string, c: char): (r: Option<nat>)
    ensures r.Some? ==> r.value < |s| && s[r.value] == c && c !in s[..r.value]
    ensures r.None? ==> c !in s
  {
    if s == [] then None
    else if s[0] == c then Some(0)
    else match IndexOf(s[1..], c)
      case None => None
      case Some(i) =>
        assert s[..i + 1] == [s[0]] + s[1..][..i];
        Some(i + 1)
  }

  lemma {:induction false} IndexOfSeparator(a: string, c: char, b: string)
    requires c !in a
    ensures IndexOf(a + [c] + b, c) == Some(|a|)
  {
    if a == [] {
      assert a + [c] + b == [c] + b;
    } else {
      assert (a + [c] + b)[1..] == a[1..] + [c] + b;
      IndexOfSeparator(a[1..], c, b);
    }
  }

  /** A text with a separator after a separator-free part splits there. */
  lemma SplitAtSeparator(a: string, c: char, b: string)
    requires c !in a
    ensures var s := a + [c] + b;
      && IndexOf(s, c) == Some(|a|)
      && s[..|a|] == a
      && s[|a|..] == [c] + b
  {
    IndexOfSeparator(a, c, b);
    var s := a + [c] + b;
    assert s[..|a|] == a;
    assert s[|a|..] == [c] + b;
  }

  predicate SingleLine(l: string) {
    '\n' !in l
  }

  /** Each line followed by a newline, concatenated. */
  function Unlines(ls: seq<string>): string
  {
    if ls == [] then "" else ls[0] + "\n" + Unlines(ls[1..])
  }

  /** The newline-terminated lines of `s`; a final piece without newline counts as a line. */
  function Lines(s: string): seq<string>
    decreases |s|
  {
    if s == [] then []
    else match IndexOf(s, '\n')
      case None => [s]
      case Some(i) => [s[..i]] + Lines(s[i + 1..])
  }

  /** Splitting off the first line of a newline-terminated text. */
  lemma LinesOfLine(first: string, rest: string)
    requires SingleLine(first)
    ensures Lines(first + "\n" + rest) == [first] + Lines(rest)
  {
    var s := first + "\n" + rest;
    assert s == first + ['\n'] + rest;
    IndexOfSeparator(first, '\n', rest);
    assert s[..|first|] == first;
    assert s[|first| + 1..] == rest;
  }

  /** Reading lines back recovers exactly the lines that were written. */
  lemma {:induction false} LinesOfUnlines(ls: seq<string>)
    requires forall i :: 0 <= i < |ls| ==> SingleLine(ls[i])
    ensures Lines(Unlines(ls)) == ls
  {
    if ls != [] {
      LinesOfLine(ls[0], Unlines(ls[1..]));
      assert forall i :: 0 <= i < |ls[1..]| ==> ls[1..][i] == ls[i + 1];
      LinesOfUnlines(ls[1..]);
    }
  }

  predicate IsDigit(c: char) {
    '0' <= c <= '9'
  }

  function DigitChar(d: nat): (c: char)
    requires d < 10
    ensures IsDigit(c)
  {
    ('0' as int + d) as char
  }

  function DigitValue(c: char): (d: nat)
    requires IsDigit(c)
    ensures d < 10 && DigitChar(d) == c
  {
    c as int - '0' as int
  }

  /** Swift's rendering of a non-negative `Int` in a string interpolation. */
  function Decimal(n: nat): (r: string)
    ensures |r| > 0
    ensures forall i :: 0 <= i < |r| ==> IsDigit(r[i])
  {
    if n < 10 then [DigitChar(n)] else Decimal(n / 10) + [DigitChar(n % 10)]
  }

  /** Reads a string of decimal digits; `None` for the empty string or a non-digit. */
  function ParseDecimal(s: string): Option<nat>
    decreases |s|
  {
    if s == [] || !IsDigit(s[|s| - 1]) then None
    else if |s| == 1 then Some(DigitValue(s[0]))
    else match ParseDecimal(s[..|s| - 1])
      case None => None
      case Some(v) => Some(10 * v + DigitValue(s[|s| - 1]))
  }

  lemma {:induction false} ParseDecimalOfDecimal(n: nat)
    ensures ParseDecimal(Decimal(n)) == Some(n)
  {
    if n >= 10 {
      var s := Decimal(n);
      assert s[..|s| - 1] == Decimal(n / 10);
      ParseDecimalOfDecimal(n / 10);
      assert DigitValue(s[|s| - 1]) == n % 10 by {
        assert s[|s| - 1] == DigitChar(n % 10);
      }
    } else {
      assert DigitValue(DigitChar(n)) == n;
    }
  }

  /** Distinct numbers render differently. */
  lemma DecimalInjective(m: nat, n: nat)
    requires m != n
    ensures Decimal(m) != Decimal(n)
  {
    ParseDecimalOfDecimal(m);
    ParseDecimalOfDecimal(n);
  }
}
