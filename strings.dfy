/**
 * The handful of Python `str` operations the plugin relies on, stated on `seq<char>`
 * with Python's own character classes and ordering.
 */
module Strings {

  /** `c.isspace()`: the characters `str.split()` and `str.strip()` treat as whitespace. */
  predicate IsSpace(c: char) {
    var n := c as int;
    (0x09 <= n <= 0x0D) || (0x1C <= n <= 0x20) || n == 0x85 || n == 0xA0 || n == 0x1680
    || (0x2000 <= n <= 0x200A) || n == 0x2028 || n == 0x2029 || n == 0x202F || n == 0x205F
    || n == 0x3000
  }

  /** The line boundaries of `str.splitlines()`. */
  predicate IsLineBreak(c: char) {
    var n := c as int;
    (0x0A <= n <= 0x0D) || (0x1C <= n <= 0x1E) || n == 0x85 || n == 0x2028 || n == 0x2029
  }

  // ---------------------------------------------------------------------------
  // strip

  function TrimStart(s: string): (r: string)
    ensures |r| <= |s| && r == s[|s| - |r|..]
    ensures r == [] || !IsSpace(r[0])
    ensures forall i :: 0 <= i < |s| - |r| ==> IsSpace(s[i])
  {
    if |s| > 0 && IsSpace(s[0]) then TrimStart(s[1..]) else s
  }

  function TrimEnd(s: string): (r: string)
    ensures |r| <= |s| && r == s[..|r|]
    ensures r == [] || !IsSpace(r[|r| - 1])
    ensures forall i :: |r| <= i < |s| ==> IsSpace(s[i])
  {
    if |s| > 0 && IsSpace(s[|s| - 1]) then TrimEnd(s[..|s| - 1]) else s
  }

  /** `s.strip()`: `s` without its leading and trailing whitespace. */
  function Strip(s: string): (r: string)
    ensures r == [] || (!IsSpace(r[0]) && !IsSpace(r[|r| - 1]))
    ensures |r| <= |s|
    ensures (forall i :: 0 <= i < |s| ==> !IsSpace(s[i])) ==> r == s
  {
    TrimEnd(TrimStart(s))
  }

  /** `strip()` cuts a whitespace-only prefix and a whitespace-only suffix off its input, and no more. */
  lemma StripCutsSpace(s: string)
    ensures StripsTo(s, Strip(s))
  {
    var t := TrimStart(s);
    var r := TrimEnd(t);
    var i := |s| - |t|;
    assert r == s[i..i + |r|] && AllSpace(s[..i]) && AllSpace(s[i + |r|..]) by {
      assert t == s[i..];
      assert r == t[..|r|];
    }
  }

  /** `r` is `s` with a whitespace-only prefix and a whitespace-only suffix cut off. */
  predicate StripsTo(s: string, r: string) {
    exists i, j :: 0 <= i <= j <= |s| && r == s[i..j] && AllSpace(s[..i]) && AllSpace(s[j..])
  }

  predicate AllSpace(s: string) {
    forall i :: 0 <= i < |s| ==> IsSpace(s[i])
  }

  // ---------------------------------------------------------------------------
  // split

  predicate IsWord(w: string) {
    w != [] && forall i :: 0 <= i < |w| ==> !IsSpace(w[i])
  }

  function WordLength(s: string): (n: nat)
    ensures n <= |s|
    ensures forall i :: 0 <= i < n ==> !IsSpace(s[i])
    ensures n == |s| || IsSpace(s[n])
  {
    if |s| == 0 || IsSpace(s[0]) then 0 else 1 + WordLength(s[1..])
  }

  /** `s.split()`: the maximal runs of non-whitespace characters, in order. */
  function Split(s: string): (r: seq<string>)
    ensures forall i :: 0 <= i < |r| ==> IsWord(r[i])
    decreases |s|
  {
    var t := TrimStart(s);
    if t == [] then []
    else
      var n := WordLength(t);
      FirstWord(t);
      var rest := Split(t[n..]);
      ConsWords(t[..n], rest);
      [t[..n]] + rest
  }

  lemma FirstWord(t: string)
    requires t != [] && !IsSpace(t[0])
    ensures 1 <= WordLength(t) && IsWord(t[..WordLength(t)])
  {
  }

  lemma ConsWords(w: string, rest: seq<string>)
    requires IsWord(w) && forall i :: 0 <= i < |rest| ==> IsWord(rest[i])
    ensures forall i :: 0 <= i < |rest| + 1 ==> IsWord(([w] + rest)[i])
  {
    forall i | 0 <= i < |rest| + 1 ensures IsWord(([w] + rest)[i]) {
      if i > 0 {
        assert ([w] + rest)[i] == rest[i - 1];
      }
    }
  }

  /** `" ".join(words)`. */
  function JoinWords(words: seq<string>): string {
    if |words| == 0 then ""
    else if |words| == 1 then words[0]
    else words[0] + " " + JoinWords(words[1..])
  }

  lemma SplitSkipsSpace(c: char, s: string)
    requires IsSpace(c)
    ensures Split([c] + s) == Split(s)
  {
    assert ([c] + s)[1..] == s;
  }

  lemma {:induction false} WordLengthOfWord(w: string, rest: string)
    requires IsWord(w)
    requires rest == [] || IsSpace(rest[0])
    ensures WordLength(w + rest) == |w|
    decreases |w|
  {
    if |w| > 1 {
      assert (w + rest)[1..] == w[1..] + rest;
      WordLengthOfWord(w[1..], rest);
    } else {
      assert (w + rest)[1..] == rest;
    }
  }

  /** A word alone splits to itself. */
  lemma SplitOneWord(w: string)
    requires IsWord(w)
    ensures Split(w) == [w]
  {
    WordLengthOfWord(w, []);
    assert w + [] == w;
    assert TrimStart(w) == w;
    assert w[..|w|] == w;
    assert w[|w|..] == [];
  }

  /** A word followed by a space splits off first. */
  lemma SplitWordThen(w: string, rest: string)
    requires IsWord(w)
    ensures Split(w + " " + rest) == [w] + Split(rest)
  {
    var s := w + " " + rest;
    assert s == w + (" " + rest);
    assert s[0] == w[0];
    assert TrimStart(s) == s;
    WordLengthOfWord(w, " " + rest);
    assert s[..|w|] == w;
    assert s[|w|..] == [' '] + rest;
    SplitSkipsSpace(' ', rest);
  }

  /** The step of `SplitJoinWords`: the first word splits off, the rest as before. */
  lemma SplitJoinStep(words: seq<string>)
    requires |words| >= 2 && IsWord(words[0])
    requires Split(JoinWords(words[1..])) == words[1..]
    ensures Split(JoinWords(words)) == words
  {
    var rest := JoinWords(words[1..]);
    assert JoinWords(words) == words[0] + " " + rest;
    SplitWordThen(words[0], rest);
    assert words == [words[0]] + words[1..];
  }

  /** Splitting words joined by single spaces gives the words back. */
  lemma {:induction false} SplitJoinWords(words: seq<string>)
    requires forall i :: 0 <= i < |words| ==> IsWord(words[i])
    ensures Split(JoinWords(words)) == words
    decreases |words|
  {
    if |words| == 0 {
      assert TrimStart("") == "";
    } else if |words| == 1 {
      SplitOneWord(words[0]);
    } else {
      SplitJoinWords(words[1..]);
      SplitJoinStep(words);
    }
  }

  // ---------------------------------------------------------------------------
  // splitlines

  predicate NoLineBreak(line: string) {
    forall i :: 0 <= i < |line| ==> !IsLineBreak(line[i])
  }

  function LineLength(s: string): (n: nat)
    ensures n <= |s|
    ensures forall i :: 0 <= i < n ==> !IsLineBreak(s[i])
    ensures n == |s| || IsLineBreak(s[n])
  {
    if |s| == 0 || IsLineBreak(s[0]) then 0 else 1 + LineLength(s[1..])
  }

  /**
   * `s.splitlines()`: the lines of `s` without their terminators. "\r\n" is one
   * terminator, and a terminator at the very end does not start an empty line.
   */
  function SplitLines(s: string): (r: seq<string>)
    ensures forall i :: 0 <= i < |r| ==> NoLineBreak(r[i])
    decreases |s|
  {
    if |s| == 0 then []
    else
      var n := LineLength(s);
      if n == |s| then [s]
      else
        var next := if s[n] == '\r' && n + 1 < |s| && s[n + 1] == '\n' then n + 2 else n + 1;
        [s[..n]] + SplitLines(s[next..])
  }

  /** Text made of the given lines, each terminated by "\n". */
  function Terminated(lines: seq<string>): string {
    if |lines| == 0 then "" else lines[0] + "\n" + Terminated(lines[1..])
  }

  lemma {:induction false} LineLengthOfLine(line: string, rest: string)
    requires NoLineBreak(line)
    requires rest == [] || IsLineBreak(rest[0])
    ensures LineLength(line + rest) == |line|
    decreases |line|
  {
    if |line| > 0 {
      assert (line + rest)[1..] == line[1..] + rest;
      LineLengthOfLine(line[1..], rest);
    } else {
      assert line + rest == rest;
    }
  }

  /** A line ended by "\n" splits off first. */
  lemma SplitLineThen(l: string, rest: string)
    requires NoLineBreak(l)
    ensures SplitLines(l + "\n" + rest) == [l] + SplitLines(rest)
  {
    var s := l + "\n" + rest;
    assert s == l + ("\n" + rest);
    LineLengthOfLine(l, "\n" + rest);
    assert s[|l|] == '\n';
    assert s[..|l|] == l;
    assert s[|l| + 1..] == rest;
  }

  /** Splitting newline-terminated lines gives the lines back. */
  lemma {:induction false} SplitTerminatedLines(lines: seq<string>)
    requires forall i :: 0 <= i < |lines| ==> NoLineBreak(lines[i])
    ensures SplitLines(Terminated(lines)) == lines
    decreases |lines|
  {
    if |lines| > 0 {
      SplitLineThen(lines[0], Terminated(lines[1..]));
      SplitTerminatedLines(lines[1..]);
      assert lines == [lines[0]] + lines[1..];
    }
  }


  // ---------------------------------------------------------------------------
  // ordering

  /** Python's `a <= b` on `str`: lexicographic order of code points. */
  predicate StrLe(a: string, b: string) {
    |a| == 0 || (|b| > 0 && (a[0] < b[0] || (a[0] == b[0] && StrLe(a[1..], b[1..]))))
  }

  lemma {:induction false} StrLeReflexive(a: string)
    ensures StrLe(a, a)
  {
    if |a| > 0 {
      StrLeReflexive(a[1..]);
    }
  }

  lemma {:induction false} StrLeAntisymmetric(a: string, b: string)
    requires StrLe(a, b) && StrLe(b, a)
    ensures a == b
  {
    if |a| > 0 && |b| > 0 {
      StrLeAntisymmetric(a[1..], b[1..]);
      assert a == [a[0]] + a[1..];
      assert b == [b[0]] + b[1..];
    }
  }

  lemma {:induction false} StrLeTransitive(a: string, b: string, c: string)
    requires StrLe(a, b) && StrLe(b, c)
    ensures StrLe(a, c)
  {
    if |a| > 0 && |b| > 0 && |c| > 0 && a[0] == b[0] == c[0] {
      StrLeTransitive(a[1..], b[1..], c[1..]);
    }
  }

  lemma {:induction false} StrLeTotal(a: string, b: string)
    ensures StrLe(a, b) || StrLe(b, a)
  {
    if |a| > 0 && |b| > 0 && a[0] == b[0] {
      StrLeTotal(a[1..], b[1..]);
    }
  }

  // ---------------------------------------------------------------------------
  // substrings

  /** `pat` occurs in `text` starting at index `i`. */
  predicate OccursAt(text: string, pat: string, i: int) {
    0 <= i <= |text| - |pat| && text[i..i + |pat|] == pat
  }

  /** Python's `pat in text` on `str`. */
  predicate Contains(text: string, pat: string)
    decreases |text|
  {
    pat <= text || (|text| > 0 && Contains(text[1..], pat))
  }

  /** `Contains` holds exactly when `pat` occurs at some position of `text`. */
  lemma {:induction false} ContainsIff(text: string, pat: string)
    ensures Contains(text, pat) <==> exists i :: OccursAt(text, pat, i)
    decreases |text|
  {
    if pat <= text {
      assert OccursAt(text, pat, 0);
    } else if |text| > 0 {
      ContainsIff(text[1..], pat);
      if Contains(text[1..], pat) {
        var i :| OccursAt(text[1..], pat, i);
        assert text[i + 1..i + 1 + |pat|] == text[1..][i..i + |pat|];
        assert OccursAt(text, pat, i + 1);
      }
      if exists i :: OccursAt(text, pat, i) {
        var i :| OccursAt(text, pat, i);
        assert i > 0;
        assert text[1..][i - 1..i - 1 + |pat|] == text[i..i + |pat|];
        assert OccursAt(text[1..], pat, i - 1);
      }
    }
  }

  // ---------------------------------------------------------------------------
  // replace

  /** `s.replace(' ', '&nbsp;')`. */
  function ReplaceSpaces(s: string): (r: string)
    ensures ' ' !in r
    ensures ' ' !in s ==> r == s
  {
    if |s| == 0 then ""
    else (if s[0] == ' ' then "&nbsp;" else [s[0]]) + ReplaceSpaces(s[1..])
  }

  /** `r.replace('&nbsp;', ' ')`, the inverse of `ReplaceSpaces` on text without '&'. */
  function RestoreSpaces(r: string): string
    decreases |r|
  {
    if "&nbsp;" <= r then " " + RestoreSpaces(r[6..])
    else if |r| == 0 then ""
    else [r[0]] + RestoreSpaces(r[1..])
  }

  lemma {:induction false} RestoreReplacedSpaces(s: string)
    requires '&' !in s
    ensures RestoreSpaces(ReplaceSpaces(s)) == s
  {
    if |s| > 0 {
      var r := ReplaceSpaces(s);
      RestoreReplacedSpaces(s[1..]);
      if s[0] == ' ' {
        assert r == "&nbsp;" + ReplaceSpaces(s[1..]);
        assert r[6..] == ReplaceSpaces(s[1..]);
      } else {
        assert r == [s[0]] + ReplaceSpaces(s[1..]);
        assert r[1..] == ReplaceSpaces(s[1..]);
        assert !("&nbsp;" <= r) by { assert r[0] != '&'; }
      }
      assert s == [s[0]] + s[1..];
    }
  }

  // ---------------------------------------------------------------------------
  // decimal

  function DigitChar(d: nat): char
    requires d < 10
  {
    ('0' as int + d) as char
  }

  predicate IsDigit(c: char) {
    '0' as int <= c as int <= '9' as int
  }

  /** `str(n)` for a non-negative `int`. */
  function NatToDecimal(n: nat): (r: string)
    ensures |r| >= 1 && forall i :: 0 <= i < |r| ==> IsDigit(r[i])
  {
    if n < 10 then [DigitChar(n)] else NatToDecimal(n / 10) + [DigitChar(n % 10)]
  }

  /** `str(i)` for any `int`. */
  function IntToDecimal(i: int): string {
    if i < 0 then "-" + NatToDecimal(-i) else NatToDecimal(i)
  }

  /** `int(s)` for a string of decimal digits. */
  function DecimalValue(s: string): nat
    requires forall i :: 0 <= i < |s| ==> IsDigit(s[i])
  {
    if |s| == 0 then 0 else 10 * DecimalValue(s[..|s| - 1]) + DigitValue(s[|s| - 1])
  }

  function DigitValue(c: char): nat
    requires IsDigit(c)
  {
    c as int - '0' as int
  }

  lemma {:induction false} DecimalRoundTrip(n: nat)
    ensures DecimalValue(NatToDecimal(n)) == n
  {
    if n >= 10 {
      var s := NatToDecimal(n);
      assert s[..|s| - 1] == NatToDecimal(n / 10);
      DecimalRoundTrip(n / 10);
    }
  }

  lemma SignOfDecimal(i: int)
    ensures |IntToDecimal(i)| > 0
    ensures (IntToDecimal(i)[0] == '-') == (i < 0)
  {
    if i >= 0 {
      assert IsDigit(NatToDecimal(i)[0]);
    }
  }

  /** Distinct integers print differently. */
  lemma IntToDecimalInjective(a: int, b: int)
    requires IntToDecimal(a) == IntToDecimal(b)
    ensures a == b
  {
    var s := IntToDecimal(a);
    SignOfDecimal(a);
    SignOfDecimal(b);
    if a < 0 {
      assert b < 0;
      var na, nb := NatToDecimal(-a), NatToDecimal(-b);
      assert ("-" + na)[1..] == na;
      assert ("-" + nb)[1..] == nb;
      DecimalRoundTrip(-a);
      DecimalRoundTrip(-b);
    } else {
      assert b >= 0;
      DecimalRoundTrip(a);
      DecimalRoundTrip(b);
    }
  }
}
