/** The handful of Python `str` operations the modelled code relies on:
    `split()` without arguments, `" ".join`, `strip()`, `strip(chars)`,
    `in` on strings, `int(...)` on decimal text and `%d` / `str` of an int.
    Only ASCII case mapping and the ASCII (plus C0 separator) whitespace set
    are modelled.
 */
module Strs {

  import opened Results

  /** Characters `str.isspace()` and the regex class `\s` accept (ASCII part). */
  predicate IsSpace(c: char) {
    c == ' ' || (9 <= c as int <= 13) || (28 <= c as int <= 31)
  }

  predicate IsDigit(c: char) {
    '0' <= c <= '9'
  }

  predicate IsLetter(c: char) {
    ('A' <= c <= 'Z') || ('a' <= c <= 'z')
  }

  predicate AllDigits(s: string) {
    forall i :: 0 <= i < |s| ==> IsDigit(s[i])
  }

  predicate NoSpace(s: string) {
    forall i :: 0 <= i < |s| ==> !IsSpace(s[i])
  }

  function UpperChar(c: char): char {
    if 'a' <= c <= 'z' then (c as int - 32) as char else c
  }

  function LowerChar(c: char): char {
    if 'A' <= c <= 'Z' then (c as int + 32) as char else c
  }

  /** `s.upper()` restricted to ASCII letters. */
  function Upper(s: string): (r: string)
    ensures |r| == |s|
    ensures forall i :: 0 <= i < |s| ==> r[i] == UpperChar(s[i])
  {
    seq(|s|, i requires 0 <= i < |s| => UpperChar(s[i]))
  }

  /** `s.lower()` restricted to ASCII letters. */
  function Lower(s: string): (r: string)
    ensures |r| == |s|
    ensures forall i :: 0 <= i < |s| ==> r[i] == LowerChar(s[i])
  {
    seq(|s|, i requires 0 <= i < |s| => LowerChar(s[i]))
  }

  // ---------------------------------------------------------------------
  // str.split() with no argument

  function Flush(cur: string): seq<string> {
    if cur == "" then [] else [cur]
  }

  /** Splitting of `s` when the word read so far is `cur`. */
  function Scan(s: string, cur: string): seq<string>
    decreases |s|
  {
    if |s| == 0 then Flush(cur)
    else if IsSpace(s[0]) then Flush(cur) + Scan(s[1..], "")
    else Scan(s[1..], cur + [s[0]])
  }

  /** `s.split()`: the maximal runs of non-whitespace characters, in order. */
  function Words(s: string): seq<string> {
    Scan(s, "")
  }

  predicate IsWord(w: string) {
    w != "" && NoSpace(w)
  }

  lemma {:induction false} ScanWords(s: string, cur: string)
    requires NoSpace(cur)
    ensures forall k :: 0 <= k < |Scan(s, cur)| ==> IsWord(Scan(s, cur)[k])
    decreases |s|
  {
    if |s| == 0 {
    } else if IsSpace(s[0]) {
      ScanWords(s[1..], "");
    } else {
      ScanWords(s[1..], cur + [s[0]]);
    }
  }

  /** Every piece `split()` returns is a non-empty run without whitespace. */
  lemma WordsAreWords(s: string)
    ensures forall k :: 0 <= k < |Words(s)| ==> IsWord(Words(s)[k])
  {
    ScanWords(s, "");
  }

  lemma {:induction false} ScanOfWord(w: string, cur: string)
    requires NoSpace(w)
    ensures Scan(w, cur) == Flush(cur + w)
    decreases |w|
  {
    if |w| > 0 {
      assert w == [w[0]] + w[1..];
      ScanOfWord(w[1..], cur + [w[0]]);
      assert cur + [w[0]] + w[1..] == cur + w;
    } else {
      assert cur + w == cur;
    }
  }

  /** A word splits into itself. */
  lemma WordsOfWord(w: string)
    requires IsWord(w)
    ensures Words(w) == [w]
  {
    ScanOfWord(w, "");
    assert "" + w == w;
  }

  /** A single separating space cuts the scan into two independent scans. */
  lemma {:induction false} ScanSpaceSplit(a: string, b: string, cur: string)
    ensures Scan(a + " " + b, cur) == Scan(a, cur) + Scan(b, "")
    decreases |a|
  {
    if |a| == 0 {
      assert a + " " + b == [' '] + b;
      assert (a + " " + b)[1..] == b;
    } else {
      assert (a + " " + b)[0] == a[0];
      assert (a + " " + b)[1..] == a[1..] + " " + b;
      if IsSpace(a[0]) {
        ScanSpaceSplit(a[1..], b, "");
      } else {
        ScanSpaceSplit(a[1..], b, cur + [a[0]]);
      }
    }
  }

  /** `sep.join(parts)`. */
  function Join(parts: seq<string>, sep: string): string
    decreases |parts|
  {
    if |parts| == 0 then ""
    else if |parts| == 1 then parts[0]
    else parts[0] + sep + Join(parts[1..], sep)
  }

  /** The words of several lines, line after line. */
  function WordsOfLines(lines: seq<string>): seq<string>
    decreases |lines|
  {
    if |lines| == 0 then [] else Words(lines[0]) + WordsOfLines(lines[1..])
  }

  /** `" ".join(lines).split()` is the concatenation of each line's words:
      joining with a space never glues two words together. */
  lemma {:induction false} WordsOfJoin(lines: seq<string>)
    ensures Words(Join(lines, " ")) == WordsOfLines(lines)
    decreases |lines|
  {
    if |lines| == 0 {
      assert Words("") == [];
    } else if |lines| == 1 {
      assert WordsOfLines(lines[1..]) == [];
      assert Words(lines[0]) + [] == Words(lines[0]);
    } else {
      ScanSpaceSplit(lines[0], Join(lines[1..], " "), "");
      WordsOfJoin(lines[1..]);
    }
  }

  /** Splitting a space-joined list of words gives the words back. */
  lemma {:induction false} WordsJoinRoundTrip(ws: seq<string>)
    requires forall k :: 0 <= k < |ws| ==> IsWord(ws[k])
    ensures Words(Join(ws, " ")) == ws
    decreases |ws|
  {
    WordsOfJoin(ws);
    WordsOfLinesOfWords(ws);
  }

  lemma {:induction false} WordsOfLinesOfWords(ws: seq<string>)
    requires forall k :: 0 <= k < |ws| ==> IsWord(ws[k])
    ensures WordsOfLines(ws) == ws
    decreases |ws|
  {
    if |ws| > 0 {
      WordsOfWord(ws[0]);
      WordsOfLinesOfWords(ws[1..]);
      assert [ws[0]] + ws[1..] == ws;
    }
  }

  /** The words of two runs of lines are the first run's then the second's. */
  lemma {:induction false} WordsOfLinesAppend(a: seq<string>, b: seq<string>)
    ensures WordsOfLines(a + b) == WordsOfLines(a) + WordsOfLines(b)
    decreases |a|
  {
    if |a| == 0 {
      assert a + b == b;
    } else {
      assert (a + b)[1..] == a[1..] + b;
      WordsOfLinesAppend(a[1..], b);
    }
  }

  // ---------------------------------------------------------------------
  // str.strip(chars) and str.strip()

  function TrimLeft(s: string, cs: set<char>): (r: string)
    ensures |r| <= |s| && r == s[|s| - |r|..]
    ensures forall i :: 0 <= i < |s| - |r| ==> s[i] in cs
    ensures |r| > 0 ==> r[0] !in cs
    decreases |s|
  {
    if |s| > 0 && s[0] in cs then TrimLeft(s[1..], cs) else s
  }

  function TrimRight(s: string, cs: set<char>): (r: string)
    ensures |r| <= |s| && r == s[..|r|]
    ensures forall i :: |r| <= i < |s| ==> s[i] in cs
    ensures |r| > 0 ==> r[|r| - 1] !in cs
    decreases |s|
  {
    if |s| > 0 && s[|s| - 1] in cs then TrimRight(s[..|s| - 1], cs) else s
  }

  /** `s.strip(chars)`: `s` with its longest prefix and suffix made only of
      characters from `cs` removed. */
  function StripChars(s: string, cs: set<char>): (r: string)
  {
    TrimRight(TrimLeft(s, cs), cs)
  }

  /** How many leading characters `TrimLeft` removes. */
  function LeadCount(s: string, cs: set<char>): nat {
    |s| - |TrimLeft(s, cs)|
  }

  /** What `StripChars` removes is made of `cs` characters only, what it keeps
      is the contiguous piece of `s` starting at `LeadCount`, and it neither
      starts nor ends with a `cs` character. */
  lemma StripCharsSpec(s: string, cs: set<char>)
    ensures var r := StripChars(s, cs); var a := LeadCount(s, cs);
      && (|r| > 0 ==> r[0] !in cs && r[|r| - 1] !in cs)
      && a + |r| <= |s| && r == s[a..a + |r|]
      && (forall i :: 0 <= i < a ==> s[i] in cs)
      && (forall i :: a + |r| <= i < |s| ==> s[i] in cs)
  {
    StripCharsEnds(s, cs);
    StripCharsPiece(s, cs);
  }

  lemma StripCharsEnds(s: string, cs: set<char>)
    ensures var r := StripChars(s, cs);
            |r| > 0 ==> r[0] !in cs && r[|r| - 1] !in cs
  {
    var l := TrimLeft(s, cs);
    var r := TrimRight(l, cs);
    if |r| > 0 {
      assert r[0] == l[0];
    }
  }

  lemma StripCharsPiece(s: string, cs: set<char>)
    ensures var r := StripChars(s, cs); var a := LeadCount(s, cs);
      && a + |r| <= |s| && r == s[a..a + |r|]
      && (forall i :: a + |r| <= i < |s| ==> s[i] in cs)
  {
    var l := TrimLeft(s, cs);
    var r := TrimRight(l, cs);
    var a := |s| - |l|;
    assert l == s[a..] && r == l[..|r|];
    forall i | 0 <= i < |r| ensures r[i] == s[a + i] {
      assert r[i] == l[i];
    }
    forall i | a + |r| <= i < |s| ensures s[i] in cs {
      assert s[i] == l[i - a];
    }
  }

  /** Stripping `cs` from a piece framed by `cs` characters only, whose own
      ends are not in `cs`, gives the piece back. */
  lemma StripCharsFramed(pre: string, core: string, post: string, cs: set<char>)
    requires forall i :: 0 <= i < |pre| ==> pre[i] in cs
    requires forall i :: 0 <= i < |post| ==> post[i] in cs
    requires |core| > 0 && core[0] !in cs && core[|core| - 1] !in cs
    ensures StripChars(pre + core + post, cs) == core
  {
    assert pre + core + post == pre + (core + post);
    TrimLeftPrefix(pre, core + post, cs);
    TrimRightSuffix(core, post, cs);
  }

  lemma {:induction false} TrimLeftPrefix(pre: string, x: string, cs: set<char>)
    requires forall i :: 0 <= i < |pre| ==> pre[i] in cs
    requires |x| > 0 && x[0] !in cs
    ensures TrimLeft(pre + x, cs) == x
    decreases |pre|
  {
    if |pre| == 0 {
      assert pre + x == x;
    } else {
      assert (pre + x)[0] == pre[0];
      assert (pre + x)[1..] == pre[1..] + x;
      TrimLeftPrefix(pre[1..], x, cs);
    }
  }

  lemma {:induction false} TrimRightSuffix(x: string, post: string, cs: set<char>)
    requires forall i :: 0 <= i < |post| ==> post[i] in cs
    requires |x| > 0 && x[|x| - 1] !in cs
    ensures TrimRight(x + post, cs) == x
    decreases |post|
  {
    if |post| == 0 {
      assert x + post == x;
    } else {
      var s := x + post;
      assert s[|s| - 1] == post[|post| - 1];
      assert s[..|s| - 1] == x + post[..|post| - 1];
      TrimRightSuffix(x, post[..|post| - 1], cs);
    }
  }

  const WhiteSpace: set<char> := set c: char | IsSpace(c)

  lemma WhiteSpaceIsSpace(c: char)
    ensures c in WhiteSpace <==> IsSpace(c)
  {
  }

  /** `s.strip()`. */
  function Strip(s: string): string {
    StripChars(s, WhiteSpace)
  }

  // ---------------------------------------------------------------------
  // Substrings, padding

  predicate StartsWith(s: string, p: string) {
    |p| <= |s| && s[..|p|] == p
  }

  predicate EndsWith(s: string, p: string) {
    |p| <= |s| && s[|s| - |p|..] == p
  }

  /** Python's `sub in s`. */
  predicate Contains(s: string, sub: string) {
    exists i | 0 <= i <= |s| - |sub| :: OccursAt(s, sub, i)
  }

  predicate OccursAt(s: string, sub: string, i: int) {
    0 <= i <= |s| - |sub| && s[i..i + |sub|] == sub
  }

  /** `"%-<w>s" % s`: left-justified, padded with spaces to width `w`. */
  function PadRight(s: string, w: nat): (r: string)
    ensures |r| == if |s| < w then w else |s|
    ensures r[..|s|] == s
    ensures forall i :: |s| <= i < |r| ==> r[i] == ' '
  {
    if |s| < w then s + seq(w - |s|, _ => ' ') else s
  }

  // ---------------------------------------------------------------------
  // Decimal integers

  function DigitValue(c: char): nat
    requires IsDigit(c)
  {
    c as int - '0' as int
  }

  /** The value of a string of decimal digits. */
  function DigitsValue(s: string): nat
    requires AllDigits(s)
    decreases |s|
  {
    if |s| == 0 then 0 else DigitsValue(s[..|s| - 1]) * 10 + DigitValue(s[|s| - 1])
  }

  function NatDigits(n: nat): (r: string)
    ensures |r| > 0 && AllDigits(r)
    ensures DigitsValue(r) == n
    decreases n
  {
    var d := ['0' + (n % 10) as char];
    if n < 10 then d
    else
      var r := NatDigits(n / 10) + d;
      assert r[..|r| - 1] == NatDigits(n / 10);
      r
  }

  /** `str(i)` / `"%d" % i` for an integer. */
  function IntToString(i: int): (r: string)
    ensures i >= 0 ==> AllDigits(r) && DigitsValue(r) == i
    ensures i < 0 ==> |r| >= 2 && r[0] == '-' && AllDigits(r[1..]) && DigitsValue(r[1..]) == -i
  {
    if i >= 0 then NatDigits(i) else "-" + NatDigits(-i)
  }

  /** A decimal literal as `int()` reads it: digits, where a single `_` may
      stand between two digits. */
  predicate DigitGroups(d: string) {
    && |d| > 0 && IsDigit(d[0]) && IsDigit(d[|d| - 1])
    && forall i :: 0 <= i < |d| ==> GroupChar(d, i)
  }

  /** Position i of a literal holds a digit, or a `_` between two digits. */
  predicate GroupChar(d: string, i: int)
    requires 0 <= i < |d|
  {
    IsDigit(d[i]) || (d[i] == '_' && 0 < i < |d| - 1 && IsDigit(d[i - 1]) && IsDigit(d[i + 1]))
  }

  /** The digits of a literal with its `_` separators dropped. */
  function Ungrouped(d: string): (r: string)
    ensures (forall i :: 0 <= i < |d| ==> IsDigit(d[i]) || d[i] == '_') ==> AllDigits(r)
    ensures AllDigits(d) ==> r == d
    ensures forall k :: 0 <= k < |r| ==> r[k] != '_'
  {
    if d == [] then []
    else (if d[0] == '_' then [] else [d[0]]) + Ungrouped(d[1..])
  }

  /** A well-grouped literal leaves only digits once its separators go. */
  lemma GroupedDigits(d: string)
    requires DigitGroups(d)
    ensures AllDigits(Ungrouped(d))
  {
    forall i | 0 <= i < |d|
      ensures IsDigit(d[i]) || d[i] == '_'
    {
      assert GroupChar(d, i);
    }
  }

  /** Plain digits are a literal with no separators. */
  lemma DigitsGrouped(d: string)
    requires |d| > 0 && AllDigits(d)
    ensures DigitGroups(d) && Ungrouped(d) == d
  {
  }

  /** `int(s)` for a decimal literal: surrounding whitespace, an optional sign
      and at least one digit, with single `_` between digits allowed.  `None`
      is Python's ValueError. */
  function ParseInt(s: string): (r: Option<int>)
    ensures var t := Strip(s);
            r.Some? <==> (|t| > 0 && (t[0] == '-' || t[0] == '+') && DigitGroups(t[1..]))
                         || DigitGroups(t)
  {
    var t := Strip(s);
    if |t| > 0 && (t[0] == '-' || t[0] == '+') then
      var d := t[1..];
      if DigitGroups(d) then
        GroupedDigits(d);
        var v := DigitsValue(Ungrouped(d)) as int;
        Some(if t[0] == '-' then -v else v)
      else None
    else if DigitGroups(t) then GroupedDigits(t); Some(DigitsValue(Ungrouped(t)))
    else None
  }

  lemma ParseIntOfIntToString(i: int)
    ensures ParseInt(IntToString(i)) == Some(i)
  {
    var s := IntToString(i);
    StripNoSpaceEnds(s);
    if i >= 0 {
      DigitsGrouped(s);
      assert !(s[0] == '-' || s[0] == '+');
      assert ParseInt(s) == Some(DigitsValue(s) as int);
    } else {
      var d := s[1..];
      DigitsGrouped(d);
      assert ParseInt(s) == Some(-(DigitsValue(d) as int));
    }
  }

  /** A separator is read as nothing: `int("1_0") == 10`. */
  lemma ParseIntSeparator()
    ensures ParseInt("1_0") == Some(10)
  {
    StripNoSpaceEnds("1_0");
    assert DigitGroups("1_0");
    assert Ungrouped("1_0") == "10" by {
      assert Ungrouped("0") == "0";
      assert Ungrouped("_0") == "0";
    }
    assert DigitsValue("10") == 10 by {
      assert "10"[..1] == "1";
    }
  }

  /** A doubled separator is a ValueError: `int("1__0")`. */
  lemma ParseIntDoubledSeparator()
    ensures ParseInt("1__0") == None
  {
    StripNoSpaceEnds("1__0");
    assert !GroupChar("1__0", 1) by { assert "1__0"[1] == '_' && "1__0"[2] == '_'; }
  }

  /** A trailing separator is a ValueError: `int("10_")`. */
  lemma ParseIntTrailingSeparator()
    ensures ParseInt("10_") == None
  {
    StripNoSpaceEnds("10_");
  }

  /** Stripping a string that begins and ends with a non-space is the identity. */
  lemma StripNoSpaceEnds(s: string)
    requires |s| > 0 && s[0] !in WhiteSpace && s[|s| - 1] !in WhiteSpace
    ensures Strip(s) == s
  {
  }
}
