/** Reading one real array out of a Gaussian formatted checkpoint file
    (`_array_from_fchk`, optrotvib/engine/g09_engine.py).

    The text is split on newlines.  A header line is the array's name, a
    run of whitespace, `R`, a run of whitespace, `N=`, a run of whitespace
    and the element count `n`, nothing after it.  The last header of the
    name wins; the ⌈n/5⌉ lines after it are joined, split into words and
    each word read with `float`.  No header at all gives `None`.  `float`
    of one word is the parameter `pf` (`None` when Python raises).
 */
module G09Fchk {

  import opened Results
  import opened Strs

  // ---------------------------------------------------------------------
  // str.split('\n') and '\n'.join

  /** `s.split('\n')`: the pieces between newlines, at least one. */
  function SplitLines(s: string): (r: seq<string>)
    ensures |r| >= 1
    ensures forall k :: 0 <= k < |r| ==> '\n' !in r[k]
    decreases |s|
  {
    if |s| == 0 then [""]
    else
      var rest := SplitLines(s[1..]);
      if s[0] == '\n' then [""] + rest
      else [[s[0]] + rest[0]] + rest[1..]
  }

  predicate NoNewline(ls: seq<string>) {
    forall k :: 0 <= k < |ls| ==> '\n' !in ls[k]
  }

  /** A piece without a newline stays glued to the first line after it. */
  lemma {:induction false} SplitLinesPrefix(a: string, b: string)
    requires '\n' !in a
    ensures SplitLines(a + b) == [a + SplitLines(b)[0]] + SplitLines(b)[1..]
    decreases |a|
  {
    if |a| > 0 {
      var s := a + b;
      assert a[0] in a && s[0] == a[0];
      assert s[1..] == a[1..] + b;
      assert forall c :: c in a[1..] ==> c in a;
      SplitLinesPrefix(a[1..], b);
      var rest := SplitLines(s[1..]);
      assert SplitLines(s) == [[s[0]] + rest[0]] + rest[1..];
      assert rest[0] == a[1..] + SplitLines(b)[0];
      assert rest[1..] == SplitLines(b)[1..];
      assert [a[0]] + (a[1..] + SplitLines(b)[0]) == a + SplitLines(b)[0];
    } else {
      assert a + b == b && a + SplitLines(b)[0] == SplitLines(b)[0];
      assert [SplitLines(b)[0]] + SplitLines(b)[1..] == SplitLines(b);
    }
  }

  /** Splitting newline-joined lines gives the lines back. */
  lemma {:induction false} SplitJoin(ls: seq<string>)
    requires |ls| >= 1 && NoNewline(ls)
    ensures SplitLines(Join(ls, "\n")) == ls
    decreases |ls|
  {
    if |ls| == 1 {
      SplitLinesPrefix(ls[0], "");
      assert ls[0] + "" == ls[0];
    } else {
      var b := Join(ls[1..], "\n");
      SplitJoin(ls[1..]);
      SplitLinesPrefix(ls[0], "\n" + b);
      assert ("\n" + b)[1..] == b;
      assert ls[0] + ("\n" + b) == ls[0] + "\n" + b;
      assert ls[0] + "" == ls[0];
      assert [ls[0]] + ls[1..] == ls;
    }
  }

  /** Joining the pieces with newlines gives the text back. */
  lemma {:induction false} JoinSplit(s: string)
    ensures Join(SplitLines(s), "\n") == s
    decreases |s|
  {
    if |s| > 0 {
      var rest := SplitLines(s[1..]);
      JoinSplit(s[1..]);
      if s[0] == '\n' {
        assert ([""] + rest)[1..] == rest;
        assert [s[0]] == "\n";
      } else {
        var r := [[s[0]] + rest[0]] + rest[1..];
        if |rest| == 1 {
          assert r == [[s[0]] + rest[0]];
        } else {
          assert r[1..] == rest[1..];
          assert Join(rest, "\n") == rest[0] + "\n" + Join(rest[1..], "\n");
        }
        assert s == [s[0]] + s[1..];
      }
    }
  }

  // ---------------------------------------------------------------------
  // Header lines

  /** What follows `lit` at the start of the text, if it starts so. */
  function Token(s: Option<string>, lit: string): (r: Option<string>)
    ensures r.Some? ==> s.Some? && s.value == lit + r.value
  {
    if s.Some? && StartsWith(s.value, lit) then
      assert s.value == lit + s.value[|lit|..];
      Some(s.value[|lit|..])
    else None
  }

  /** What follows a run of at least one whitespace character (`\s+`). */
  function Spaces(s: Option<string>): (r: Option<string>)
    ensures r.Some? ==> s.Some? && |r.value| < |s.value| && s.value[0] in WhiteSpace
    ensures r.Some? && |r.value| > 0 ==> r.value[0] !in WhiteSpace
  {
    if s.None? then None
    else
      var t := TrimLeft(s.value, WhiteSpace);
      if |t| == |s.value| then None else Some(t)
  }

  /** The value of what is left when it is one or more digits (`\d+\Z`). */
  function Count(s: Option<string>): (r: Option<nat>)
    ensures r.Some? ==> s.Some? && |s.value| > 0 && AllDigits(s.value) && r.value == DigitsValue(s.value)
  {
    if s.Some? && |s.value| > 0 && AllDigits(s.value) then Some(DigitsValue(s.value)) else None
  }

  /** The element count a header line announces for `name`, or `None` when
      the line is not a header of that name: the name, whitespace, `R`,
      whitespace, `N=`, whitespace and digits up to the end of the line.
      The names looked up hold no regular-expression metacharacter, so the
      name matches literally. */
  function HeaderCount(line: string, name: string): (r: Option<nat>)
    ensures r.Some? ==> StartsWith(line, name)
  {
    Count(Field(Field(Field(Some(line), name), "R"), "N="))
  }

  /** `lit` followed by whitespace, and what comes after. */
  function Field(s: Option<string>, lit: string): Option<string> {
    Spaces(Token(s, lit))
  }

  /** Whitespace other than a newline, at least one character. */
  predicate Pad(p: string) {
    |p| > 0 && forall i :: 0 <= i < |p| ==> p[i] in WhiteSpace && p[i] != '\n'
  }

  lemma TokenOf(lit: string, x: string)
    ensures Token(Some(lit + x), lit) == Some(x)
  {
    assert (lit + x)[..|lit|] == lit && (lit + x)[|lit|..] == x;
  }

  /** A run of whitespace is skipped up to the first other character. */
  lemma SpacesOf(p: string, x: string)
    requires Pad(p) && |x| > 0 && !IsSpace(x[0])
    ensures Spaces(Some(p + x)) == Some(x)
  {
    WhiteSpaceIsSpace(x[0]);
    TrimLeftPrefix(p, x, WhiteSpace);
  }

  /** A header line as Gaussian writes one: the spacing is free. */
  function HeaderLine(name: string, p1: string, p2: string, p3: string, n: nat): string {
    name + (p1 + ("R" + (p2 + ("N=" + (p3 + NatDigits(n))))))
  }

  /** A header line announces the count it was written with. */
  lemma HeaderCountOfLine(name: string, p1: string, p2: string, p3: string, n: nat)
    requires Pad(p1) && Pad(p2) && Pad(p3)
    ensures HeaderCount(HeaderLine(name, p1, p2, p3, n), name) == Some(n)
  {
    var ds := NatDigits(n);
    var y := "N=" + (p3 + ds);
    var x := "R" + (p2 + y);
    FieldOf(name, p1, x);
    FieldOf("R", p2, y);
    assert IsDigit(ds[0]);
    FieldOf("N=", p3, ds);
  }

  lemma FieldOf(lit: string, p: string, x: string)
    requires Pad(p) && |x| > 0 && !IsSpace(x[0])
    ensures Field(Some(lit + (p + x)), lit) == Some(x)
  {
    TokenOf(lit, p + x);
    SpacesOf(p, x);
  }

  // ---------------------------------------------------------------------
  // The last header

  /** The index and count of the last line `hdr` reads as a header: the
      loop over the lines overwrites what it found at every header, so a
      later header shadows every earlier one. */
  function FindLast(lines: seq<string>, hdr: string -> Option<nat>): (r: Option<(nat, nat)>)
    ensures r.None? <==> forall j :: 0 <= j < |lines| ==> hdr(lines[j]).None?
    ensures r.Some? ==> && r.value.0 < |lines|
                        && hdr(lines[r.value.0]) == Some(r.value.1)
                        && forall j :: r.value.0 < j < |lines| ==> hdr(lines[j]).None?
    decreases |lines|
  {
    if |lines| == 0 then None
    else
      var last := lines[|lines| - 1];
      match hdr(last)
      case Some(n) => Some((|lines| - 1, n))
      case None =>
        var r := FindLast(lines[..|lines| - 1], hdr);
        assert forall j :: 0 <= j < |lines| - 1 ==> lines[..|lines| - 1][j] == lines[j];
        r
  }

  function HeaderOf(name: string): string -> Option<nat> {
    (l: string) => HeaderCount(l, name)
  }

  /** A header with no header after it is the one found. */
  lemma FindLastAt(lines: seq<string>, hdr: string -> Option<nat>, i: nat, n: nat)
    requires i < |lines| && hdr(lines[i]) == Some(n)
    requires forall j :: i < j < |lines| ==> hdr(lines[j]).None?
    ensures FindLast(lines, hdr) == Some((i, n))
  {
  }

  // ---------------------------------------------------------------------
  // The array

  /** `n // 5 + bool(n % 5)`: Gaussian writes five reals per line. */
  function ReadCount(n: nat): (r: nat)
    ensures 5 * r >= n && 5 * r < n + 5
  {
    n / 5 + (if n % 5 != 0 then 1 else 0)
  }

  /** `float(w)`, a ValueError when `pf` cannot read `w`. */
  function ParseFloat(w: string, pf: string -> Option<real>): (r: Result<real>)
    ensures r.Ok? <==> pf(w).Some?
    ensures r.Ok? ==> r.value == pf(w).value
    ensures r.Err? ==> r.error.ValueError?
  {
    match pf(w)
    case None => Err(ValueError("could not convert string to float: '" + w + "'"))
    case Some(x) => Ok(x)
  }

  /** `fchk_lines[start:start + nline]`, where Python's slice stops at the
      end of the list. */
  function DataSlice(lines: seq<string>, start: nat, nline: nat): (r: seq<string>)
    requires start <= |lines|
    ensures |r| == if start + nline <= |lines| then nline else |lines| - start
    ensures forall k :: 0 <= k < |r| ==> r[k] == lines[start + k]
  {
    lines[start..if start + nline <= |lines| then start + nline else |lines|]
  }

  /** `[float(x) for x in " ".join(lines).split()]`: every word of every
      line read as a real, in order. */
  function ParseWords(lines: seq<string>, pf: string -> Option<real>): (r: Result<seq<real>>)
    ensures var ws := WordsOfLines(lines);
            && (r.Ok? <==> forall k :: 0 <= k < |ws| ==> pf(ws[k]).Some?)
            && (r.Ok? ==> |r.value| == |ws| && forall k :: 0 <= k < |ws| ==> pf(ws[k]) == Some(r.value[k]))
    ensures r.Err? ==> r.error.ValueError?
  {
    WordsOfJoin(lines);
    Collect(Words(Join(lines, " ")), (w: string) => ParseFloat(w, pf))
  }

  /** The lines holding an array: the ⌈n/5⌉ lines after the last header
      `hdr` finds, fewer when the text ends first; `None` without a header. */
  function Section(lines: seq<string>, hdr: string -> Option<nat>): (r: Option<seq<string>>)
    ensures var h := FindLast(lines, hdr);
            && (r.None? <==> h.None?)
            && (r.Some? ==> && |r.value| <= ReadCount(h.value.1)
                            && h.value.0 + 1 + |r.value| <= |lines|
                            && (|r.value| < ReadCount(h.value.1) ==> h.value.0 + 1 + |r.value| == |lines|)
                            && forall k :: 0 <= k < |r.value| ==> r.value[k] == lines[h.value.0 + 1 + k])
  {
    var h := FindLast(lines, hdr);
    if h.None? then None else Some(DataSlice(lines, h.value.0 + 1, ReadCount(h.value.1)))
  }

  /** The lines of the text holding the array `name`. */
  function ArraySection(text: string, name: string): Option<seq<string>> {
    Section(SplitLines(text), HeaderOf(name))
  }

  /** `_array_from_fchk(fchk_text, array_name)`: `None` without a header,
      otherwise every word of the array's lines read as a real. */
  function ArrayFromFchk(text: string, name: string, pf: string -> Option<real>): (r: Result<Option<seq<real>>>)
    ensures r == Ok(None) <==> ArraySection(text, name).None?
    ensures r.Err? ==> r.error.ValueError?
    ensures r.Ok? && r.value.Some? ==>
              var ws := WordsOfLines(ArraySection(text, name).value);
              && |r.value.value| == |ws|
              && forall k :: 0 <= k < |ws| ==> pf(ws[k]) == Some(r.value.value[k])
  {
    var sec := ArraySection(text, name);
    if sec.None? then Ok(None)
    else
      var data := ParseWords(sec.value, pf);
      if data.Err? then Err(data.error) else Ok(Some(data.value))
  }

  // ---------------------------------------------------------------------
  // Writing an array the way Gaussian does

  /** The printed values, in order. */
  function Shown(xs: seq<real>, show: real -> string): (r: seq<string>)
    ensures |r| == |xs| && forall k :: 0 <= k < |xs| ==> r[k] == show(xs[k])
  {
    seq(|xs|, k requires 0 <= k < |xs| => show(xs[k]))
  }

  /** The data lines of an array: five values to a line, the last line
      holding what is left. */
  function DataLines(xs: seq<real>, show: real -> string): (r: seq<string>)
    decreases |xs|
  {
    if |xs| == 0 then []
    else if |xs| <= 5 then [Join(Shown(xs, show), " ")]
    else [Join(Shown(xs[..5], show), " ")] + DataLines(xs[5..], show)
  }

  /** A printed value is one word that reads back as the value. */
  ghost predicate ReadsBack(show: real -> string, pf: string -> Option<real>) {
    forall x :: IsWord(show(x)) && '\n' !in show(x) && pf(show(x)) == Some(x)
  }

  /** There are exactly as many data lines as the reader takes, and their
      words are the printed values. */
  lemma {:induction false} DataLinesRead(xs: seq<real>, show: real -> string)
    requires forall x :: IsWord(show(x)) && '\n' !in show(x)
    ensures |DataLines(xs, show)| == ReadCount(|xs|)
    ensures NoNewline(DataLines(xs, show))
    ensures WordsOfLines(DataLines(xs, show)) == Shown(xs, show)
    decreases |xs|
  {
    if |xs| == 0 {
    } else if |xs| <= 5 {
      ChunkRead(xs, show);
      assert WordsOfLines(DataLines(xs, show)) == Words(Join(Shown(xs, show), " ")) + [];
    } else {
      ChunkRead(xs[..5], show);
      DataLinesRead(xs[5..], show);
      var ls := DataLines(xs, show);
      assert ls[1..] == DataLines(xs[5..], show);
      assert Shown(xs, show) == Shown(xs[..5], show) + Shown(xs[5..], show);
    }
  }

  /** One data line: no newline, and its words are the printed values. */
  lemma ChunkRead(xs: seq<real>, show: real -> string)
    requires forall x :: IsWord(show(x)) && '\n' !in show(x)
    ensures '\n' !in Join(Shown(xs, show), " ")
    ensures Words(Join(Shown(xs, show), " ")) == Shown(xs, show)
  {
    var ws := Shown(xs, show);
    forall k | 0 <= k < |ws| ensures IsWord(ws[k]) && '\n' !in ws[k] {
      var x := xs[k];
      assert ws[k] == show(x) && IsWord(show(x)) && '\n' !in show(x);
    }
    WordsJoinRoundTrip(ws);
    JoinNoNewline(ws);
  }

  lemma {:induction false} JoinNoNewline(ws: seq<string>)
    requires NoNewline(ws)
    ensures '\n' !in Join(ws, " ")
    decreases |ws|
  {
    if |ws| > 1 {
      JoinNoNewline(ws[1..]);
    }
  }

  /** The words of the printed values read back as the values. */
  lemma ParseShown(xs: seq<real>, show: real -> string, pf: string -> Option<real>)
    requires ReadsBack(show, pf)
    ensures Collect(Shown(xs, show), (w: string) => ParseFloat(w, pf)) == Ok(xs)
  {
    var r := Collect(Shown(xs, show), (w: string) => ParseFloat(w, pf));
    var ws := Shown(xs, show);
    forall k | 0 <= k < |ws| ensures ParseFloat(ws[k], pf) == Ok(xs[k]) {
      var x := xs[k];
      assert ws[k] == show(x) && pf(show(x)) == Some(x);
    }
    assert r.Ok?;
    assert r.value == xs;
  }

  /** An array written into a file between other lines is read back, as
      long as no header of the same name follows it. */
  lemma ArrayRoundTrip(pre: seq<string>, name: string, p1: string, p2: string, p3: string,
                       xs: seq<real>, post: seq<string>,
                       show: real -> string, pf: string -> Option<real>)
    requires Pad(p1) && Pad(p2) && Pad(p3) && '\n' !in name
    requires NoNewline(pre) && NoNewline(post)
    requires ReadsBack(show, pf)
    requires var after := DataLines(xs, show) + post;
             forall j :: 0 <= j < |after| ==> HeaderCount(after[j], name).None?
    ensures var lines := pre + [HeaderLine(name, p1, p2, p3, |xs|)] + DataLines(xs, show) + post;
            ArrayFromFchk(Join(lines, "\n"), name, pf) == Ok(Some(xs))
  {
    var hdr := HeaderLine(name, p1, p2, p3, |xs|);
    var data := DataLines(xs, show);
    var lines := pre + [hdr] + data + post;
    DataLinesRead(xs, show);
    HeaderNoNewline(name, p1, p2, p3, |xs|);
    LinesNoNewline(pre, hdr, data, post);
    SplitJoin(lines);
    HeaderCountOfLine(name, p1, p2, p3, |xs|);
    SectionAt(pre, hdr, data, post, HeaderOf(name), |xs|);
    ParseShown(xs, show, pf);
    WordsOfJoin(data);
  }

  lemma LinesNoNewline(pre: seq<string>, hdr: string, data: seq<string>, post: seq<string>)
    requires NoNewline(pre) && '\n' !in hdr && NoNewline(data) && NoNewline(post)
    ensures NoNewline(pre + [hdr] + data + post)
  {
    var lines := pre + [hdr] + data + post;
    forall k | 0 <= k < |lines| ensures '\n' !in lines[k] {
      if k < |pre| {
        assert lines[k] == pre[k];
      } else if k == |pre| {
        assert lines[k] == hdr;
      } else if k < |pre| + 1 + |data| {
        assert lines[k] == data[k - |pre| - 1];
      } else {
        assert lines[k] == post[k - |pre| - 1 - |data|];
      }
    }
  }

  /** The section after a header with exactly as many lines as it
      announces, and no later header, is those lines. */
  lemma SectionAt(pre: seq<string>, h: string, data: seq<string>, post: seq<string>,
                  hdr: string -> Option<nat>, n: nat)
    requires hdr(h) == Some(n) && |data| == ReadCount(n)
    requires var after := data + post;
             forall j :: 0 <= j < |after| ==> hdr(after[j]).None?
    ensures Section(pre + [h] + data + post, hdr) == Some(data)
  {
    var lines := pre + [h] + data + post;
    var i := |pre|;
    assert lines[i] == h;
    forall j | i < j < |lines| ensures hdr(lines[j]).None? {
      assert lines[j] == (data + post)[j - i - 1];
    }
    FindLastAt(lines, hdr, i, n);
    assert lines[i + 1..i + 1 + |data|] == data;
  }

  lemma HeaderNoNewline(name: string, p1: string, p2: string, p3: string, n: nat)
    requires Pad(p1) && Pad(p2) && Pad(p3) && '\n' !in name
    ensures '\n' !in HeaderLine(name, p1, p2, p3, n)
  {
    var ds := NatDigits(n);
    assert forall k :: 0 <= k < |ds| ==> ds[k] != '\n';
    var line := HeaderLine(name, p1, p2, p3, n);
    assert line == name + p1 + ("R" + p2 + "N=" + p3) + ds;
    assert forall k :: 0 <= k < |p3| ==> p3[k] != '\n';
  }
}
