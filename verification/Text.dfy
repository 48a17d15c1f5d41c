/** The parts of Python's `str` that the markdown parsers use: whitespace, `strip`, `splitlines`, `join`. */
module Text {

  /** `str.isspace`, which is also what `strip` removes and `\s` matches. */
  predicate IsSpace(c: char) {
    || '\t' <= c <= '\r' || '\U{1c}' <= c <= ' ' || c == '\U{85}' || c == '\U{a0}' || c == '\U{1680}'
    || '\U{2000}' <= c <= '\U{200a}' || c == '\U{2028}' || c == '\U{2029}' || c == '\U{202f}'
    || c == '\U{205f}' || c == '\U{3000}'
  }

  /** The characters at which `splitlines` ends a line. */
  predicate IsBreak(c: char) {
    || '\n' <= c <= '\r' || '\U{1c}' <= c <= '\U{1e}' || c == '\U{85}' || c == '\U{2028}' || c == '\U{2029}'
  }

  function LStrip(s: string): string {
    if s != "" && IsSpace(s[0]) then LStrip(s[1..]) else s
  }

  function RStrip(s: string): string {
    if s != "" && IsSpace(s[|s| - 1]) then RStrip(s[..|s| - 1]) else s
  }

  function Strip(s: string): string {
    RStrip(LStrip(s))
  }

  predicate StartsWith(s: string, prefix: string) {
    |prefix| <= |s| && s[..|prefix|] == prefix
  }

  predicate EndsWith(s: string, suffix: string) {
    |suffix| <= |s| && s[|s| - |suffix|..] == suffix
  }

  /** The position of the first line break, or the length. */
  function LineEnd(s: string): (k: nat)
    ensures k <= |s| && (k < |s| ==> IsBreak(s[k]))
    ensures forall i :: 0 <= i < k ==> !IsBreak(s[i])
  {
    if s == "" || IsBreak(s[0]) then 0 else 1 + LineEnd(s[1..])
  }

  /** `"\r\n"` is one break. */
  function BreakLength(s: string, k: nat): nat
    requires k < |s|
  {
    if s[k] == '\r' && k + 1 < |s| && s[k + 1] == '\n' then 2 else 1
  }

  function SplitLines(s: string): seq<string>
    decreases |s|
  {
    if s == "" then []
    else
      var k := LineEnd(s);
      if k == |s| then [s] else [s[..k]] + SplitLines(s[k + BreakLength(s, k)..])
  }

  /** `"\n".join(lines)`. */
  function Join(lines: seq<string>): string {
    if lines == [] then ""
    else if |lines| == 1 then lines[0]
    else lines[0] + "\n" + Join(lines[1..])
  }

  /** Every line followed by a newline. */
  function Unlines(lines: seq<string>): string {
    if lines == [] then "" else lines[0] + "\n" + Unlines(lines[1..])
  }

  const DIGITS := "0123456789"

  /** A number in decimal. */
  function Digits(n: nat): string {
    if n < 10 then [DIGITS[n]] else Digits(n / 10) + [DIGITS[n % 10]]
  }

  predicate NoBreak(line: string) {
    forall c :: c in line ==> !IsBreak(c)
  }

  /** The only line breaks are newlines. */
  predicate NewlinesOnly(s: string) {
    forall c :: c in s ==> c == '\n' || !IsBreak(c)
  }

  // ----- what these are

  lemma SpacesExactly(c: char)
    ensures IsSpace(c) <==>
            c in {'\t', '\n', '\U{b}', '\U{c}', '\r', '\U{1c}', '\U{1d}', '\U{1e}', '\U{1f}', ' ', '\U{85}', '\U{a0}',
                  '\U{1680}', '\U{2000}', '\U{2001}', '\U{2002}', '\U{2003}', '\U{2004}', '\U{2005}', '\U{2006}',
                  '\U{2007}', '\U{2008}', '\U{2009}', '\U{200a}', '\U{2028}', '\U{2029}', '\U{202f}', '\U{205f}',
                  '\U{3000}'}
  {}

  /** Behind a line comes one of these, and a carriage return takes the newline behind it along. */
  predicate EndsLine(br: string, rest: string) {
    || br in ["\n", "\r\n", "\U{b}", "\U{c}", "\U{1c}", "\U{1d}", "\U{1e}", "\U{85}", "\U{2028}", "\U{2029}"]
    || (br == "\r" && (rest == "" || rest[0] != '\n'))
  }

  /** Splitting cuts at every line end; the text behind the last one is a line unless it is empty. */
  lemma SplitsAt(line: string, br: string, rest: string)
    requires NoBreak(line)
    ensures SplitLines(line) == if line == "" then [] else [line]
    ensures EndsLine(br, rest) ==> SplitLines(line + br + rest) == [line] + SplitLines(rest)
  {
    if EndsLine(br, rest) {
      BreakFirst(br, rest);
      var s := line + br + rest;
      assert forall i :: 0 <= i < |line| ==> s[i] == line[i] && line[i] in line;
      assert s[|line|] == br[0];
      assert LineEnd(s) == |line|;
      assert s[..|line|] == line && s[|line| + |br|..] == rest;
      assert |br| == 1 && |s| > |line| + 1 ==> s[|line| + 1] == rest[0];
      assert |br| == 2 ==> s[|line| + 1] == br[1];
    }
  }

  lemma BreakFirst(br: string, rest: string)
    requires EndsLine(br, rest)
    ensures 1 <= |br| <= 2 && IsBreak(br[0]) && (|br| == 2 <==> br == "\r\n")
    ensures br[0] == '\r' && |br| == 1 ==> rest == "" || rest[0] != '\n'
  {}

  // ----- facts

  lemma SplitCons(line: string, rest: string)
    requires NoBreak(line)
    ensures SplitLines(line + "\n" + rest) == [line] + SplitLines(rest)
  {
    var s := line + "\n" + rest;
    assert forall i :: 0 <= i < |line| ==> s[i] == line[i] && line[i] in line;
    assert s[|line|] == '\n';
    assert LineEnd(s) == |line|;
    assert s[..|line|] == line && s[|line| + 1..] == rest;
  }

  lemma UnlinesCons(line: string, lines: seq<string>)
    ensures Unlines([line] + lines) == line + "\n" + Unlines(lines)
  {}

  /** Splitting undoes writing line by line. */
  lemma {:induction false} SplitUnlines(lines: seq<string>, rest: string)
    requires forall l :: l in lines ==> NoBreak(l)
    ensures SplitLines(Unlines(lines) + rest) == lines + SplitLines(rest)
  {
    hide SplitLines, NoBreak;
    if lines == [] {
      assert Unlines(lines) + rest == rest;
    } else {
      var tail := Unlines(lines[1..]) + rest;
      SplitUnlines(lines[1..], rest);
      SplitCons(lines[0], tail);
      assert Unlines(lines) + rest == lines[0] + "\n" + tail;
      assert lines == [lines[0]] + lines[1..];
    }
  }

  lemma SplitUnlinesExactly(lines: seq<string>)
    requires forall l :: l in lines ==> NoBreak(l)
    ensures SplitLines(Unlines(lines)) == lines
  {
    SplitUnlines(lines, "");
    assert Unlines(lines) + "" == Unlines(lines);
  }

  lemma {:induction false} UnlinesConcat(a: seq<string>, b: seq<string>)
    ensures Unlines(a + b) == Unlines(a) + Unlines(b)
  {
    if a == [] {
      assert a + b == b;
    } else {
      assert (a + b)[1..] == a[1..] + b;
      UnlinesConcat(a[1..], b);
    }
  }

  lemma {:induction false} JoinUnlines(lines: seq<string>)
    requires lines != []
    ensures Unlines(lines) == Join(lines) + "\n"
  {
    if |lines| == 1 {
      assert Unlines(lines[1..]) == "";
      assert lines[0] + "\n" + "" == lines[0] + "\n";
    } else {
      JoinUnlines(lines[1..]);
      assert lines[0] + "\n" + (Join(lines[1..]) + "\n") == lines[0] + "\n" + Join(lines[1..]) + "\n";
    }
  }

  lemma EndsWithNewline(s: string)
    ensures EndsWith(s, "\n") <==> s != "" && s[|s| - 1] == '\n'
  {}

  lemma BreakIsNewline(s: string, k: nat)
    requires NewlinesOnly(s) && k == LineEnd(s) < |s|
    ensures s[k] == '\n'
  {}

  lemma TailEndsWithNewline(s: string, k: nat)
    requires EndsWith(s, "\n") && k < |s|
    ensures EndsWith(s[k..], "\n")
  {}

  lemma CutAt(s: string, k: nat)
    requires k < |s| && s[k] == '\n'
    ensures s == s[..k] + "\n" + s[k + 1..]
  {}

  lemma NoBreakBefore(s: string)
    ensures NoBreak(s[..LineEnd(s)])
  {}

  lemma {:induction false} SplitHasNoBreaks(s: string)
    ensures forall l :: l in SplitLines(s) ==> NoBreak(l)
    decreases |s|
  {
    hide NoBreak;
    if s != "" {
      var k := LineEnd(s);
      NoBreakBefore(s);
      if k < |s| {
        SplitHasNoBreaks(s[k + BreakLength(s, k)..]);
      } else {
        assert s[..k] == s;
      }
    }
  }

  lemma BreakFound(s: string, k: nat)
    requires k < |s| && s[k] == '\n'
    ensures LineEnd(s) <= k
  {}

  lemma PartsNewlinesOnly(s: string, k: nat)
    requires NewlinesOnly(s) && k <= |s|
    ensures NewlinesOnly(s[k..])
  {}

  lemma FirstLine(s: string)
    requires NewlinesOnly(s) && EndsWith(s, "\n")
    ensures var k := LineEnd(s);
            && k < |s| && s == s[..k] + "\n" + s[k + 1..] && NoBreak(s[..k])
            && NewlinesOnly(s[k + 1..]) && (s[k + 1..] == "" || EndsWith(s[k + 1..], "\n"))
  {
    hide *;
    EndsWithNewline(s);
    BreakFound(s, |s| - 1);
    var k := LineEnd(s);
    BreakIsNewline(s, k);
    NoBreakBefore(s);
    PartsNewlinesOnly(s, k + 1);
    CutAt(s, k);
    if k + 1 < |s| {
      TailEndsWithNewline(s, k + 1);
    }
  }

  /** A newline-only text that ends in a newline is written back from its lines. */
  lemma {:induction false} LinesOf(s: string)
    requires NewlinesOnly(s) && EndsWith(s, "\n")
    ensures SplitLines(s) != [] && Unlines(SplitLines(s)) == s
    ensures forall l :: l in SplitLines(s) ==> NoBreak(l)
    decreases |s|
  {
    hide SplitLines, NoBreak, NewlinesOnly, EndsWith, LineEnd;
    FirstLine(s);
    var line, rest := s[..LineEnd(s)], s[LineEnd(s) + 1..];
    SplitCons(line, rest);
    UnlinesCons(line, SplitLines(rest));
    if rest != "" {
      LinesOf(rest);
    } else {
      SplitNothing(rest);
    }
  }

  lemma SplitNothing(s: string)
    requires s == ""
    ensures SplitLines(s) == [] && Unlines(SplitLines(s)) == s
  {}

  lemma RStripStop(s: string, tail: string)
    requires s != "" && !IsSpace(s[|s| - 1])
    requires forall c :: c in tail ==> IsSpace(c)
    ensures RStrip(s + tail) == s
    decreases |tail|
  {
    if tail == "" {
      assert s + tail == s;
    } else {
      var shorter := tail[..|tail| - 1];
      assert (s + tail)[..|s + tail| - 1] == s + shorter;
      assert tail[|tail| - 1] in tail;
      RStripStop(s, shorter);
    }
  }

  lemma LStripStop(lead: string, s: string)
    requires s != "" && !IsSpace(s[0])
    requires forall c :: c in lead ==> IsSpace(c)
    ensures LStrip(lead + s) == s
    decreases |lead|
  {
    if lead == "" {
      assert lead + s == s;
    } else {
      assert (lead + s)[1..] == lead[1..] + s;
      assert lead[0] in lead;
      LStripStop(lead[1..], s);
    }
  }

  lemma StripStop(lead: string, s: string, tail: string)
    requires s != "" && !IsSpace(s[0]) && !IsSpace(s[|s| - 1])
    requires forall c :: c in lead ==> IsSpace(c)
    requires forall c :: c in tail ==> IsSpace(c)
    ensures Strip(lead + s + tail) == s
  {
    assert lead + s + tail == lead + (s + tail);
    LStripStop(lead, s + tail);
    RStripStop(s, tail);
  }
}
