/** Texts as their lines between newlines, for formats in which only `\n` ends a line. */
module Newlines {
  import opened Text

  predicate Line(s: string) {
    forall c :: c in s ==> c != '\n'
  }

  predicate AllLines(lines: seq<string>) {
    forall l :: l in lines ==> Line(l)
  }

  /** `s.split('\n')`: unlike `splitlines`, it knows one line break and keeps a last empty line. */
  function Lines(s: string): (r: seq<string>)
    ensures r != []
  {
    if s == "" then [""]
    else if s[0] == '\n' then [""] + Lines(s[1..])
    else var r := Lines(s[1..]); [[s[0]] + r[0]] + r[1..]
  }

  lemma {:induction false} LinesAreLines(s: string)
    ensures AllLines(Lines(s))
  {
    if s != "" {
      LinesAreLines(s[1..]);
      var r := Lines(s[1..]);
      assert r[0] in r && forall l :: l in r[1..] ==> l in r;
    }
  }

  lemma {:induction false} LinesOfLine(s: string)
    requires Line(s)
    ensures Lines(s) == [s]
  {
    if s != "" {
      assert s[0] in s && forall c :: c in s[1..] ==> c in s;
      LinesOfLine(s[1..]);
      assert s == [s[0]] + s[1..];
    }
  }

  lemma {:induction false} LinesConcat(a: string, b: string)
    ensures Lines(a + "\n" + b) == Lines(a) + Lines(b)
  {
    var s := a + "\n" + b;
    if a == "" {
      assert s[0] == '\n' && s[1..] == b;
    } else {
      LinesConcat(a[1..], b);
      assert s[0] == a[0] && s[1..] == a[1..] + "\n" + b;
    }
  }

  /** The lines of several texts after each other. */
  function LinesOfAll(texts: seq<string>): seq<string> {
    if texts == [] then [] else Lines(texts[0]) + LinesOfAll(texts[1..])
  }

  lemma {:induction false} LinesOfUnlines(texts: seq<string>, rest: string)
    ensures Lines(Unlines(texts) + rest) == LinesOfAll(texts) + Lines(rest)
  {
    hide Lines;
    if texts == [] {
      assert Unlines(texts) + rest == rest;
    } else {
      var tail := Unlines(texts[1..]) + rest;
      LinesOfUnlines(texts[1..], rest);
      LinesConcat(texts[0], tail);
      assert Unlines(texts) + rest == texts[0] + "\n" + tail;
    }
  }

  lemma {:induction false} LinesOfAllLines(lines: seq<string>)
    requires AllLines(lines)
    ensures LinesOfAll(lines) == lines
  {
    if lines != [] {
      LinesOfLine(lines[0]);
      LinesOfAllLines(lines[1..]);
      assert lines == [lines[0]] + lines[1..];
    }
  }

  lemma {:induction false} LinesOfJoin(lines: seq<string>)
    requires lines != [] && AllLines(lines)
    ensures Lines(Join(lines)) == lines
  {
    LinesOfLine(lines[0]);
    if |lines| == 1 {
      assert lines == [lines[0]];
    } else {
      LinesOfJoin(lines[1..]);
      LinesConcat(lines[0], Join(lines[1..]));
      assert lines == [lines[0]] + lines[1..];
    }
  }

  lemma {:induction false} JoinLines(s: string)
    ensures Join(Lines(s)) == s
  {
    if s != "" {
      hide Join;
      JoinLines(s[1..]);
      assert s == [s[0]] + s[1..];
      JoinFront(s[0], Lines(s[1..]));
    } else {
      JoinFront('x', [""]);
    }
  }

  lemma JoinFront(c: char, r: seq<string>)
    requires r != []
    ensures Join([""] + r) == "\n" + Join(r)
    ensures Join([[c] + r[0]] + r[1..]) == [c] + Join(r)
    ensures Join([""]) == ""
  {
    assert ([""] + r)[1..] == r;
    var q := [[c] + r[0]] + r[1..];
    assert q[1..] == r[1..];
    if |r| > 1 {
      assert [c] + r[0] + "\n" + Join(r[1..]) == [c] + (r[0] + "\n" + Join(r[1..]));
    }
  }

  lemma LinesDetermine(a: string, b: string)
    requires Lines(a) == Lines(b)
    ensures a == b
  {
    JoinLines(a);
    JoinLines(b);
  }

  lemma JoinStarts(lines: seq<string>, prefix: string)
    requires lines != [] && StartsWith(lines[0], prefix)
    ensures StartsWith(Join(lines), prefix)
  {}

  lemma {:induction false} FirstLineStarts(s: string, prefix: string)
    requires Line(prefix)
    ensures StartsWith(s, prefix) ==> StartsWith(Lines(s)[0], prefix)
  {
    if StartsWith(s, prefix) && prefix != "" {
      assert prefix[0] in prefix && forall c :: c in prefix[1..] ==> c in prefix;
      assert s[0] == s[..|prefix|][0] == prefix[0];
      assert s[1..][..|prefix| - 1] == s[..|prefix|][1..];
      FirstLineStarts(s[1..], prefix[1..]);
      var first := Lines(s[1..])[0];
      assert ([s[0]] + first)[..|prefix|] == [s[0]] + first[..|prefix| - 1];
      assert prefix == [prefix[0]] + prefix[1..];
    }
  }
}
