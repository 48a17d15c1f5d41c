/**
  The hand-written TOML string writers (author.py), against a reader for the three string forms they use, written
  after the section "String" of TOML v1.0.0. The `\u` escapes and the single-quoted form, which the writers
  never produce, are not part of the reader.
*/
module Toml {
  import opened Basics
  import opened Text

  datatype ReadError = NotAString | Unclosed | BadEscape | ControlCharacter

  type Read = Result<(string, string), ReadError>

  const QUOTES := "\"\"\""
  const TICKS := "'''"
  const ESCAPED := "\\\"\\\"\\\""

  // ----- the writers

  /** `str.replace`: every leftmost occurrence, without overlap. */
  function Replace(s: string, old_: string, new_: string): string
    requires old_ != ""
    decreases |s|
  {
    if s == "" then ""
    else if StartsWith(s, old_) then new_ + Replace(s[|old_|..], old_, new_)
    else [s[0]] + Replace(s[1..], old_, new_)
  }

  predicate Contains(s: string, part: string) {
    StartsWith(s, part) || (s != "" && Contains(s[1..], part))
  }

  function Doubled(value: string): string {
    Replace(value, "\\", "\\\\")
  }

  function StrBody(value: string): string {
    Replace(Doubled(value), "\"", "\\\"")
  }

  function TomlStr(value: string): string {
    "\"" + StrBody(value) + "\""
  }

  function MultiBody(value: string): string {
    Replace(Doubled(value), QUOTES, ESCAPED)
  }

  function TomlMulti(value: string): string {
    if !Contains(value, "\n") then TomlStr(value) else QUOTES + "\n" + MultiBody(value) + QUOTES
  }

  function TomlLiteral(value: string): string {
    if Contains(value, TICKS) then TomlMulti(value) else TICKS + "\n" + value + TICKS
  }

  // ----- the reader: the string at the front of a text, and the text behind it

  /** A control character other than tab, which a basic string may not contain. */
  predicate IsControl(c: char) {
    (c < ' ' && c != '\t') || c == '\U{7f}'
  }

  lemma ControlsExactly(c: char)
    ensures IsControl(c) <==> c as int <= 8 || 10 <= c as int <= 31 || c as int == 127
  {}

  function Cons(c: char, r: Read): Read {
    match r
    case Ok(pair) => Ok(([c] + pair.0, pair.1))
    case Err(e) => Err(e)
  }

  /** The character that a backslash and `c` stand for. */
  function Escape(c: char): Option<char> {
    match c
    case 'b' => Some('\U{8}')
    case 't' => Some('\t')
    case 'n' => Some('\n')
    case 'f' => Some('\U{c}')
    case 'r' => Some('\r')
    case '"' => Some('"')
    case '\\' => Some('\\')
    case _ => None
  }

  function ReadBasic(s: string): Read {
    if s == "" then Err(Unclosed)
    else if s[0] == '"' then Ok(("", s[1..]))
    else if s[0] == '\\' then
      if |s| == 1 || Escape(s[1]).None? then Err(BadEscape) else Cons(Escape(s[1]).value, ReadBasic(s[2..]))
    else if IsControl(s[0]) then Err(ControlCharacter)
    else Cons(s[0], ReadBasic(s[1..]))
  }

  /** How many characters the newline at the front takes: none, `"\n"`, or `"\r\n"`. */
  function NewlineLength(s: string): (n: nat)
    ensures n <= |s|
  {
    if s != "" && s[0] == '\n' then 1 else if |s| >= 2 && s[0] == '\r' && s[1] == '\n' then 2 else 0
  }

  /** Only blanks stand before the end of the line: the backslash in front of `s` is a line-ending one. */
  predicate BlankLine(s: string) {
    NewlineLength(s) > 0 || (s != "" && (s[0] == ' ' || s[0] == '\t') && BlankLine(s[1..]))
  }

  /** The text from the first character that is not whitespace. */
  function SkipBlank(s: string): (r: string)
    ensures |r| <= |s|
    decreases |s|
  {
    if NewlineLength(s) > 0 then SkipBlank(s[NewlineLength(s)..])
    else if s != "" && (s[0] == ' ' || s[0] == '\t') then SkipBlank(s[1..])
    else s
  }

  /** A closing delimiter of three `mark`s, with up to two more of them in front that belong to the value. */
  function Close(s: string, mark: char): Read
    requires StartsWith(s, [mark, mark, mark])
  {
    if StartsWith(s, [mark, mark, mark, mark, mark]) then Ok(([mark, mark], s[5..]))
    else if StartsWith(s, [mark, mark, mark, mark]) then Ok(([mark], s[4..]))
    else Ok(("", s[3..]))
  }

  function ReadMultiBasic(s: string): Read
    decreases |s|
  {
    if s == "" then Err(Unclosed)
    else if StartsWith(s, ['"', '"', '"']) then Close(s, '"')
    else if s[0] == '\\' then
      if |s| > 1 && Escape(s[1]).Some? then Cons(Escape(s[1]).value, ReadMultiBasic(s[2..]))
      else if BlankLine(s[1..]) then ReadMultiBasic(SkipBlank(s[1..]))
      else Err(BadEscape)
    else if NewlineLength(s) > 0 then Cons('\n', ReadMultiBasic(s[NewlineLength(s)..]))
    else if IsControl(s[0]) then Err(ControlCharacter)
    else Cons(s[0], ReadMultiBasic(s[1..]))
  }

  function ReadMultiLiteral(s: string): Read
    decreases |s|
  {
    if s == "" then Err(Unclosed)
    else if StartsWith(s, ['\'', '\'', '\'']) then Close(s, '\'')
    else if NewlineLength(s) > 0 then Cons('\n', ReadMultiLiteral(s[NewlineLength(s)..]))
    else if IsControl(s[0]) then Err(ControlCharacter)
    else Cons(s[0], ReadMultiLiteral(s[1..]))
  }

  /** A newline right behind an opening delimiter is trimmed. */
  function ReadString(s: string): Read {
    if StartsWith(s, QUOTES) then ReadMultiBasic(s[3..][NewlineLength(s[3..])..])
    else if StartsWith(s, TICKS) then ReadMultiLiteral(s[3..][NewlineLength(s[3..])..])
    else if StartsWith(s, "\"") then ReadBasic(s[1..])
    else Err(NotAString)
  }

  // ----- the round trips

  predicate OneLine(value: string) {
    forall c :: c in value ==> !IsControl(c)
  }

  /** No control character other than newline and tab. */
  predicate PlainText(value: string) {
    forall c :: c in value ==> c == '\n' || !IsControl(c)
  }

  /** What follows the written string does not start with a quote. */
  predicate Ends(rest: string) {
    rest == "" || (rest[0] != '"' && rest[0] != '\'')
  }

  lemma DoubledSteps(value: string)
    requires value != ""
    ensures Doubled(value) == (if value[0] == '\\' then "\\\\" else [value[0]]) + Doubled(value[1..])
  {}

  lemma ReplaceOne(s: string, c: char, new_: string)
    requires s != ""
    ensures Replace(s, [c], new_) == (if s[0] == c then new_ else [s[0]]) + Replace(s[1..], [c], new_)
  {}

  lemma StrBodySteps(value: string)
    requires value != ""
    ensures StrBody(value) ==
            (if value[0] == '\\' || value[0] == '"' then ['\\', value[0]] else [value[0]]) + StrBody(value[1..])
  {
    hide Replace;
    DoubledSteps(value);
    var tail := Doubled(value[1..]);
    ReplaceOne(Doubled(value), '"', "\\\"");
    if value[0] == '\\' {
      ReplaceOne(['\\'] + tail, '"', "\\\"");
      assert Doubled(value)[1..] == ['\\'] + tail;
      assert (['\\'] + tail)[1..] == tail;
      assert ['\\'] + (['\\'] + StrBody(value[1..])) == ['\\', '\\'] + StrBody(value[1..]);
    } else {
      assert Doubled(value)[1..] == tail;
    }
  }

  /** The one-line form reads back exactly the values without control characters other than tab. */
  lemma {:induction false} StrBodyReads(value: string, rest: string)
    ensures ReadBasic(StrBody(value) + ("\"" + rest)) == Ok((value, rest)) <==> OneLine(value)
  {
    hide StrBody, Escape;
    var close := "\"" + rest;
    if value == "" {
      EmptyBodies();
      assert StrBody(value) + close == close;
    } else {
      StrBodySteps(value);
      StrBodyReads(value[1..], rest);
      var tail := StrBody(value[1..]) + close;
      QuoteEscapes();
      if value[0] == '\\' || value[0] == '"' {
        assert StrBody(value) + close == ['\\', value[0]] + tail;
        assert (['\\', value[0]] + tail)[2..] == tail;
      } else {
        assert StrBody(value) + close == [value[0]] + tail;
        assert ([value[0]] + tail)[1..] == tail;
      }
      ConsReads(value, ReadBasic(tail), rest);
      SplitPlain(value);
    }
  }

  lemma EmptyBodies()
    ensures StrBody("") == "" && MultiBody("") == ""
  {}

  lemma QuoteEscapes()
    ensures Escape('"') == Some('"') && Escape('\\') == Some('\\')
  {}

  lemma ConsReads(value: string, r: Read, rest: string)
    requires value != ""
    ensures Cons(value[0], r) == Ok((value, rest)) <==> r == Ok((value[1..], rest))
  {
    if r.Ok? {
      assert ([value[0]] + r.value.0)[1..] == r.value.0;
      assert value == [value[0]] + value[1..];
    }
  }

  lemma SplitPlain(value: string)
    requires value != ""
    ensures OneLine(value) <==> !IsControl(value[0]) && OneLine(value[1..])
    ensures PlainText(value) <==> (value[0] == '\n' || !IsControl(value[0])) && PlainText(value[1..])
  {}

  lemma StrReads(value: string, rest: string)
    requires Ends(rest)
    ensures ReadString(TomlStr(value) + rest) == Ok((value, rest)) <==> OneLine(value)
  {
    hide ReadBasic, Escape, StrBody;
    StrBodyReads(value, rest);
    var s := TomlStr(value) + rest;
    assert s == "\"" + (StrBody(value) + ("\"" + rest));
    assert s[1..] == StrBody(value) + ("\"" + rest);
    if value == "" {
      EmptyBodies();
      assert |s| >= 3 ==> s[2] != '"';
    } else {
      StrBodySteps(value);
      assert s[1] == StrBody(value)[0] != '"';
    }
    assert |s| >= 3 ==> s[..3][1] == s[1] && s[..3][2] == s[2];
    assert s[..1] == "\"" && s[0] == '"';
    assert |s| >= 3 ==> s[..3][0] == s[0];
  }

  /** One step of the multi-line escaping, at a place where no run of three quotes starts, and at one. */
  lemma MultiBodySteps(value: string)
    requires value != "" && !StartsWith(value, QUOTES)
    ensures MultiBody(value) ==
            (if value[0] == '\\' then ['\\', '\\'] else [value[0]]) + MultiBody(value[1..])
  {
    hide Replace;
    DoubledSteps(value);
    var tail := Doubled(value[1..]);
    DoubledRuns(value);
    ReplaceOther(Doubled(value), QUOTES, ESCAPED);
    if value[0] == '\\' {
      assert Doubled(value)[1..] == ['\\'] + tail;
      assert !StartsWith(['\\'] + tail, QUOTES);
      ReplaceOther(['\\'] + tail, QUOTES, ESCAPED);
      assert (['\\'] + tail)[1..] == tail;
      assert ['\\'] + (['\\'] + MultiBody(value[1..])) == ['\\', '\\'] + MultiBody(value[1..]);
    } else {
      assert Doubled(value)[1..] == tail;
    }
  }

  lemma ReplaceOther(s: string, old_: string, new_: string)
    requires s != "" && old_ != "" && !StartsWith(s, old_)
    ensures Replace(s, old_, new_) == [s[0]] + Replace(s[1..], old_, new_)
  {}

  lemma RunOf(s: string, mark: char)
    ensures StartsWith(s, [mark, mark, mark]) <==> |s| >= 3 && s[0] == mark && s[1] == mark && s[2] == mark
    ensures StartsWith(s, [mark, mark, mark, mark]) <==> |s| >= 4 && StartsWith(s, [mark, mark, mark]) && s[3] == mark
    ensures StartsWith(s, [mark, mark, mark, mark, mark]) <==>
            |s| >= 5 && StartsWith(s, [mark, mark, mark, mark]) && s[4] == mark
  {}

  /** Doubling backslashes neither makes nor breaks a run of three quotes. */
  lemma DoubledRuns(value: string)
    ensures StartsWith(Doubled(value), QUOTES) <==> StartsWith(value, QUOTES)
    ensures StartsWith(value, QUOTES) ==> Doubled(value)[3..] == Doubled(value[3..])
  {
    hide Replace, StartsWith;
    var d := Doubled(value);
    assert QUOTES == ['"', '"', '"'];
    RunOf(value, '"');
    RunOf(d, '"');
    DoubledStart(value);
    if value != "" && value[0] == '"' {
      assert d[1..] == Doubled(value[1..]);
      DoubledStart(value[1..]);
      if |value| >= 2 && value[1] == '"' {
        assert value[1..][1..] == value[2..];
        DoubledStart(value[2..]);
      }
    }
  }

  lemma DoubledStart(value: string)
    ensures value == "" ==> Doubled(value) == ""
    ensures value != "" ==> Doubled(value) != "" && Doubled(value)[0] == value[0]
    ensures value != "" && value[0] != '\\' ==> Doubled(value) == [value[0]] + Doubled(value[1..])
  {}

  lemma MultiBodyRun(value: string)
    requires StartsWith(value, QUOTES)
    ensures MultiBody(value) == ESCAPED + MultiBody(value[3..])
  {
    DoubledRuns(value);
  }

  /** Reading behind the opening delimiter: the three-quote form reads back exactly the plain texts. */
  lemma {:induction false} MultiBodyReads(value: string, rest: string)
    requires Ends(rest)
    ensures ReadMultiBasic(MultiBody(value) + (QUOTES + rest)) == Ok((value, rest)) <==> PlainText(value)
    decreases |value|
  {
    hide MultiBody, Escape, StartsWith, ReadMultiBasic;
    var close := QUOTES + rest;
    if value == "" {
      EmptyBodies();
      assert MultiBody(value) + close == close;
      CloseReads("", rest);
    } else if value == "\"" || value == "\"\"" {
      ShortRuns();
      CloseReads(value, rest);
    } else if StartsWith(value, QUOTES) {
      RunOf(value, '"');
      MultiBodyRun(value);
      MultiBodyReads(value[3..], rest);
      EscapedRunReads(value, MultiBody(value[3..]) + close, rest);
      assert MultiBody(value) + close == ESCAPED + (MultiBody(value[3..]) + close);
    } else {
      MultiBodyReads(value[1..], rest);
      OneMoreReads(value, rest);
    }
  }

  /** The closing delimiter takes up to two quotes of the value with it. */
  lemma CloseReads(value: string, rest: string)
    requires value == "" || value == "\"" || value == "\"\""
    requires Ends(rest)
    ensures ReadMultiBasic(value + (QUOTES + rest)) == Ok((value, rest)) && PlainText(value)
  {
    hide StartsWith;
    var s := value + (QUOTES + rest);
    RunOf(s, '"');
    assert s[|value| + 3..] == rest;
    assert rest == "" || s[|value| + 3] == rest[0];
  }

  lemma ShortRuns()
    ensures MultiBody("\"") == "\"" && MultiBody("\"\"") == "\"\""
  {}

  lemma EscapedRunReads(value: string, tail: string, rest: string)
    requires StartsWith(value, QUOTES)
    ensures ReadMultiBasic(ESCAPED + tail) == Ok((value, rest)) <==> ReadMultiBasic(tail) == Ok((value[3..], rest))
    ensures PlainText(value) <==> PlainText(value[3..])
  {
    hide StartsWith, Escape, ReadMultiBasic, PlainText;
    var one, two := "\\\"" + tail, "\\\"\\\"" + tail;
    RunOf(value, '"');
    EscapedReads('"', two);
    EscapedReads('"', one);
    EscapedReads('"', tail);
    assert ESCAPED + tail == ['\\', '"'] + two && two == ['\\', '"'] + one && one == ['\\', '"'] + tail;
    ConsReads(value, ReadMultiBasic(two), rest);
    ConsReads(value[1..], ReadMultiBasic(one), rest);
    assert value[1..][1..] == value[2..];
    ConsReads(value[2..], ReadMultiBasic(tail), rest);
    assert value[2..][1..] == value[3..];
    SplitPlain(value);
    SplitPlain(value[1..]);
    SplitPlain(value[2..]);
  }

  lemma EscapedReads(c: char, tail: string)
    requires c == '"' || c == '\\'
    ensures ReadMultiBasic(['\\', c] + tail) == Cons(c, ReadMultiBasic(tail))
  {
    hide StartsWith;
    RunOf(['\\', c] + tail, '"');
    assert (['\\', c] + tail)[2..] == tail;
  }

  lemma PlainReads(value: string, tail: string, rest: string)
    requires value != "" && value[0] != '\\'
    requires value[0] == '"' ==> !StartsWith([value[0]] + tail, QUOTES)
    ensures ReadMultiBasic([value[0]] + tail) == Ok((value, rest)) <==>
            (value[0] == '\n' || !IsControl(value[0])) && ReadMultiBasic(tail) == Ok((value[1..], rest))
  {
    hide StartsWith;
    var s := [value[0]] + tail;
    RunOf(s, '"');
    assert s[1..] == tail;
    ConsReads(value, ReadMultiBasic(tail), rest);
  }

  lemma OneMoreReads(value: string, rest: string)
    requires value != "" && value != "\"" && value != "\"\"" && !StartsWith(value, QUOTES)
    requires ReadMultiBasic(MultiBody(value[1..]) + (QUOTES + rest)) == Ok((value[1..], rest)) <==>
             PlainText(value[1..])
    ensures ReadMultiBasic(MultiBody(value) + (QUOTES + rest)) == Ok((value, rest)) <==> PlainText(value)
  {
    hide MultiBody, Escape, StartsWith, ReadMultiBasic, PlainText, IsControl;
    var tail := MultiBody(value[1..]) + (QUOTES + rest);
    var s := MultiBody(value) + (QUOTES + rest);
    MultiBodySteps(value);
    SplitPlain(value);
    if value[0] == '\\' {
      EscapedReads('\\', tail);
      assert s == ['\\', '\\'] + tail;
      ConsReads(value, ReadMultiBasic(tail), rest);
      BackslashPlain();
    } else {
      assert s == [value[0]] + tail;
      if value[0] == '"' {
        NoRunStarts(value, QUOTES + rest);
      }
      PlainReads(value, tail, rest);
    }
  }

  lemma BackslashPlain()
    ensures !IsControl('\\')
  {}

  /** One or two quotes followed by something else are not taken for a delimiter. */
  lemma NoRunStarts(value: string, close: string)
    requires value != "" && value != "\"" && value != "\"\"" && !StartsWith(value, QUOTES) && value[0] == '"'
    ensures !StartsWith(MultiBody(value) + close, QUOTES)
  {
    hide MultiBody, StartsWith;
    RunOf(value, '"');
    RunOf(value[1..], '"');
    RunOf(value[2..], '"');
    RunOf(MultiBody(value) + close, '"');
    MultiBodySteps(value);
    MultiBodySteps(value[1..]);
    if value[1] == '"' {
      assert value[1..][1..] == value[2..];
      assert |value| > 2;
      MultiBodySteps(value[2..]);
    }
  }

  lemma {:induction false} NoNewline(value: string)
    ensures Contains(value, "\n") <==> '\n' in value
  {
    if value != "" {
      NoNewline(value[1..]);
      assert value == [value[0]] + value[1..];
      assert value[..1] == [value[0]];
    }
  }

  /** `_toml_multi` reads back exactly the values whose only control characters are newlines and tabs. */
  lemma MultiReads(value: string, rest: string)
    requires Ends(rest)
    ensures ReadString(TomlMulti(value) + rest) == Ok((value, rest)) <==> PlainText(value)
  {
    hide ReadString, StartsWith, Contains, MultiBody, ReadMultiBasic, ReadMultiLiteral, ReadBasic, StrBody, TomlStr;
    hide IsControl;
    NoNewline(value);
    if Contains(value, "\n") {
      MultiBodyReads(value, rest);
      Opened(QUOTES, MultiBody(value) + (QUOTES + rest));
      assert TomlMulti(value) + rest == QUOTES + "\n" + (MultiBody(value) + (QUOTES + rest));
    } else {
      StrReads(value, rest);
    }
  }

  /** The opening delimiter and the newline behind it are taken off. */
  lemma Opened(mark: string, s: string)
    requires mark == QUOTES || mark == TICKS
    ensures ReadString(mark + "\n" + s) == if mark == QUOTES then ReadMultiBasic(s) else ReadMultiLiteral(s)
  {}

  /** The literal form holds any text without three ticks; ticks before the delimiter belong to the value. */
  lemma {:induction false} LiteralBodyReads(value: string, rest: string)
    requires Ends(rest) && !Contains(value, TICKS)
    ensures ReadMultiLiteral(value + (TICKS + rest)) == Ok((value, rest)) <==> PlainText(value)
  {
    hide StartsWith, ReadMultiLiteral;
    if value == "" || value == "'" || value == "''" {
      CloseLiteral(value, rest);
    } else {
      LiteralBodyReads(value[1..], rest);
      NoTicksStart(value, TICKS + rest);
      var tail := value[1..] + (TICKS + rest);
      assert value + (TICKS + rest) == [value[0]] + tail;
      LiteralStep(value, tail, rest);
      SplitPlain(value);
    }
  }

  lemma CloseLiteral(value: string, rest: string)
    requires value == "" || value == "'" || value == "''"
    requires Ends(rest)
    ensures ReadMultiLiteral(value + (TICKS + rest)) == Ok((value, rest)) && PlainText(value)
  {
    hide StartsWith;
    var s := value + (TICKS + rest);
    RunOf(s, '\'');
    assert s[|value| + 3..] == rest;
    assert rest == "" || s[|value| + 3] == rest[0];
  }

  lemma NoTicksStart(value: string, close: string)
    requires value != "" && value != "'" && value != "''" && !StartsWith(value, TICKS)
    ensures !StartsWith(value + close, TICKS)
  {
    hide StartsWith;
    RunOf(value, '\'');
    RunOf(value + close, '\'');
  }

  lemma LiteralStep(value: string, tail: string, rest: string)
    requires value != "" && !StartsWith([value[0]] + tail, TICKS)
    ensures ReadMultiLiteral([value[0]] + tail) == Ok((value, rest)) <==>
            (value[0] == '\n' || !IsControl(value[0])) && ReadMultiLiteral(tail) == Ok((value[1..], rest))
  {
    hide StartsWith;
    var s := [value[0]] + tail;
    RunOf(s, '\'');
    assert s[1..] == tail;
    ConsReads(value, ReadMultiLiteral(tail), rest);
  }

  /** `_toml_literal`, with its fallback when the text contains three ticks. */
  lemma LiteralReads(value: string, rest: string)
    requires Ends(rest)
    ensures ReadString(TomlLiteral(value) + rest) == Ok((value, rest)) <==> PlainText(value)
  {
    hide Contains, ReadMultiBasic, ReadMultiLiteral, ReadBasic, TomlMulti, IsControl;
    if Contains(value, TICKS) {
      MultiReads(value, rest);
    } else {
      LiteralBodyReads(value, rest);
      Opened(TICKS, value + (TICKS + rest));
      assert TomlLiteral(value) + rest == TICKS + "\n" + (value + (TICKS + rest));
    }
  }
}
