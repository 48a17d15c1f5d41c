/**
  The stage-2 commitments document (markdown_io.py): splitting a text at its H1 headings, unwrapping a
  fenced block, and the round trip of the two YAML texts through the serializer. YAML itself is not
  part of this model: the statements are about the text handed to the YAML loader.
*/
module Stage2 {
  import opened Basics
  import opened Text
  import opened Stage3

  datatype BlockError = NoFence | MalformedFence | Unterminated | MissingSection

  // ----- H1 sections

  /** The splitter's variables: finished sections, the open section's title and lines, and the fence flag. */
  datatype Split = Split(sections: map<string, string>, title: Option<string>, body: seq<string>, inFence: bool)

  predicate IsHeading(line: string) {
    StartsWith(line, "# ") && |line| >= 3
  }

  function TitleOf(line: string): string
    requires IsHeading(line)
  {
    Strip(line[2..])
  }

  /** Close the open section. */
  function Flush(st: Split): map<string, string> {
    if st.title.None? then st.sections else st.sections[st.title.value := Strip(Join(st.body))]
  }

  function AddLine(st: Split, line: string): Split {
    if st.title.None? then st else st.(body := st.body + [line])
  }

  function Step(st: Split, line: string): Split {
    if StartsWith(line, FENCE) then AddLine(st, line).(inFence := !st.inFence)
    else if !st.inFence && IsHeading(line) then Split(Flush(st), Some(TitleOf(line)), [], false)
    else AddLine(st, line)
  }

  function Steps(st: Split, lines: seq<string>): Split {
    if lines == [] then st else Step(Steps(st, lines[..|lines| - 1]), lines[|lines| - 1])
  }

  const START := Split(map[], None, [], false)

  function Sections(text: string): map<string, string> {
    Flush(Steps(START, SplitLines(text)))
  }

  method SplitH1Sections(text: string) returns (sections: map<string, string>)
    ensures sections == Sections(text)
  {
    hide StartsWith, IsHeading, SplitLines, Join, Strip;
    var lines := SplitLines(text);
    sections := map[];
    var title: Option<string>, body: seq<string>, inFence := None, [], false;
    for i := 0 to |lines|
      invariant Steps(START, lines[..i]) == Split(sections, title, body, inFence)
    {
      StepsNext(START, lines, i);
      var line := lines[i];
      if StartsWith(line, FENCE) {
        inFence := !inFence;
        if title.Some? {
          body := body + [line];
        }
      } else if !inFence && IsHeading(line) {
        if title.Some? {
          sections := sections[title.value := Strip(Join(body))];
        }
        title, body := Some(TitleOf(line)), [];
      } else if title.Some? {
        body := body + [line];
      }
    }
    assert lines[..|lines|] == lines;
    if title.Some? {
      sections := sections[title.value := Strip(Join(body))];
    }
  }

  lemma StepsNext(st: Split, lines: seq<string>, i: nat)
    requires i < |lines|
    ensures Steps(st, lines[..i + 1]) == Step(Steps(st, lines[..i]), lines[i])
  {
    assert lines[..i + 1][..i] == lines[..i];
  }

  lemma {:induction false} StepsConcat(st: Split, a: seq<string>, b: seq<string>)
    ensures Steps(st, a + b) == Steps(Steps(st, a), b)
    decreases |b|
  {
    if b == [] {
      assert a + b == a;
    } else {
      assert (a + b)[..|a + b| - 1] == a + b[..|b| - 1];
      StepsConcat(st, a, b[..|b| - 1]);
    }
  }

  predicate OddFences(lines: seq<string>) {
    lines != [] && (StartsWith(lines[|lines| - 1], FENCE) != OddFences(lines[..|lines| - 1]))
  }

  /** Of lines in a fence: whatever looks like a heading among them is still inside when it comes. */
  predicate Contained(lines: seq<string>) {
    forall i :: 0 <= i < |lines| && IsHeading(lines[i]) ==> !OddFences(lines[..i])
  }

  /** Inside a fence lines are data, as long as nothing like a heading stands where they have closed the fence. */
  lemma {:induction false} FencedLinesAreData(st: Split, lines: seq<string>)
    requires st.inFence && st.title.Some? && Contained(lines)
    ensures Steps(st, lines) == st.(body := st.body + lines, inFence := !OddFences(lines))
  {
    hide IsHeading, StartsWith;
    if lines == [] {
      assert st.body + lines == st.body;
    } else {
      var n := |lines| - 1;
      assert forall i :: 0 <= i < n ==> lines[..n][..i] == lines[..i] && lines[..n][i] == lines[i];
      FencedLinesAreData(st, lines[..n]);
      assert st.body + lines == st.body + lines[..n] + [lines[n]];
    }
  }

  // ----- fenced blocks

  function FirstClose(lines: seq<string>): (k: nat)
    ensures k <= |lines| && (k < |lines| ==> FenceCloses(lines[k]))
    ensures forall j :: 0 <= j < k ==> !FenceCloses(lines[j])
  {
    if lines == [] || FenceCloses(lines[0]) then 0 else 1 + FirstClose(lines[1..])
  }

  /** The text that `_load_yaml_block` passes to the YAML loader. */
  function BlockText(body: string): Result<string, BlockError> {
    var stripped := Strip(body);
    if !StartsWith(stripped, FENCE) then Err(NoFence)
    else
      var lines := SplitLines(stripped);
      if lines == [] || !FenceOpens(lines[0]) then Err(MalformedFence)
      else
        var k := FirstClose(lines[1..]);
        if k == |lines| - 1 then Err(Unterminated) else Ok(Join(lines[1..][..k]))
  }

  method LoadBlock(body: string) returns (r: Result<string, BlockError>)
    ensures r == BlockText(body)
  {
    hide StartsWith, FenceOpens, FenceCloses, SplitLines, Strip;
    var stripped := Strip(body);
    if !StartsWith(stripped, FENCE) {
      return Err(NoFence);
    }
    var lines := SplitLines(stripped);
    if lines == [] || !FenceOpens(lines[0]) {
      return Err(MalformedFence);
    }
    var rest := lines[1..];
    var bodyLines: seq<string> := [];
    var closed := false;
    for i := 0 to |rest|
      invariant bodyLines == rest[..i]
      invariant forall j :: 0 <= j < i ==> !FenceCloses(rest[j])
    {
      if FenceCloses(rest[i]) {
        closed := true;
        break;
      }
      bodyLines := bodyLines + [rest[i]];
    }
    if !closed {
      return Err(Unterminated);
    }
    r := Ok(Join(bodyLines));
  }

  /** Both block texts, or the first error: what `parse_stage2` reads before it looks at the YAML. */
  function ReadTexts(text: string): Result<(string, string), BlockError> {
    var sections := Sections(text);
    if "Falsification" !in sections || "ParamIntent" !in sections then Err(MissingSection)
    else
      match BlockText(sections["Falsification"])
      case Err(e) => Err(e)
      case Ok(falsification) =>
        match BlockText(sections["ParamIntent"])
        case Err(e) => Err(e)
        case Ok(paramIntent) => Ok((falsification, paramIntent))
  }

  // ----- the serializer

  function Wrapped(yaml: string): string {
    "```yaml\n" + yaml + "\n```"
  }

  function Section(title: string, yaml: string): string {
    "# " + title + "\n\n" + Wrapped(yaml) + "\n"
  }

  function SerializeTexts(falsification: string, paramIntent: string): string {
    Section("Falsification", falsification) + "\n" + Section("ParamIntent", paramIntent)
  }

  // ----- the round trip

  function YamlLines(yaml: string): seq<string> {
    SplitLines(yaml + "\n")
  }

  lemma YamlLinesOf(yaml: string)
    requires NewlinesOnly(yaml)
    ensures YamlLines(yaml) != [] && Unlines(YamlLines(yaml)) == yaml + "\n" && Join(YamlLines(yaml)) == yaml
    ensures forall l :: l in YamlLines(yaml) ==> NoBreak(l)
  {
    hide SplitLines, Unlines, Join;
    EndsWithNewline(yaml + "\n");
    LinesOf(yaml + "\n");
    JoinUnlines(YamlLines(yaml));
    var joined := Join(YamlLines(yaml));
    assert joined == (joined + "\n")[..|joined|];
    assert yaml == (yaml + "\n")[..|yaml|];
  }

  lemma MarkerFacts()
    ensures FenceOpens("```yaml") && !FenceCloses("```yaml") && FenceCloses(FENCE)
    ensures NoBreak("```yaml") && NoBreak(FENCE)
    ensures !IsSpace('`') && IsSpace('\n')
  {}

  /** Unwrapping a wrapped text gives it back exactly when none of its lines is a bare closing fence. */
  lemma BlockTextExactly(yaml: string)
    requires NewlinesOnly(yaml)
    ensures BlockText(Wrapped(yaml)) == Ok(yaml) <==> forall l :: l in YamlLines(yaml) ==> !FenceCloses(l)
  {
    hide SplitLines, Unlines, Strip, FenceOpens, FenceCloses, NewlinesOnly, NoBreak, IsSpace, YamlLines, Join;
    MarkerFacts();
    YamlLinesOf(yaml);
    WrappedLines(yaml);
    var inner := YamlLines(yaml);
    var lines := ["```yaml"] + inner + [FENCE];
    assert lines[1..] == inner + [FENCE];
    var k := FirstClose(inner + [FENCE]);
    assert (inner + [FENCE])[|inner|] == FENCE;
    assert lines[1..][..k] == inner[..k];
    if forall l :: l in inner ==> !FenceCloses(l) {
      assert k == |inner|;
      assert inner[..k] == inner;
    } else {
      var l :| l in inner && FenceCloses(l);
      var m :| 0 <= m < |inner| && inner[m] == l;
      assert (inner + [FENCE])[m] == l;
      ShorterPrefix(inner, k);
    }
  }

  lemma ShorterPrefix(lines: seq<string>, k: nat)
    requires k < |lines| && FenceCloses(lines[k])
    ensures Join(lines[..k]) != Join(lines)
  {
    assert lines == lines[..k] + [lines[k]] + lines[k + 1..];
    UnlinesConcat(lines[..k] + [lines[k]], lines[k + 1..]);
    UnlinesConcat(lines[..k], [lines[k]]);
    UnlinesOne(lines[k]);
    JoinUnlines(lines);
    if k > 0 {
      JoinUnlines(lines[..k]);
    }
  }

  lemma WrappedLines(yaml: string)
    requires NewlinesOnly(yaml)
    ensures Strip(Wrapped(yaml)) == Wrapped(yaml) && StartsWith(Wrapped(yaml), FENCE)
    ensures SplitLines(Wrapped(yaml)) == ["```yaml"] + YamlLines(yaml) + [FENCE]
  {
    hide SplitLines, Unlines, Strip, IsSpace, NoBreak, YamlLines;
    MarkerFacts();
    YamlLinesOf(yaml);
    var w := Wrapped(yaml);
    assert "" + w + "" == w;
    StripStop("", w, "");
    assert w[..3] == FENCE;
    var lines := ["```yaml"] + YamlLines(yaml);
    UnlinesCons("```yaml", YamlLines(yaml));
    assert w == Unlines(lines) + FENCE;
    SplitUnlines(lines, FENCE);
    OneLine(FENCE);
  }

  lemma OneLine(line: string)
    requires line != "" && NoBreak(line)
    ensures SplitLines(line) == [line]
  {}

  /** The section that the lines of one wrapped text open: its body is the wrapped text. */
  lemma SectionBody(yaml: string, blank: seq<string>)
    requires NewlinesOnly(yaml) && (blank == [] || blank == [""])
    ensures Strip(Join(["", "```yaml"] + YamlLines(yaml) + [FENCE] + blank)) == Wrapped(yaml)
  {
    hide SplitLines, Unlines, Strip, IsSpace, NoBreak, YamlLines, Join, NewlinesOnly;
    MarkerFacts();
    YamlLinesOf(yaml);
    var inner := YamlLines(yaml);
    var lines := ["", "```yaml"] + inner + [FENCE] + blank;
    JoinUnlines(lines);
    SectionUnlines(inner, blank);
    var tail := if blank == [] then "" else "\n";
    var core := "\n" + Wrapped(yaml) + tail;
    assert Unlines(lines) == core + "\n";
    assert Join(lines) == core by {
      assert Join(lines) == (Join(lines) + "\n")[..|Join(lines)|];
      assert core == (core + "\n")[..|core|];
    }
    StripStop("\n", Wrapped(yaml), tail);
  }

  lemma SectionUnlines(inner: seq<string>, blank: seq<string>)
    requires blank == [] || blank == [""]
    ensures Unlines(["", "```yaml"] + inner + [FENCE] + blank) ==
            "\n```yaml\n" + Unlines(inner) + "```\n" + (if blank == [] then "" else "\n")
  {
    var head := ["", "```yaml"];
    UnlinesConcat(head + inner + [FENCE], blank);
    UnlinesConcat(head + inner, [FENCE]);
    UnlinesConcat(head, inner);
    UnlinesOne(FENCE);
    UnlinesOne("");
    UnlinesOne("```yaml");
    UnlinesCons("", ["```yaml"]);
    assert head == [""] + ["```yaml"];
  }

  /** One section: its heading, and the lines of its wrapped text. */
  function SectionLines(title: string, yaml: string): seq<string> {
    ["# " + title, "", "```yaml"] + YamlLines(yaml) + [FENCE]
  }

  predicate PlainTitle(title: string) {
    title != "" && (forall c :: c in title ==> !IsSpace(c) && !IsBreak(c))
  }

  lemma HeadingOf(title: string)
    requires PlainTitle(title)
    ensures IsHeading("# " + title) && TitleOf("# " + title) == title && !StartsWith("# " + title, FENCE)
    ensures NoBreak("# " + title) && !IsHeading("") && !StartsWith("", FENCE) && StartsWith("```yaml", FENCE)
  {
    var line := "# " + title;
    assert line[2..] == title && line[..2] == "# " && title[0] in title && title[|title| - 1] in title;
    assert LStrip(title) == title && RStrip(title) == title;
    assert line[0] == '#' && FENCE[0] == '`';
    assert |line| >= 3 ==> line[..3][0] == '#';
  }

  /** Walking over one section outside a fence: the previous section is closed, and the whole block becomes the
      body of the new one, whatever headings its text contains inside the fence. */
  lemma SectionSteps(st: Split, title: string, yaml: string)
    requires PlainTitle(title) && NewlinesOnly(yaml) && Contained(YamlLines(yaml)) && !st.inFence
    ensures Steps(st, SectionLines(title, yaml)) ==
            Split(Flush(st), Some(title), ["", "```yaml"] + YamlLines(yaml) + [FENCE], OddFences(YamlLines(yaml)))
  {
    hide Flush, TitleOf, IsHeading, StartsWith, NewlinesOnly, YamlLines, Contained, OddFences;
    HeadingOf(title);
    var inner := YamlLines(yaml);
    var open := Split(Flush(st), Some(title), ["", "```yaml"], true);
    ThreeSteps(st, "# " + title, "", "```yaml");
    assert [] + [""] + ["```yaml"] == ["", "```yaml"];
    FencedLinesAreData(open, inner);
    StepsConcat(st, ["# " + title, "", "```yaml"], inner);
    StepsConcat(st, ["# " + title, "", "```yaml"] + inner, [FENCE]);
    OneStep(Steps(open, inner), FENCE);
    FenceStarts();
  }

  lemma FenceStarts()
    ensures StartsWith(FENCE, FENCE)
  {}

  lemma OneStep(st: Split, line: string)
    ensures Steps(st, [line]) == Step(st, line)
  {}

  lemma ThreeSteps(st: Split, a: string, b: string, c: string)
    ensures Steps(st, [a, b, c]) == Step(Step(Step(st, a), b), c)
  {
    OneStep(st, a);
    assert [a, b, c][..2] == [a, b] && [a, b][..1] == [a];
  }

  lemma SerializedText(falsification: string, paramIntent: string)
    requires NewlinesOnly(falsification) && NewlinesOnly(paramIntent)
    ensures SplitLines(SerializeTexts(falsification, paramIntent)) ==
            SectionLines("Falsification", falsification) + [""] + SectionLines("ParamIntent", paramIntent)
  {
    hide SplitLines, Unlines, NoBreak, NewlinesOnly, YamlLines, SectionLines, PlainTitle, Section;
    TitlesPlain();
    SectionText("Falsification", falsification);
    SectionText("ParamIntent", paramIntent);
    var a, b := SectionLines("Falsification", falsification), SectionLines("ParamIntent", paramIntent);
    UnlinesBlank(a, b);
    EmptyLinePlain();
    SplitUnlinesExactly(a + [""] + b);
  }

  lemma TitlesPlain()
    ensures PlainTitle("Falsification") && PlainTitle("ParamIntent")
  {}

  lemma SectionText(title: string, yaml: string)
    requires NewlinesOnly(yaml) && PlainTitle(title)
    ensures Unlines(SectionLines(title, yaml)) == Section(title, yaml)
    ensures forall l :: l in SectionLines(title, yaml) ==> NoBreak(l)
  {
    hide SplitLines, NoBreak, NewlinesOnly, YamlLines, PlainTitle;
    YamlLinesOf(yaml);
    MarkerFacts();
    EmptyLinePlain();
    HeadingOf(title);
    var rest := ["", "```yaml"] + YamlLines(yaml) + [FENCE];
    assert SectionLines(title, yaml) == ["# " + title] + rest;
    UnlinesCons("# " + title, rest);
    assert rest + [] == rest;
    SectionUnlines(YamlLines(yaml), []);
  }

  /** The two texts leave the document's structure alone. */
  predicate KeepStructure(falsification: string, paramIntent: string) {
    && Contained(YamlLines(falsification)) && !OddFences(YamlLines(falsification))
    && Contained(YamlLines(paramIntent))
  }

  lemma BothSections(falsification: string, paramIntent: string)
    requires NewlinesOnly(falsification) && NewlinesOnly(paramIntent) && KeepStructure(falsification, paramIntent)
    ensures Sections(SerializeTexts(falsification, paramIntent)) ==
            map["Falsification" := Wrapped(falsification), "ParamIntent" := Wrapped(paramIntent)]
  {
    hide SplitLines, NewlinesOnly, YamlLines, Join, Strip, Steps, Contained, OddFences, SerializeTexts, SectionLines;
    SerializedText(falsification, paramIntent);
    TitlesPlain();
    var first := Split(map[], Some("Falsification"), ["", "```yaml"] + YamlLines(falsification) + [FENCE], false);
    SectionSteps(START, "Falsification", falsification);
    BlankStep(first);
    SectionSteps(AddLine(first, ""), "ParamIntent", paramIntent);
    StepsConcat(START, SectionLines("Falsification", falsification), [""]);
    StepsConcat(START, SectionLines("Falsification", falsification) + [""], SectionLines("ParamIntent", paramIntent));
    SectionBody(falsification, [""]);
    SectionBody(paramIntent, []);
    var last := ["", "```yaml"] + YamlLines(paramIntent) + [FENCE];
    assert last + [] == last;
  }

  predicate Unclosed(yaml: string) {
    forall l :: l in YamlLines(yaml) ==> !FenceCloses(l)
  }

  /** Texts that leave the structure alone come back verbatim exactly when neither has a bare closing fence. */
  lemma StructuredTexts(falsification: string, paramIntent: string)
    requires NewlinesOnly(falsification) && NewlinesOnly(paramIntent) && KeepStructure(falsification, paramIntent)
    ensures ReadTexts(SerializeTexts(falsification, paramIntent)) == Ok((falsification, paramIntent)) <==>
            Unclosed(falsification) && Unclosed(paramIntent)
  {
    hide NewlinesOnly, YamlLines, BlockText, KeepStructure, SerializeTexts, Sections, Wrapped;
    BothSections(falsification, paramIntent);
    BlockTextExactly(falsification);
    BlockTextExactly(paramIntent);
  }

  lemma BlankStep(st: Split)
    requires !st.inFence
    ensures Steps(st, [""]) == AddLine(st, "")
  {}
}
