/**
  When the two texts of a stage-2 document come back from serialize-then-parse: an exact condition. What the parser
  returns for a title is the block under some heading of that title, and the document has not enough lines for the
  two blocks to lie anywhere but where the serializer put them.
*/
module Stage2RoundTrip {
  import opened Basics
  import opened Text
  import opened Stage2
  import opened Stage3

  // ----- where sections come from

  /** A line at which the splitter opens a section. */
  predicate Opens(t: seq<string>, h: int) {
    0 <= h < |t| && IsHeading(t[h]) && !OddFences(t[..h])
  }

  /** The lines `h + 1 .. e` are under the heading at `h`. */
  predicate Under(t: seq<string>, title: string, h: int, e: int) {
    && 0 <= h < e <= |t| && Opens(t, h) && TitleOf(t[h]) == title
    && forall k :: h < k < e ==> !Opens(t, k)
  }

  predicate IsBodyOf(t: seq<string>, title: string, value: string, h: int, e: int) {
    Under(t, title, h, e) && value == Strip(Join(t[h + 1..e]))
  }

  ghost predicate SectionsFrom(t: seq<string>, sections: map<string, string>) {
    forall title :: title in sections ==> exists h, e :: IsBodyOf(t, title, sections[title], h, e)
  }

  predicate IsOpenBody(t: seq<string>, title: string, body: seq<string>, h: int) {
    Under(t, title, h, |t|) && body == t[h + 1..]
  }

  ghost predicate OpenFrom(t: seq<string>, st: Split) {
    st.title.Some? ==> exists h :: IsOpenBody(t, st.title.value, st.body, h)
  }

  lemma HeadingIsNoFence(line: string)
    ensures IsHeading(line) ==> !StartsWith(line, FENCE)
  {
    assert FENCE[0] == '`' && "# "[0] == '#';
    assert IsHeading(line) ==> line[0] == line[..2][0];
    assert StartsWith(line, FENCE) ==> line[0] == line[..3][0];
  }

  lemma OpensBefore(t: seq<string>, line: string, h: int)
    ensures h < |t| ==> (Opens(t + [line], h) <==> Opens(t, h))
  {
    if 0 <= h < |t| {
      assert (t + [line])[..h] == t[..h];
    }
  }

  lemma UnderStays(t: seq<string>, line: string, title: string, h: int, e: int)
    requires Under(t, title, h, e)
    ensures Under(t + [line], title, h, e)
    ensures e == |t| && !Opens(t + [line], e) ==> Under(t + [line], title, h, e + 1)
  {
    hide Opens;
    assert forall k :: 0 <= k < |t| ==> (t + [line])[k] == t[k];
    forall k ensures k < |t| ==> (Opens(t + [line], k) <==> Opens(t, k)) {
      OpensBefore(t, line, k);
    }
  }

  lemma SectionsStay(t: seq<string>, line: string, sections: map<string, string>)
    requires SectionsFrom(t, sections)
    ensures SectionsFrom(t + [line], sections)
  {
    hide Under;
    forall title | title in sections
      ensures exists h, e :: IsBodyOf(t + [line], title, sections[title], h, e)
    {
      var h, e :| IsBodyOf(t, title, sections[title], h, e);
      BodyStays(t, line, title, sections[title], h, e);
    }
  }

  lemma BodyStays(t: seq<string>, line: string, title: string, value: string, h: int, e: int)
    requires IsBodyOf(t, title, value, h, e)
    ensures IsBodyOf(t + [line], title, value, h, e)
  {
    UnderStays(t, line, title, h, e);
    assert (t + [line])[h + 1..e] == t[h + 1..e];
  }

  /** Closing the open section gives it a heading, too. */
  lemma FlushFrom(t: seq<string>, st: Split)
    requires SectionsFrom(t, st.sections) && OpenFrom(t, st)
    ensures SectionsFrom(t, Flush(st))
  {
    hide Under, Strip, Join;
    if st.title.Some? {
      var h :| IsOpenBody(t, st.title.value, st.body, h);
      UnderBounds(t, st.title.value, h, |t|);
      assert t[h + 1..|t|] == t[h + 1..];
      assert IsBodyOf(t, st.title.value, Flush(st)[st.title.value], h, |t|);
    }
  }

  lemma UnderBounds(t: seq<string>, title: string, h: int, e: int)
    requires Under(t, title, h, e)
    ensures 0 <= h < e <= |t|
  {}

  lemma {:induction false} StepsFrom(t: seq<string>)
    ensures var st := Steps(START, t);
            st.inFence == OddFences(t) && SectionsFrom(t, st.sections) && OpenFrom(t, st)
  {
    if t == [] {
    } else {
      var n := |t| - 1;
      var before, line := Steps(START, t[..n]), t[n];
      StepsFrom(t[..n]);
      assert t == t[..n] + [line];
      StepFrom(t[..n], before, line);
    }
  }

  lemma StepFrom(t: seq<string>, st: Split, line: string)
    requires st.inFence == OddFences(t) && SectionsFrom(t, st.sections) && OpenFrom(t, st)
    ensures var next := Step(st, line);
            && next.inFence == OddFences(t + [line]) && SectionsFrom(t + [line], next.sections)
            && OpenFrom(t + [line], next)
  {
    hide SectionsFrom, Under, IsHeading, StartsWith, TitleOf, Flush;
    var more := t + [line];
    assert more[..|t|] == t && more[|t|] == line;
    HeadingIsNoFence(line);
    SectionsStay(t, line, st.sections);
    FlushFrom(t, st);
    SectionsStay(t, line, Flush(st));
    if Opens(more, |t|) {
      JustOpened(t, line);
      assert IsOpenBody(more, TitleOf(line), [], |t|);
    } else if st.title.Some? {
      var h :| IsOpenBody(t, st.title.value, st.body, h);
      UnderBounds(t, st.title.value, h, |t|);
      UnderStays(t, line, st.title.value, h, |t|);
      assert more[h + 1..] == t[h + 1..] + [line];
      assert IsOpenBody(more, st.title.value, AddLine(st, line).body, h);
    }
  }

  lemma JustOpened(t: seq<string>, line: string)
    requires Opens(t + [line], |t|)
    ensures Under(t + [line], TitleOf(line), |t|, |t| + 1) && (t + [line])[|t| + 1..] == []
  {}

  /** Every section of a text stands under a heading of its title. */
  lemma SectionsHaveHeadings(text: string)
    ensures SectionsFrom(SplitLines(text), Sections(text))
  {
    hide SectionsFrom, OpenFrom, Steps, SplitLines;
    StepsFrom(SplitLines(text));
    FlushFrom(SplitLines(text), Steps(START, SplitLines(text)));
  }

  // ----- how many lines a block takes

  function Breaks(s: string): nat {
    if s == "" then 0 else (if IsBreak(s[0]) then 1 else 0) + Breaks(s[1..])
  }

  lemma {:induction false} BreaksConcat(a: string, b: string)
    ensures Breaks(a + b) == Breaks(a) + Breaks(b)
  {
    if a == "" {
      assert a + b == b;
    } else {
      assert (a + b)[1..] == a[1..] + b;
      BreaksConcat(a[1..], b);
    }
  }

  lemma {:induction false} NoBreaks(s: string)
    requires NoBreak(s)
    ensures Breaks(s) == 0
  {
    if s != "" {
      assert s[0] in s && forall c :: c in s[1..] ==> c in s;
      NoBreaks(s[1..]);
    }
  }

  lemma {:induction false} LStripBreaks(s: string)
    ensures Breaks(LStrip(s)) <= Breaks(s)
  {
    if s != "" {
      LStripBreaks(s[1..]);
    }
  }

  lemma {:induction false} RStripBreaks(s: string)
    ensures Breaks(RStrip(s)) <= Breaks(s)
  {
    if s != "" {
      var n := |s| - 1;
      RStripBreaks(s[..n]);
      assert s == s[..n] + [s[n]];
      BreaksConcat(s[..n], [s[n]]);
    }
  }

  lemma StripBreaks(s: string)
    ensures Breaks(Strip(s)) <= Breaks(s)
  {
    LStripBreaks(s);
    RStripBreaks(LStrip(s));
  }

  lemma BreaksAfter(s: string, k: nat, j: nat)
    requires k < j <= |s| && IsBreak(s[k])
    ensures Breaks(s[j..]) + 1 <= Breaks(s)
  {
    hide Breaks, IsBreak;
    var mid := s[k + 1..j];
    assert s == s[..k] + ([s[k]] + (mid + s[j..]));
    BreaksConcat(s[..k], [s[k]] + (mid + s[j..]));
    BreaksConcat([s[k]], mid + s[j..]);
    BreaksConcat(mid, s[j..]);
    OneBreak(s[k]);
  }

  lemma {:induction false} SplitBreaks(s: string)
    ensures |SplitLines(s)| <= Breaks(s) + 1
    decreases |s|
  {
    hide Breaks, IsBreak;
    if s != "" && LineEnd(s) < |s| {
      var k := LineEnd(s);
      var j := k + BreakLength(s, k);
      BreaksAfter(s, k, j);
      SplitBreaks(s[j..]);
    }
  }

  lemma OneBreak(c: char)
    requires IsBreak(c)
    ensures Breaks([c]) == 1
  {}

  lemma {:induction false} JoinBreaks(lines: seq<string>)
    requires lines != [] && forall l :: l in lines ==> NoBreak(l)
    ensures Breaks(Join(lines)) == |lines| - 1
  {
    hide Breaks, NoBreak;
    NoBreaks(lines[0]);
    if |lines| > 1 {
      JoinBreaks(lines[1..]);
      BreaksConcat(lines[0] + "\n", Join(lines[1..]));
      BreaksConcat(lines[0], "\n");
      OneBreak('\n');
    }
  }

  lemma PickedLines(lines: seq<string>, k: nat)
    requires 1 <= k <= |lines| && forall l :: l in lines ==> NoBreak(l)
    ensures YamlLines(Join(lines[..k])) == lines[..k]
  {
    hide NoBreak, SplitLines;
    JoinUnlines(lines[..k]);
    SplitUnlinesExactly(lines[..k]);
  }

  lemma NoneJoined(lines: seq<string>)
    ensures Join(lines[..0]) == ""
  {}

  /** A block from which a text is read has an opening line, the lines of the text, and a closing one. */
  lemma BlockNeedsLines(body: string, yaml: string)
    requires yaml != "" && BlockText(body) == Ok(yaml)
    ensures Breaks(body) + 1 >= |YamlLines(yaml)| + 2
  {
    hide SplitLines, Strip, Breaks, YamlLines, Join, NoBreak, FenceOpens, FenceCloses;
    var lines := SplitLines(Strip(body));
    var k := FirstClose(lines[1..]);
    StripBreaks(body);
    SplitBreaks(Strip(body));
    SplitHasNoBreaks(Strip(body));
    NoneJoined(lines[1..]);
    assert k >= 1;
    PickedLines(lines[1..], k);
  }

  lemma SegmentLongEnough(seg: seq<string>, yaml: string)
    requires forall l :: l in seg ==> NoBreak(l)
    requires yaml != "" && BlockText(Strip(Join(seg))) == Ok(yaml)
    ensures |seg| >= |YamlLines(yaml)| + 2
  {
    hide SplitLines, Strip, Breaks, YamlLines, NoBreak, BlockText;
    BlockNeedsLines(Strip(Join(seg)), yaml);
    StripBreaks(Join(seg));
    if seg != [] {
      JoinBreaks(seg);
    } else {
      NoLines(yaml);
    }
  }

  lemma NoLines(yaml: string)
    ensures Breaks(Join([])) == 0
    ensures BlockText(Strip(Join([]))).Err?
  {}

  // ----- the document

  function Document(falsification: string, paramIntent: string): seq<string> {
    SectionLines("Falsification", falsification) + [""] + SectionLines("ParamIntent", paramIntent)
  }

  lemma DocumentLayout(falsification: string, paramIntent: string)
    ensures var t, f, p := Document(falsification, paramIntent), YamlLines(falsification), YamlLines(paramIntent);
            && |t| == |f| + |p| + 9
            && t[0] == "# Falsification" && t[1] == "" && t[2] == "```yaml" && t[3..|f| + 3] == f
            && t[|f| + 3] == FENCE && t[|f| + 4] == "" && t[|f| + 5] == "# ParamIntent" && t[|f| + 6] == ""
            && t[|f| + 7] == "```yaml" && t[|f| + 8..|f| + |p| + 8] == p
  {
    hide YamlLines;
  }

  lemma OddStep(t: seq<string>, i: nat)
    requires i < |t|
    ensures OddFences(t[..i + 1]) == (StartsWith(t[i], FENCE) != OddFences(t[..i]))
  {
    assert t[..i + 1][..i] == t[..i];
  }

  lemma {:induction false} OddShift(t: seq<string>, lines: seq<string>, at: nat, i: nat)
    requires at + |lines| <= |t| && t[at..at + |lines|] == lines && i <= |lines|
    ensures OddFences(t[..at + i]) == (OddFences(t[..at]) != OddFences(lines[..i]))
  {
    hide StartsWith;
    if i > 0 {
      OddShift(t, lines, at, i - 1);
      OddStep(t, at + i - 1);
      OddStep(lines, i - 1);
      assert t[at + i - 1] == t[at..at + |lines|][i - 1];
    } else {
      assert lines[..0] == [];
    }
  }

  lemma Markers()
    ensures !IsHeading("") && !IsHeading(FENCE) && !IsHeading("```yaml")
    ensures !StartsWith("", FENCE) && StartsWith(FENCE, FENCE) && StartsWith("```yaml", FENCE)
    ensures IsHeading("# Falsification") && TitleOf("# Falsification") == "Falsification"
    ensures IsHeading("# ParamIntent") && TitleOf("# ParamIntent") == "ParamIntent"
    ensures !StartsWith("# Falsification", FENCE) && !StartsWith("# ParamIntent", FENCE)
  {
    TitlesPlain();
    HeadingOf("Falsification");
    HeadingOf("ParamIntent");
    HeadingIsNoFence(FENCE);
    HeadingIsNoFence("```yaml");
  }

  lemma OddThree(t: seq<string>, i: nat)
    requires i + 3 <= |t| && t[i + 1] == "" && t[i + 2] == "```yaml" && !StartsWith(t[i], FENCE)
    ensures OddFences(t[..i + 3]) == !OddFences(t[..i])
  {
    hide StartsWith;
    Markers();
    OddStep(t, i);
    OddStep(t, i + 1);
    OddStep(t, i + 2);
  }

  /** Whether a fence is open at the places that matter, up to the second heading. */
  lemma FencesInFirst(falsification: string, paramIntent: string)
    ensures var t, f := Document(falsification, paramIntent), YamlLines(falsification);
            && |f| + 5 <= |t|
            && (forall i :: 0 <= i <= |f| ==> OddFences(t[..3 + i]) == !OddFences(f[..i]))
            && OddFences(t[..|f| + 5]) == OddFences(f)
  {
    hide YamlLines, Document, StartsWith, IsHeading, OddFences;
    var t, f := Document(falsification, paramIntent), YamlLines(falsification);
    DocumentLayout(falsification, paramIntent);
    Markers();
    NoFences();
    assert t[..0] == [];
    OddThree(t, 0);
    forall i | 0 <= i <= |f| ensures OddFences(t[..3 + i]) == !OddFences(f[..i]) {
      OddShift(t, f, 3, i);
    }
    assert f[..|f|] == f;
    OddStep(t, |f| + 3);
    OddStep(t, |f| + 4);
  }

  /** And after it. */
  lemma FencesInSecond(falsification: string, paramIntent: string)
    ensures var t, f, p := Document(falsification, paramIntent), YamlLines(falsification), YamlLines(paramIntent);
            && |t| == |f| + |p| + 9
            && forall i :: 0 <= i <= |p| ==> OddFences(t[..|f| + 8 + i]) == (!OddFences(f) != OddFences(p[..i]))
  {
    hide YamlLines, Document, StartsWith, IsHeading, OddFences;
    var t, f, p := Document(falsification, paramIntent), YamlLines(falsification), YamlLines(paramIntent);
    DocumentLayout(falsification, paramIntent);
    Markers();
    FencesInFirst(falsification, paramIntent);
    OddThree(t, |f| + 5);
    forall i | 0 <= i <= |p| ensures OddFences(t[..|f| + 8 + i]) == (!OddFences(f) != OddFences(p[..i])) {
      OddShift(t, p, |f| + 8, i);
    }
  }

  /** Two long enough sections under the two titles can only be the two that were written. */
  lemma OnlyOnePlace(falsification: string, paramIntent: string, h1: int, e1: int, h2: int, e2: int)
    requires var t := Document(falsification, paramIntent);
             Under(t, "Falsification", h1, e1) && Under(t, "ParamIntent", h2, e2)
    requires e1 - h1 - 1 >= |YamlLines(falsification)| + 2 && e2 - h2 - 1 >= |YamlLines(paramIntent)| + 2
    ensures h1 == 0 && h2 == |YamlLines(falsification)| + 5
  {
    hide YamlLines, Document, TitleOf, IsHeading, OddFences;
    var t, f, p := Document(falsification, paramIntent), YamlLines(falsification), YamlLines(paramIntent);
    DocumentLayout(falsification, paramIntent);
    FencesInFirst(falsification, paramIntent);
    Markers();
    NoFences();
    assert f[..0] == [];
    assert OddFences(t[..3]);
    assert !Opens(t, 1) && !Opens(t, 2) && !Opens(t, 3);
    assert h1 != h2;
    assert h1 < h2 ==> e1 <= h2;
    assert h2 < h1 ==> e2 <= h1;
  }

  lemma NoFences()
    ensures !OddFences([])
  {}

  lemma StructureKept(falsification: string, paramIntent: string, e1: int, e2: int)
    requires var t, f := Document(falsification, paramIntent), YamlLines(falsification);
             Under(t, "Falsification", 0, e1) && Under(t, "ParamIntent", |f| + 5, e2)
    requires e1 >= |YamlLines(falsification)| + 3
    requires e2 >= |YamlLines(falsification)| + |YamlLines(paramIntent)| + 8
    ensures KeepStructure(falsification, paramIntent)
  {
    hide YamlLines, Document, TitleOf, IsHeading, OddFences;
    var t, f, p := Document(falsification, paramIntent), YamlLines(falsification), YamlLines(paramIntent);
    DocumentLayout(falsification, paramIntent);
    FencesInFirst(falsification, paramIntent);
    FencesInSecond(falsification, paramIntent);
    assert Opens(t, |f| + 5);
    forall i | 0 <= i < |f| && IsHeading(f[i]) ensures !OddFences(f[..i]) {
      assert t[3 + i] == t[3..|f| + 3][i];
      assert !Opens(t, 3 + i);
    }
    forall i | 0 <= i < |p| && IsHeading(p[i]) ensures !OddFences(p[..i]) {
      assert t[|f| + 8 + i] == t[|f| + 8..|f| + |p| + 8][i];
      assert !Opens(t, |f| + 8 + i);
    }
  }

  lemma SegmentOf(t: seq<string>, title: string, value: string, yaml: string) returns (h: int, e: int)
    requires forall l :: l in t ==> NoBreak(l)
    requires exists i, j :: IsBodyOf(t, title, value, i, j)
    requires yaml != "" && BlockText(value) == Ok(yaml)
    ensures Under(t, title, h, e) && e - h - 1 >= |YamlLines(yaml)| + 2
  {
    hide YamlLines, BlockText, Under, NoBreak, Strip, Join;
    h, e :| IsBodyOf(t, title, value, h, e);
    UnderBounds(t, title, h, e);
    SegmentLongEnough(t[h + 1..e], yaml);
  }

  lemma ComingBackKeepsStructure(falsification: string, paramIntent: string)
    requires NewlinesOnly(falsification) && NewlinesOnly(paramIntent) && falsification != "" && paramIntent != ""
    requires ReadTexts(SerializeTexts(falsification, paramIntent)) == Ok((falsification, paramIntent))
    ensures KeepStructure(falsification, paramIntent)
  {
    hide NewlinesOnly, YamlLines, BlockText, SerializeTexts, Sections, SectionLines, IsBodyOf, Under, KeepStructure;
    hide SplitLines, NoBreak;
    var text, t := SerializeTexts(falsification, paramIntent), Document(falsification, paramIntent);
    SerializedText(falsification, paramIntent);
    SplitHasNoBreaks(text);
    SectionsHaveHeadings(text);
    var m := Sections(text);
    var h1, e1 := SegmentOf(t, "Falsification", m["Falsification"], falsification);
    var h2, e2 := SegmentOf(t, "ParamIntent", m["ParamIntent"], paramIntent);
    OnlyOnePlace(falsification, paramIntent, h1, e1, h2, e2);
    StructureKept(falsification, paramIntent, e1, e2);
  }

  /** The exact condition. Two texts, which are YAML dumps and so not empty, come back verbatim from
      serialize-then-parse if and only if no line of either is a bare closing fence, nothing in them looks like a
      heading where their own fence lines have left the fence, and the first has them in pairs. */
  lemma TextsRoundTripExactly(falsification: string, paramIntent: string)
    requires NewlinesOnly(falsification) && NewlinesOnly(paramIntent) && falsification != "" && paramIntent != ""
    ensures ReadTexts(SerializeTexts(falsification, paramIntent)) == Ok((falsification, paramIntent)) <==>
            KeepStructure(falsification, paramIntent) && Unclosed(falsification) && Unclosed(paramIntent)
  {
    hide ReadTexts, SerializeTexts, KeepStructure, Unclosed, NewlinesOnly;
    if ReadTexts(SerializeTexts(falsification, paramIntent)) == Ok((falsification, paramIntent)) {
      ComingBackKeepsStructure(falsification, paramIntent);
    }
    if KeepStructure(falsification, paramIntent) {
      StructuredTexts(falsification, paramIntent);
    }
  }
}
