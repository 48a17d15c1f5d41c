/**
  What a stage-2 text means, without a parser: its sections are the lines under the last heading of each title that
  stands outside every fence, and the text of a block is what stands between its fences.
*/
module Stage2Grammar {
  import opened Basics
  import opened Text
  import opened Stage2
  import RoundTrip = Stage2RoundTrip
  import Stage3
  import opened Grammar = Stage3Grammar

  // ----- sections

  /** An odd number of fence lines: whatever follows them is inside a fence. */
  predicate Odd(t: seq<string>) {
    t != [] && (StartsWith(t[|t| - 1], "```") != Odd(t[..|t| - 1]))
  }

  /** A heading of level one, outside every fence. */
  predicate Heading(t: seq<string>, h: int) {
    0 <= h < |t| && StartsWith(t[h], "# ") && t[h] != "# " && !Odd(t[..h])
  }

  /** Its title is what stands behind the sign, without the whitespace around it. */
  ghost predicate Heads(t: seq<string>, h: int, title: string) {
    Heading(t, h) && Trimmed(title) && Padded(t[h][2..], title)
  }

  /** The first heading from `k` on, or the end. */
  function NextHeading(t: seq<string>, k: nat): (e: nat)
    requires k <= |t|
    ensures k <= e <= |t| && (e < |t| ==> Heading(t, e))
    ensures forall m :: k <= m < e ==> !Heading(t, m)
    decreases |t| - k
  {
    if k == |t| || Heading(t, k) then k else NextHeading(t, k + 1)
  }

  lemma {:induction false} OddIsOdd(t: seq<string>)
    ensures Odd(t) == OddFences(t)
  {
    if t != [] {
      OddIsOdd(t[..|t| - 1]);
    }
  }

  lemma HeadingExactly(line: string)
    ensures IsHeading(line) <==> StartsWith(line, "# ") && line != "# "
  {
    assert StartsWith(line, "# ") && |line| < 3 ==> line == "# ";
  }

  lemma TitleExactly(t: seq<string>, h: int, title: string)
    ensures Heads(t, h, title) <==> Heading(t, h) && IsHeading(t[h]) && title == TitleOf(t[h])
  {
    hide Padded, Trimmed, Strip;
    if Heading(t, h) {
      HeadingExactly(t[h]);
      StripExactly(t[h][2..], title);
    }
  }

  /** No heading of that title comes later. */
  ghost predicate LastHead(t: seq<string>, h: int, title: string) {
    Heads(t, h, title) && forall k :: h < k < |t| ==> !Heads(t, k, title)
  }

  ghost predicate HasHead(t: seq<string>, title: string) {
    exists h :: Heads(t, h, title)
  }

  /** What the sections of the lines `t` are. */
  ghost predicate SectionsOf(t: seq<string>, sections: map<string, string>) {
    && (forall title :: title in sections <==> HasHead(t, title))
    && (forall title, h :: LastHead(t, h, title) ==>
          title in sections && sections[title] == Strip(Join(t[h + 1..NextHeading(t, h + 1)])))
  }

  /** The open section is the one under the last heading of all. */
  ghost predicate OpenSection(t: seq<string>, st: Split) {
    && (st.title.None? ==> forall k :: !Heading(t, k))
    && (st.title.Some? ==> exists h :: OpenAt(t, st, h))
  }

  ghost predicate OpenAt(t: seq<string>, st: Split, h: int)
    requires st.title.Some?
  {
    Heads(t, h, st.title.value) && st.body == t[h + 1..] && forall k :: k > h ==> !Heading(t, k)
  }

  lemma HeadingBefore(t: seq<string>, line: string, h: int)
    requires h < |t|
    ensures Heading(t + [line], h) <==> Heading(t, h)
    ensures forall title :: Heads(t + [line], h, title) <==> Heads(t, h, title)
  {
    if 0 <= h {
      assert (t + [line])[..h] == t[..h];
    }
  }

  lemma HeadsBefore(t: seq<string>, line: string)
    ensures forall h, title :: h < |t| ==> (Heads(t + [line], h, title) <==> Heads(t, h, title))
  {
    forall h, title | h < |t| ensures Heads(t + [line], h, title) <==> Heads(t, h, title) {
      HeadingBefore(t, line, h);
    }
  }

  lemma HeadsInside(t: seq<string>)
    ensures forall h, title :: Heads(t, h, title) ==> 0 <= h < |t|
  {}

  lemma {:induction false} NextHeadingBefore(t: seq<string>, line: string, k: nat)
    requires k <= |t|
    ensures NextHeading(t, k) < |t| || Heading(t + [line], |t|) ==> NextHeading(t + [line], k) == NextHeading(t, k)
    ensures NextHeading(t, k) == |t| && !Heading(t + [line], |t|) ==> NextHeading(t + [line], k) == |t| + 1
    decreases |t| - k
  {
    hide Heading;
    if k < |t| {
      HeadingBefore(t, line, k);
      NextHeadingBefore(t, line, k + 1);
    }
  }

  /** What the splitter has after the lines `t`. */
  ghost predicate Split(t: seq<string>, st: Stage2.Split) {
    st.inFence == Odd(t) && OpenSection(t, st) && SectionsOf(t, Flush(st))
  }

  lemma OpeningStep(t: seq<string>, line: string, st: Stage2.Split)
    requires Split(t, st) && !st.inFence && IsHeading(line)
    ensures Split(t + [line], Stage2.Split(Flush(st), Some(TitleOf(line)), [], false))
  {
    hide Flush, Heads, Heading, TitleOf, Join, Strip;
    var more, next := t + [line], Stage2.Split(Flush(st), Some(TitleOf(line)), [], false);
    OpenedHere(t, line);
    HeadsBefore(t, line);
    HeadsInside(more);
    assert more[|t| + 1..] == [];
    assert OpenAt(more, next, |t|) by { NoHeadingBehind(more); }
    var sections := Flush(next);
    OpenedFlush(st, TitleOf(line));
    forall title, h | LastHead(more, h, title)
      ensures title in sections && sections[title] == Strip(Join(more[h + 1..NextHeading(more, h + 1)]))
    {
      if h < |t| {
        assert title != TitleOf(line);
        assert LastHead(t, h, title);
        NextHeadingBefore(t, line, h + 1);
        assert more[h + 1..NextHeading(t, h + 1)] == t[h + 1..NextHeading(t, h + 1)];
      } else {
        assert NextHeading(more, |t| + 1) == |t| + 1;
        assert more[h + 1..|t| + 1] == [];
      }
    }
    forall title ensures title in sections <==> HasHead(more, title) {
      HeadsMore(t, line, title);
    }
  }

  lemma OpenedFlush(st: Stage2.Split, title: string)
    ensures Flush(Stage2.Split(Flush(st), Some(title), [], false)) == Flush(st)[title := Strip(Join([]))]
  {}

  lemma HeadBounds(t: seq<string>, h: int, title: string)
    requires Heads(t, h, title)
    ensures 0 <= h < |t|
  {}

  lemma NoHeadingBehind(t: seq<string>)
    ensures forall k :: k >= |t| ==> !Heading(t, k)
  {}

  lemma OpenedHere(t: seq<string>, line: string)
    requires !Odd(t) && IsHeading(line)
    ensures Heading(t + [line], |t|) && !Odd(t + [line])
    ensures forall title :: Heads(t + [line], |t|, title) <==> title == TitleOf(line)
  {
    var more := t + [line];
    assert more[..|t|] == t && more[|t|] == line;
    HeadingExactly(line);
    RoundTrip.HeadingIsNoFence(line);
    forall title ensures Heads(more, |t|, title) <==> title == TitleOf(line) {
      TitleExactly(more, |t|, title);
    }
  }

  lemma HeadsMore(t: seq<string>, line: string, title: string)
    ensures HasHead(t + [line], title) <==> HasHead(t, title) || Heads(t + [line], |t|, title)
  {
    var more := t + [line];
    if h :| Heads(t, h, title) {
      HeadBounds(t, h, title);
      HeadingBefore(t, line, h);
      assert Heads(more, h, title);
    }
    if h :| Heads(more, h, title) {
      HeadBounds(more, h, title);
      if h < |t| {
        HeadingBefore(t, line, h);
        assert Heads(t, h, title);
      }
    }
  }

  lemma PlainStep(t: seq<string>, line: string, st: Stage2.Split, next: Stage2.Split)
    requires OpenSection(t, st) && SectionsOf(t, Flush(st)) && !Heading(t + [line], |t|)
    requires next.sections == st.sections && next.title == st.title && next.body == AddLine(st, line).body
    ensures OpenSection(t + [line], next) && SectionsOf(t + [line], Flush(next))
  {
    hide Heads, Heading, Flush, SectionsOf;
    var more := t + [line];
    NoneNew(t, line);
    if st.title.Some? {
      var h0 :| OpenAt(t, st, h0);
      HeadBounds(t, h0, st.title.value);
      HeadingBefore(t, line, h0);
      assert more[h0 + 1..] == t[h0 + 1..] + [line];
      assert OpenAt(more, next, h0);
      PlainSections(t, line, st, next, h0);
    } else {
      NoHeads(t);
      NoHeads(more);
      PlainFlush(st, next);
      NoSections(t, more, Flush(st));
    }
  }

  lemma NoneNew(t: seq<string>, line: string)
    requires !Heading(t + [line], |t|)
    ensures forall k :: Heading(t + [line], k) ==> k < |t| && Heading(t, k)
  {
    hide Heading;
    NoHeadingBehind(t + [line]);
    forall k ensures k < |t| ==> (Heading(t + [line], k) <==> Heading(t, k)) {
      if k < |t| {
        HeadingBefore(t, line, k);
      }
    }
  }

  lemma NoSections(t: seq<string>, more: seq<string>, sections: map<string, string>)
    requires forall title, h :: !Heads(t, h, title) && !Heads(more, h, title)
    requires SectionsOf(t, sections)
    ensures SectionsOf(more, sections)
  {}

  lemma PlainSections(t: seq<string>, line: string, st: Stage2.Split, next: Stage2.Split, h0: int)
    requires SectionsOf(t, Flush(st)) && !Heading(t + [line], |t|)
    requires next.sections == st.sections && next.title == st.title && st.title.Some?
    requires OpenAt(t, st, h0) && OpenAt(t + [line], next, h0)
    ensures SectionsOf(t + [line], Flush(next))
  {
    hide Heads, Heading, Join, Strip, Flush;
    var more := t + [line];
    HeadsBefore(t, line);
    HeadsInside(more);
    HeadsHere(more);
    PlainFlush(st, next);
    forall title ensures HasHead(more, title) <==> HasHead(t, title) {
      HeadsMore(t, line, title);
    }
    forall title, h | LastHead(more, h, title)
      ensures title in Flush(next) && Flush(next)[title] == Strip(Join(more[h + 1..NextHeading(more, h + 1)]))
    {
      assert LastHead(t, h, title);
      NextHeadingBefore(t, line, h + 1);
      LastIsOpen(t, st, h0, h, title);
      if h == h0 {
        assert more[h + 1..|t| + 1] == more[h + 1..];
      } else {
        assert more[h + 1..NextHeading(t, h + 1)] == t[h + 1..NextHeading(t, h + 1)];
      }
    }
  }

  lemma NoHeads(t: seq<string>)
    requires forall k :: !Heading(t, k)
    ensures forall title, h :: !Heads(t, h, title)
  {}

  lemma HeadsHere(t: seq<string>)
    ensures forall h, title :: Heads(t, h, title) ==> Heading(t, h)
  {}

  lemma PlainFlush(st: Stage2.Split, next: Stage2.Split)
    requires next.sections == st.sections && next.title == st.title
    ensures st.title.None? ==> Flush(next) == Flush(st)
    ensures st.title.Some? ==> Flush(next) == Flush(st)[st.title.value := Strip(Join(next.body))]
  {}

  /** The last heading of its title is the open one, or the open one stands behind it and has another title. */
  lemma LastIsOpen(t: seq<string>, st: Stage2.Split, h0: int, h: int, title: string)
    requires st.title.Some? && OpenAt(t, st, h0) && LastHead(t, h, title)
    ensures 0 <= h <= h0 < |t|
    ensures h == h0 ==> title == st.title.value && NextHeading(t, h + 1) == |t|
    ensures h < h0 ==> title != st.title.value && NextHeading(t, h + 1) <= h0
  {
    hide Strip, Padded, Trimmed;
    TitleExactly(t, h, title);
    TitleExactly(t, h0, st.title.value);
  }

  lemma {:induction false} StepsSplit(t: seq<string>)
    ensures Split(t, Steps(START, t))
  {
    hide Split, Step;
    if t == [] {
      NothingSplit();
    } else {
      var n := |t| - 1;
      StepsSplit(t[..n]);
      assert t == t[..n] + [t[n]];
      StepSplit(t[..n], t[n], Steps(START, t[..n]));
    }
  }

  lemma NothingSplit()
    ensures Split([], START)
  {}

  lemma StepSplit(t: seq<string>, line: string, st: Stage2.Split)
    requires Split(t, st)
    ensures Split(t + [line], Step(st, line))
  {
    hide Flush, OpenSection, SectionsOf, Heading, IsHeading, StartsWith;
    var more := t + [line];
    assert more[..|t|] == t && more[|t|] == line;
    RoundTrip.HeadingIsNoFence(line);
    if !st.inFence && IsHeading(line) {
      OpeningStep(t, line, st);
    } else {
      NotHeading(t, line);
      PlainStep(t, line, st, Step(st, line));
    }
  }

  lemma NotHeading(t: seq<string>, line: string)
    requires Odd(t) || !IsHeading(line)
    ensures !Heading(t + [line], |t|)
  {
    assert (t + [line])[..|t|] == t;
    HeadingExactly(line);
  }

  /** The sections of every text, exactly: there is one for each title that some heading outside the fences has, and it
      holds the lines from the last such heading to the next heading, without the whitespace around them. */
  lemma SectionsExactly(text: string)
    ensures SectionsOf(SplitLines(text), Sections(text))
  {
    hide SplitLines, SectionsOf, Steps, Flush, OpenSection;
    StepsSplit(SplitLines(text));
  }

  // ----- blocks

  /** The first closing fence behind the first line stands at `k`. */
  ghost predicate ClosesFirst(lines: seq<string>, k: int) {
    && 1 <= k < |lines| && ClosesFence(lines[k])
    && forall m :: 1 <= m < k ==> !ClosesFence(lines[m])
  }

  /** What is read from the body of a section. */
  ghost predicate BlockRead(body: string, r: Result<string, BlockError>) {
    var stripped := Strip(body);
    var lines := SplitLines(stripped);
    if !StartsWith(stripped, "```") then r == Err(NoFence)
    else if lines == [] || !OpensFence(lines[0]) then r == Err(MalformedFence)
    else if forall k :: 1 <= k < |lines| ==> !ClosesFence(lines[k]) then r == Err(Unterminated)
    else exists k :: ClosesFirst(lines, k) && r == Ok(Join(lines[1..k]))
  }

  lemma FirstCloseExactly(lines: seq<string>)
    requires lines != []
    ensures var k := FirstClose(lines[1..]);
            if k == |lines| - 1 then forall m :: 1 <= m < |lines| ==> !ClosesFence(lines[m])
            else ClosesFirst(lines, k + 1)
  {
    hide ClosesFence;
    forall m | 0 <= m < |lines| ensures Stage3.FenceCloses(lines[m]) <==> ClosesFence(lines[m]) {
      FencesExactly(lines[m]);
    }
    var k := FirstClose(lines[1..]);
    assert forall m :: 1 <= m < |lines| ==> lines[m] == lines[1..][m - 1];
  }

  lemma BlockExactly(body: string, r: Result<string, BlockError>)
    ensures BlockText(body) == r <==> BlockRead(body, r)
  {
    hide OpensFence, ClosesFence, SplitLines, Strip, Join, FirstClose;
    var lines := SplitLines(Strip(body));
    if lines != [] {
      FencesExactly(lines[0]);
      FirstCloseExactly(lines);
      var k := FirstClose(lines[1..]);
      assert lines[1..][..k] == lines[1..k + 1];
      forall j | ClosesFirst(lines, j) && ClosesFirst(lines, k + 1) ensures j == k + 1 {
      }
    }
  }

  /** What `parse_stage2` hands to the YAML loader: both texts, or what is wrong with the first that is not there. */
  lemma TextsExactly(text: string)
    ensures var t := SplitLines(text);
            var sections := Sections(text);
            && SectionsOf(t, sections)
            && (ReadTexts(text) == Err(MissingSection) <==>
                  !HasHead(t, "Falsification") || !HasHead(t, "ParamIntent"))
            && (ReadTexts(text) != Err(MissingSection) ==>
                  exists first, second ::
                    && BlockRead(sections["Falsification"], first) && BlockRead(sections["ParamIntent"], second)
                    && ReadTexts(text) == if first.Err? then Err(first.error)
                                          else if second.Err? then Err(second.error)
                                          else Ok((first.value, second.value)))
  {
    hide SplitLines, BlockText, Sections, HasHead, BlockRead;
    SectionsExactly(text);
    var t, sections := SplitLines(text), Sections(text);
    if "Falsification" in sections && "ParamIntent" in sections {
      var first, second := BlockText(sections["Falsification"]), BlockText(sections["ParamIntent"]);
      BlockExactly(sections["Falsification"], first);
      BlockExactly(sections["ParamIntent"], second);
      NeverMissing(sections["Falsification"]);
      NeverMissing(sections["ParamIntent"]);
    }
  }

  lemma NeverMissing(body: string)
    ensures BlockText(body) != Err(MissingSection)
  {}
}
