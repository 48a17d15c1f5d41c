/**
  What a stage-3 text means, without a parser: a text is read exactly when its lines are files, deletions and prose,
  in any order and no path twice; otherwise the first heading at which that fails gives the error.
*/
module Stage3Grammar {
  import opened Basics
  import opened Text
  import opened Stage3
  import RoundTrip = Stage3RoundTrip

  // ----- lines

  predicate Alphanumeric(c: char) {
    || c in {'A', 'B', 'C', 'D', 'E', 'F', 'G', 'H', 'I', 'J', 'K', 'L', 'M', 'N', 'O', 'P', 'Q', 'R', 'S', 'T', 'U',
             'V', 'W', 'X', 'Y', 'Z'}
    || c in {'a', 'b', 'c', 'd', 'e', 'f', 'g', 'h', 'i', 'j', 'k', 'l', 'm', 'n', 'o', 'p', 'q', 'r', 's', 't', 'u',
             'v', 'w', 'x', 'y', 'z'}
    || c in {'0', '1', '2', '3', '4', '5', '6', '7', '8', '9'}
  }

  predicate Among(s: string, more: string) {
    forall c :: c in s ==> Alphanumeric(c) || c in more
  }

  /** `[A-Za-z0-9_./-]+` */
  predicate IsPath(s: string) {
    s != "" && Among(s, "_./-")
  }

  predicate Blank(s: string) {
    forall c :: c in s ==> IsSpace(c)
  }

  predicate Trimmed(s: string) {
    s == "" || (!IsSpace(s[0]) && !IsSpace(s[|s| - 1]))
  }

  /** `core` with whitespace around it. */
  ghost predicate Padded(s: string, core: string) {
    exists a, b :: Blank(a) && Blank(b) && s == a + core + b
  }

  /** An opening fence: a tag and whitespace behind three backticks. */
  ghost predicate OpensFence(line: string) {
    exists tag, b :: Among(tag, "_+-") && Blank(b) && line == "```" + tag + b
  }

  /** A closing fence: nothing but whitespace behind three backticks. */
  ghost predicate ClosesFence(line: string) {
    exists b :: Blank(b) && line == "```" + b
  }

  /** The heading of a file, or of a deletion. */
  ghost predicate Names(line: string, delete: bool, path: string) {
    && StartsWith(line, "## ") && Trimmed(path)
    && if delete then exists m :: Blank(m) && Padded(line[3..], "DELETE:" + m + path)
       else Padded(line[3..], path) && !StartsWith(path, "DELETE:")
  }

  lemma CharactersExactly(c: char)
    ensures PathChar(c) <==> Alphanumeric(c) || c in "_./-"
    ensures TagChar(c) <==> Alphanumeric(c) || c in "_+-"
  {}

  lemma PathExactly(s: string)
    ensures ValidPath(s) <==> IsPath(s)
  {
    forall c ensures PathChar(c) <==> Alphanumeric(c) || c in "_./-" {
      CharactersExactly(c);
    }
  }

  lemma {:induction false} LStripParts(s: string) returns (a: string)
    ensures Blank(a) && s == a + LStrip(s) && (LStrip(s) == "" || !IsSpace(LStrip(s)[0]))
  {
    a := "";
    if s != "" && IsSpace(s[0]) {
      var more := LStripParts(s[1..]);
      a := [s[0]] + more;
    }
  }

  lemma {:induction false} RStripParts(s: string) returns (b: string)
    ensures Blank(b) && s == RStrip(s) + b && (RStrip(s) == "" || !IsSpace(RStrip(s)[|RStrip(s)| - 1]))
  {
    b := "";
    if s != "" && IsSpace(s[|s| - 1]) {
      var more := RStripParts(s[..|s| - 1]);
      b := more + [s[|s| - 1]];
    }
  }

  lemma StripParts(s: string)
    ensures Padded(s, Strip(s)) && Trimmed(Strip(s))
  {
    hide IsSpace;
    var a := LStripParts(s);
    var b := RStripParts(LStrip(s));
    assert s == a + Strip(s) + b;
    assert Strip(s) != "" ==> Strip(s)[0] == LStrip(s)[0];
  }

  lemma {:induction false} StripBlank(s: string)
    requires Blank(s)
    ensures LStrip(s) == "" && RStrip(s) == "" && Strip(s) == ""
  {
    if s != "" {
      assert s[0] in s && s[|s| - 1] in s;
      StripBlank(s[1..]);
      StripBlank(s[..|s| - 1]);
    }
  }

  /** Stripping leaves what stands between whitespace. */
  lemma StripExactly(s: string, core: string)
    ensures Strip(s) == core <==> Padded(s, core) && Trimmed(core)
  {
    hide Strip, IsSpace;
    StripParts(s);
    if Padded(s, core) && Trimmed(core) {
      var a, b :| Blank(a) && Blank(b) && s == a + core + b;
      assert s == a + core + b;
      if core == "" {
        assert s == a + b;
        StripBlank(s);
      } else {
        StripStop(a, core, b);
      }
    }
  }

  lemma BlankExactly(line: string)
    ensures Strip(line) == "" <==> Blank(line)
  {
    hide Strip, IsSpace;
    StripExactly(line, "");
    if Strip(line) == "" {
      var a, b :| Blank(a) && Blank(b) && line == a + "" + b;
    } else if Blank(line) {
      StripBlank(line);
    }
  }

  lemma RStripExactly(s: string, core: string, b: string)
    requires s == core + b && Blank(b) && (core == "" || !IsSpace(core[|core| - 1]))
    ensures RStrip(s) == core
  {
    hide RStrip, IsSpace;
    if core == "" {
      assert s == b;
      StripBlank(s);
    } else {
      RStripStop(core, b);
    }
  }

  lemma FencesExactly(line: string)
    ensures FenceOpens(line) <==> OpensFence(line)
    ensures FenceCloses(line) <==> ClosesFence(line)
  {
    OpensExactly(line);
    ClosesExactly(line);
  }

  lemma OpensExactly(line: string)
    ensures FenceOpens(line) <==> OpensFence(line)
  {
    hide RStrip, TagChar, IsSpace, Alphanumeric;
    TagsExactly();
    if StartsWith(line, FENCE) {
      var b := RStripParts(line[3..]);
      assert line == "```" + RStrip(line[3..]) + b;
    }
    if OpensFence(line) {
      var tag, b :| Among(tag, "_+-") && Blank(b) && line == "```" + tag + b;
      assert line[..3] == FENCE && line[3..] == tag + b;
      assert tag != "" ==> tag[|tag| - 1] in tag;
      RStripExactly(line[3..], tag, b);
    }
  }

  lemma ClosesExactly(line: string)
    ensures FenceCloses(line) <==> ClosesFence(line)
  {
    hide RStrip, IsSpace;
    if FenceCloses(line) {
      var b := RStripParts(line[3..]);
      assert line == "```" + b;
    }
    if ClosesFence(line) {
      var b :| Blank(b) && line == "```" + b;
      assert line[..3] == FENCE && line[3..] == "" + b;
      RStripExactly(line[3..], "", b);
    }
  }

  lemma TagsExactly()
    ensures forall c :: TagChar(c) <==> Alphanumeric(c) || c in "_+-"
    ensures forall c :: TagChar(c) ==> !IsSpace(c)
  {
    forall c ensures TagChar(c) <==> Alphanumeric(c) || c in "_+-" {
      CharactersExactly(c);
    }
  }

  lemma DeletionNames(rest: string, path: string)
    ensures Trimmed(path) && (exists m :: Blank(m) && Padded(rest, "DELETE:" + m + path)) <==>
            StartsWith(Strip(rest), DELETE) && path == Strip(Strip(rest)[7..])
  {
    hide Strip, IsSpace, Trimmed, Padded;
    if Trimmed(path) && exists m :: Blank(m) && Padded(rest, "DELETE:" + m + path) {
      var m :| Blank(m) && Padded(rest, "DELETE:" + m + path);
      NamedStripped(rest, m, path);
    }
    if StartsWith(Strip(rest), DELETE) && path == Strip(Strip(rest)[7..]) {
      StrippedNames(rest, path);
    }
  }

  lemma NamedStripped(rest: string, m: string, path: string)
    requires Trimmed(path) && Blank(m) && Padded(rest, "DELETE:" + m + path)
    ensures StartsWith(Strip(rest), DELETE) && path == Strip(Strip(rest)[7..])
  {
    hide Strip, IsSpace, Blank;
    LetterPlain();
    var core := "DELETE:" + m + path;
    var a, b :| Blank(a) && Blank(b) && rest == a + core + b;
    if path == "" {
      BlankConcat(m, b);
      assert Trimmed("DELETE:");
      assert rest == a + "DELETE:" + (m + b);
      StripExactly(rest, "DELETE:");
      assert "DELETE:"[7..] == "";
      NothingBlank();
      BlankExactly("");
    } else {
      assert core[0] == 'D' && core[|core| - 1] == path[|path| - 1];
      StripExactly(rest, core);
      assert core[..7] == "DELETE:" && core[7..] == m + path + "";
      NothingBlank();
      StripExactly(core[7..], path);
    }
  }

  lemma StrippedNames(rest: string, path: string)
    requires StartsWith(Strip(rest), DELETE) && path == Strip(Strip(rest)[7..])
    ensures Trimmed(path) && exists m :: Blank(m) && Padded(rest, "DELETE:" + m + path)
  {
    hide Strip, IsSpace;
    var h := Strip(rest);
    StripExactly(rest, h);
    StripExactly(h[7..], path);
    var m, b :| Blank(m) && Blank(b) && h[7..] == m + path + b;
    assert h == h[..7] + h[7..];
    assert h == "DELETE:" + m + path + b;
    if b != "" {
      BlankEnd("DELETE:" + m + path, b);
      assert false;
    }
    assert h == "DELETE:" + m + path;
  }

  lemma LetterPlain()
    ensures !IsSpace('D') && !IsSpace(':')
  {}

  lemma BlankEnd(s: string, b: string)
    requires Blank(b) && b != ""
    ensures IsSpace((s + b)[|s + b| - 1])
  {
    assert (s + b)[|s + b| - 1] == b[|b| - 1];
  }

  lemma NothingBlank()
    ensures Blank("")
  {}

  lemma BlankConcat(a: string, b: string)
    requires Blank(a) && Blank(b)
    ensures Blank(a + b)
  {}

  /** What a heading names, and that it is one thing at most. */
  lemma NamesExactly(line: string, delete: bool, path: string)
    ensures Names(line, delete, path) <==>
            && StartsWith(line, "## ") && delete == StartsWith(Header(line), DELETE)
            && path == if delete then DeletedPath(Header(line)) else Header(line)
  {
    hide Strip, IsSpace, Blank, Padded, Trimmed;
    if StartsWith(line, "## ") {
      var rest := line[3..];
      StripExactly(rest, path);
      StripExactly(rest, Header(line));
      DeletionNames(rest, path);
    }
  }

  // ----- the text in chunks

  datatype Chunk =
    | Prose(line: string)
    | Deleted(line: string, path: string)
    | Source(heading: string, path: string, blanks: seq<string>, open: string, body: seq<string>, close: string)

  /** Prose is any line that is not a heading; a file is its heading, blank lines, and a fenced block. */
  ghost predicate IsChunk(c: Chunk) {
    match c
    case Prose(line) => !StartsWith(line, "## ")
    case Deleted(line, path) => Names(line, true, path) && IsPath(path)
    case Source(heading, path, blanks, open, body, close) =>
      && Names(heading, false, path) && IsPath(path)
      && (forall l :: l in blanks ==> Blank(l)) && OpensFence(open)
      && (forall l :: l in body ==> !ClosesFence(l)) && ClosesFence(close)
  }

  ghost predicate AreChunks(chunks: seq<Chunk>) {
    forall c :: c in chunks ==> IsChunk(c)
  }

  function LinesOf(c: Chunk): seq<string> {
    match c
    case Prose(line) => [line]
    case Deleted(line, _) => [line]
    case Source(heading, _, blanks, open, body, close) => [heading] + blanks + [open] + body + [close]
  }

  function Written(chunks: seq<Chunk>): seq<string> {
    if chunks == [] then [] else LinesOf(chunks[0]) + Written(chunks[1..])
  }

  /** No file twice, and no deletion twice. */
  predicate NothingTwice(chunks: seq<Chunk>) {
    && (forall i, j :: 0 <= i < j < |chunks| && chunks[i].Source? && chunks[j].Source? ==>
          chunks[i].path != chunks[j].path)
    && (forall i, j :: 0 <= i < j < |chunks| && chunks[i].Deleted? && chunks[j].Deleted? ==>
          chunks[i].path != chunks[j].path)
  }

  function Deletions(chunks: seq<Chunk>): seq<string> {
    if chunks == [] then []
    else (if chunks[0].Deleted? then [chunks[0].path] else []) + Deletions(chunks[1..])
  }

  predicate HasFile(chunks: seq<Chunk>, path: string) {
    exists c :: c in chunks && c.Source? && c.path == path
  }

  /** What has been read: each file under its path with its body, and the deletions in order. */
  ghost predicate Holds(read: Emission, chunks: seq<Chunk>) {
    && read.deleted == Deletions(chunks)
    && (forall p :: p in read.files <==> HasFile(chunks, p))
    && (forall c :: c in chunks && c.Source? ==> c.path in read.files && read.files[c.path] == FileBody(c.body))
  }

  /** Behind a heading: blank lines, and then the end or something that is no opening fence. */
  ghost predicate Fenceless(after: seq<string>) {
    exists k :: 0 <= k <= |after| && BlankUntil(after, k) && (k < |after| ==> !Blank(after[k]) && !OpensFence(after[k]))
  }

  /** Behind a heading: blank lines, an opening fence, and no closing one. */
  ghost predicate Unclosed(after: seq<string>) {
    exists k :: && 0 <= k < |after| && BlankUntil(after, k) && OpensFence(after[k])
                && forall m :: k < m < |after| ==> !ClosesFence(after[m])
  }

  predicate BlankUntil(lines: seq<string>, k: nat)
    requires k <= |lines|
  {
    forall m :: 0 <= m < k ==> Blank(lines[m])
  }

  /** What is wrong with a heading, given what stands before and behind it. */
  ghost predicate Fault(read: Emission, delete: bool, path: string, after: seq<string>, e: ParseError) {
    match e
    case EmptyPath => path == ""
    case InvalidPath => path != "" && !IsPath(path)
    case DuplicateDelete => IsPath(path) && delete && path in read.deleted
    case DuplicateFile => IsPath(path) && !delete && path in read.files
    case MissingFence => IsPath(path) && !delete && path !in read.files && Fenceless(after)
    case UnterminatedFence => IsPath(path) && !delete && path !in read.files && Unclosed(after)
    case NoSections => false
  }

  /** The result when `read` has been read and `rest` is left. */
  ghost predicate Ends(read: Emission, rest: seq<string>, r: Result<Emission, ParseError>) {
    if rest == [] then r == if read == NOTHING then Err(NoSections) else Ok(read)
    else r.Err? && exists delete, path :: Names(rest[0], delete, path) && Fault(read, delete, path, rest[1..], r.error)
  }

  // ----- the parser reads chunks

  predicate New(c: Chunk, st: Emission) {
    (c.Source? ==> c.path !in st.files) && (c.Deleted? ==> c.path !in st.deleted)
  }

  function Take(c: Chunk, st: Emission): Emission {
    match c
    case Prose(_) => st
    case Deleted(_, path) => st.(deleted := st.deleted + [path])
    case Source(_, path, _, _, body, _) => st.(files := st.files[path := FileBody(body)])
  }

  predicate AllNew(chunks: seq<Chunk>, st: Emission) {
    chunks == [] || (New(chunks[0], st) && AllNew(chunks[1..], Take(chunks[0], st)))
  }

  function Taken(chunks: seq<Chunk>, st: Emission): Emission {
    if chunks == [] then st else Taken(chunks[1..], Take(chunks[0], st))
  }

  lemma {:induction false} SkipBlankAt(lines: seq<string>, j: nat, k: nat)
    requires j <= k <= |lines| && (forall m :: j <= m < k ==> Blank(lines[m]))
    requires k < |lines| ==> !Blank(lines[k])
    ensures SkipBlank(lines, j) == k
    decreases k - j
  {
    hide Strip, Blank;
    if j < |lines| {
      BlankExactly(lines[j]);
    }
    if j < k {
      SkipBlankAt(lines, j + 1, k);
    }
  }

  lemma {:induction false} SkipsBlanks(lines: seq<string>, j: nat)
    requires j <= |lines|
    ensures var k := SkipBlank(lines, j);
            && (forall m :: j <= m < k ==> Blank(lines[m]))
            && (k < |lines| ==> !Blank(lines[k]))
    decreases |lines| - j
  {
    hide Strip, Blank;
    if j < |lines| {
      BlankExactly(lines[j]);
      if Strip(lines[j]) == "" {
        SkipsBlanks(lines, j + 1);
      }
    }
  }

  lemma {:induction false} FindsClose(lines: seq<string>, j: nat)
    requires j <= |lines|
    ensures var k := FindClose(lines, j);
            && (forall m :: j <= m < k ==> !ClosesFence(lines[m]))
            && (k < |lines| ==> ClosesFence(lines[k]))
    decreases |lines| - j
  {
    hide FenceCloses, ClosesFence;
    if j < |lines| {
      FencesExactly(lines[j]);
      if !FenceCloses(lines[j]) {
        FindsClose(lines, j + 1);
      }
    }
  }

  lemma FenceNotBlank(line: string)
    requires OpensFence(line)
    ensures !Blank(line)
  {
    assert line[0] == '`' && line[0] in line;
  }

  /** Where the lines of a file stand. */
  lemma Layout(lines: seq<string>, i: nat, c: Chunk, rest: seq<string>)
    requires c.Source? && i <= |lines| && lines[i..] == LinesOf(c) + rest
    ensures var j := i + 1 + |c.blanks|;
            var close := j + 1 + |c.body|;
            && close < |lines| && close + 1 == i + |LinesOf(c)|
            && lines[i] == c.heading && lines[j] == c.open && lines[close] == c.close
            && lines[i + 1..j] == c.blanks && lines[j + 1..close] == c.body
  {
    hide LinesOf;
    var j := i + 1 + |c.blanks|;
    var close := j + 1 + |c.body|;
    var closed := [c.close] + rest;
    var inside := c.body + closed;
    var tail := [c.open] + inside;
    Nested(c, rest);
    Front(lines, i, [c.heading], c.blanks + tail);
    Front(lines, i + 1, c.blanks, tail);
    Front(lines, j, [c.open], inside);
    Front(lines, j + 1, c.body, closed);
    Front(lines, close, [c.close], rest);
  }

  lemma Nested(c: Chunk, rest: seq<string>)
    requires c.Source?
    ensures LinesOf(c) + rest == [c.heading] + (c.blanks + ([c.open] + (c.body + ([c.close] + rest))))
    ensures |LinesOf(c)| == |c.blanks| + |c.body| + 3
  {
    var head := [c.heading] + c.blanks;
    Associate(head + [c.open] + c.body, [c.close], rest);
    Associate(head + [c.open], c.body, [c.close] + rest);
    Associate(head, [c.open], c.body + ([c.close] + rest));
    Associate([c.heading], c.blanks, [c.open] + (c.body + ([c.close] + rest)));
  }

  lemma Associate(a: seq<string>, b: seq<string>, c: seq<string>)
    ensures a + b + c == a + (b + c)
  {}

  lemma Front(lines: seq<string>, i: nat, a: seq<string>, rest: seq<string>)
    requires i <= |lines| && lines[i..] == a + rest
    ensures i + |a| <= |lines| && lines[i..i + |a|] == a && lines[i + |a|..] == rest
    ensures |a| == 1 ==> lines[i] == a[0]
  {
    assert lines[i..i + |a|] == lines[i..][..|a|];
    assert lines[i + |a|..] == lines[i..][|a|..];
  }

  lemma SourceStep(lines: seq<string>, i: nat, c: Chunk, rest: seq<string>, st: Emission)
    requires c.Source? && IsChunk(c) && New(c, st)
    requires i <= |lines| && lines[i..] == LinesOf(c) + rest
    ensures var next := i + |LinesOf(c)|;
            next <= |lines| && ParseFrom(lines, i, st) == ParseFrom(lines, next, Take(c, st))
  {
    hide Strip, StartsWith, FenceOpens, FenceCloses, FileBody, ValidPath, Names, IsPath, Blank, OpensFence, ClosesFence,
      LinesOf;
    Layout(lines, i, c, rest);
    var j := i + 1 + |c.blanks|;
    var close := j + 1 + |c.body|;
    NamesExactly(lines[i], false, c.path);
    PathExactly(c.path);
    IsPathSome(c.path);
    forall m | i < m < j ensures Blank(lines[m]) {
      assert lines[m] == c.blanks[m - i - 1];
    }
    FencesExactly(c.open);
    FenceNotBlank(c.open);
    SkipBlankAt(lines, i + 1, j);
    FencesExactly(c.close);
    forall m | j < m < close ensures !FenceCloses(lines[m]) {
      assert lines[m] == c.body[m - j - 1];
      FencesExactly(lines[m]);
    }
    RoundTrip.FindCloseAt(lines, j + 1, close);
  }

  lemma IsPathSome(path: string)
    requires IsPath(path)
    ensures path != ""
  {}

  lemma ChunkStep(lines: seq<string>, i: nat, c: Chunk, rest: seq<string>, st: Emission)
    requires IsChunk(c) && New(c, st)
    requires i <= |lines| && lines[i..] == LinesOf(c) + rest
    ensures var next := i + |LinesOf(c)|;
            && next <= |lines| && lines[next..] == rest
            && ParseFrom(lines, i, st) == ParseFrom(lines, next, Take(c, st))
  {
    hide Strip, StartsWith, FenceOpens, FenceCloses, FileBody, ValidPath, Names, IsPath, Blank, OpensFence, ClosesFence;
    assert lines[i..][0] == lines[i] && lines[i] == LinesOf(c)[0];
    assert lines[i + |LinesOf(c)|..] == lines[i..][|LinesOf(c)|..];
    match c
    case Prose(line) =>
    case Deleted(line, path) =>
      NamesExactly(line, true, path);
      PathExactly(path);
      IsPathSome(path);
    case Source(_, _, _, _, _, _) => SourceStep(lines, i, c, rest, st);
  }

  lemma EndStep(lines: seq<string>, i: nat, st: Emission, r: Result<Emission, ParseError>)
    requires i <= |lines| && Ends(st, lines[i..], r)
    ensures ParseFrom(lines, i, st) == r
  {
    hide Strip, StartsWith, FenceOpens, FenceCloses, FileBody, ValidPath, Names, IsPath, Fenceless, Unclosed;
    if i < |lines| {
      var rest := lines[i..];
      var delete, path :| Names(rest[0], delete, path) && Fault(st, delete, path, rest[1..], r.error);
      assert rest[1..] == lines[i + 1..];
      NamesExactly(lines[i], delete, path);
      PathExactly(path);
      NoPath();
      if IsPath(path) && !delete && path !in st.files {
        if Fenceless(rest[1..]) {
          FencelessSkips(lines, i + 1);
        }
        if Unclosed(rest[1..]) {
          UnclosedSkips(lines, i + 1);
        }
      }
    }
  }

  lemma NoPath()
    ensures !IsPath("")
  {}

  lemma FencelessSkips(lines: seq<string>, i: nat)
    requires i <= |lines|
    ensures var j := SkipBlank(lines, i);
            Fenceless(lines[i..]) <==> j == |lines| || !FenceOpens(lines[j])
  {
    hide FenceOpens, OpensFence, Blank;
    var after := lines[i..];
    var j := SkipBlank(lines, i);
    SkipsBlanks(lines, i);
    assert forall m :: i <= m < |lines| ==> lines[m] == after[m - i];
    if Fenceless(after) {
      var k :| && 0 <= k <= |after| && BlankUntil(after, k)
               && (k < |after| ==> !Blank(after[k]) && !OpensFence(after[k]));
      SkipBlankAt(lines, i, i + k);
      if i + k < |lines| {
        FencesExactly(lines[i + k]);
      }
    }
    if j < |lines| {
      FencesExactly(lines[j]);
    }
    if j == |lines| || !FenceOpens(lines[j]) {
      assert BlankUntil(after, j - i);
    }
  }

  lemma UnclosedSkips(lines: seq<string>, i: nat)
    requires i <= |lines| && Unclosed(lines[i..])
    ensures var j := SkipBlank(lines, i);
            j < |lines| && FenceOpens(lines[j]) && FindClose(lines, j + 1) == |lines|
  {
    hide FenceOpens, FenceCloses, OpensFence, ClosesFence, Blank, FindClose, SkipBlank;
    var after := lines[i..];
    var k :| && 0 <= k < |after| && BlankUntil(after, k) && OpensFence(after[k])
             && forall m :: k < m < |after| ==> !ClosesFence(after[m]);
    forall m | i <= m < i + k ensures Blank(lines[m]) {
      assert lines[m] == after[m - i];
    }
    FenceNotBlank(after[k]);
    SkipBlankAt(lines, i, i + k);
    FencesExactly(lines[i + k]);
    forall m | i + k < m < |lines| ensures !ClosesFence(lines[m]) {
      assert lines[m] == after[m - i];
    }
    FindsClose(lines, i + k + 1);
  }

  lemma SkipsUnclosed(lines: seq<string>, i: nat)
    requires i <= |lines| && SkipBlank(lines, i) < |lines|
    requires FenceOpens(lines[SkipBlank(lines, i)]) && FindClose(lines, SkipBlank(lines, i) + 1) == |lines|
    ensures Unclosed(lines[i..])
  {
    hide FenceOpens, FenceCloses, OpensFence, ClosesFence, Blank, FindClose, SkipBlank;
    var after := lines[i..];
    var j := SkipBlank(lines, i);
    SkipsBlanks(lines, i);
    FencesExactly(lines[j]);
    FindsClose(lines, j + 1);
    var k := j - i;
    forall m | k < m < |after| ensures !ClosesFence(after[m]) {
      assert lines[m + i] == after[m];
    }
    assert BlankUntil(after, k) && after[k] == lines[j];
  }

  /** Whoever explains the text says what the parser returns. */
  lemma {:induction false} Follow(lines: seq<string>, i: nat, st: Emission, chunks: seq<Chunk>, rest: seq<string>,
                                  r: Result<Emission, ParseError>)
    requires i <= |lines| && lines[i..] == Written(chunks) + rest
    requires AreChunks(chunks) && AllNew(chunks, st) && Ends(Taken(chunks, st), rest, r)
    ensures ParseFrom(lines, i, st) == r
    decreases |chunks|
  {
    hide IsChunk, LinesOf, Take, New, Ends, ParseFrom;
    if chunks == [] {
      assert lines[i..] == rest;
      EndStep(lines, i, st, r);
    } else {
      var c, more := chunks[0], Written(chunks[1..]) + rest;
      assert lines[i..] == LinesOf(c) + more;
      ChunkStep(lines, i, c, more, st);
      Follow(lines, i + |LinesOf(c)|, Take(c, st), chunks[1..], rest, r);
    }
  }

  /** The chunk that the parser reads at `i`, when it reads one. */
  lemma NextChunk(lines: seq<string>, i: nat, st: Emission) returns (c: Chunk)
    requires i < |lines| && !Ends(st, lines[i..], ParseFrom(lines, i, st))
    ensures IsChunk(c) && New(c, st)
    ensures i + |LinesOf(c)| <= |lines| && lines[i..i + |LinesOf(c)|] == LinesOf(c)
  {
    hide Strip, StartsWith, FenceOpens, FenceCloses, FileBody, ValidPath, Names, IsPath, Fenceless, Unclosed, Blank,
      OpensFence, ClosesFence, SkipBlank, FindClose, LinesOf;
    var line, rest := lines[i], lines[i..];
    assert rest[1..] == lines[i + 1..] && rest[0] == line;
    if !StartsWith(line, "## ") {
      c := Prose(line);
      OneLine(c);
    } else {
      var delete := StartsWith(Header(line), DELETE);
      var path := if delete then DeletedPath(Header(line)) else Header(line);
      NamesExactly(line, delete, path);
      PathExactly(path);
      if path != "" && ValidPath(path) {
        if delete {
          c := Deleted(line, path);
          OneLine(c);
        } else if path !in st.files {
          NotAnEnd(lines, i, st, path);
          c := NextSource(lines, i, path);
        }
      }
    }
  }

  lemma NotAnEnd(lines: seq<string>, i: nat, st: Emission, path: string)
    requires i < |lines| && !Ends(st, lines[i..], ParseFrom(lines, i, st))
    requires Names(lines[i], false, path) && IsPath(path) && path !in st.files
    ensures !Fenceless(lines[i + 1..]) && !Unclosed(lines[i + 1..])
  {
    hide Names, IsPath, Fenceless, Unclosed, ParseFrom;
    var rest := lines[i..];
    assert rest[1..] == lines[i + 1..];
    if Fenceless(rest[1..]) {
      assert Fault(st, false, path, rest[1..], MissingFence);
      EndStep(lines, i, st, Err(MissingFence));
    } else if Unclosed(rest[1..]) {
      assert Fault(st, false, path, rest[1..], UnterminatedFence);
      EndStep(lines, i, st, Err(UnterminatedFence));
    }
  }

  lemma OneLine(c: Chunk)
    requires !c.Source?
    ensures LinesOf(c) == [c.line]
  {}

  lemma NextSource(lines: seq<string>, i: nat, path: string) returns (c: Chunk)
    requires i < |lines| && Names(lines[i], false, path) && IsPath(path)
    requires !Fenceless(lines[i + 1..]) && !Unclosed(lines[i + 1..])
    ensures c.Source? && c.path == path && IsChunk(c)
    ensures i + |LinesOf(c)| <= |lines| && lines[i..i + |LinesOf(c)|] == LinesOf(c)
  {
    hide FenceOpens, FenceCloses, Names, IsPath, Fenceless, Unclosed, Blank, OpensFence, ClosesFence, SkipBlank,
      FindClose;
    var j := SkipBlank(lines, i + 1);
    SkipsBlanks(lines, i + 1);
    FencelessSkips(lines, i + 1);
    FencesExactly(lines[j]);
    if FindClose(lines, j + 1) == |lines| {
      SkipsUnclosed(lines, i + 1);
    }
    var close := FindClose(lines, j + 1);
    FindsClose(lines, j + 1);
    c := Source(lines[i], path, lines[i + 1..j], lines[j], lines[j + 1..close], lines[close]);
    Together(lines, i, j, close);
  }

  lemma Together(lines: seq<string>, i: nat, j: nat, close: nat)
    requires i < j < close < |lines|
    ensures [lines[i]] + lines[i + 1..j] + [lines[j]] + lines[j + 1..close] + [lines[close]] == lines[i..close + 1]
  {
    assert [lines[i]] + lines[i + 1..j] == lines[i..j];
    assert lines[i..j] + [lines[j]] == lines[i..j + 1];
    assert lines[i..j + 1] + lines[j + 1..close] == lines[i..close];
  }

  /** The parser's own explanation of a text. */
  lemma {:induction false} Reach(lines: seq<string>, i: nat, st: Emission)
    returns (chunks: seq<Chunk>, rest: seq<string>)
    requires i <= |lines|
    ensures lines[i..] == Written(chunks) + rest && AreChunks(chunks) && AllNew(chunks, st)
    ensures Ends(Taken(chunks, st), rest, ParseFrom(lines, i, st))
    decreases |lines| - i
  {
    hide IsChunk, LinesOf, Take, New, Ends, ParseFrom;
    chunks, rest := [], lines[i..];
    assert Written([]) + rest == rest;
    if !Ends(st, lines[i..], ParseFrom(lines, i, st)) {
      AtEnd(lines, i, st);
      var c := NextChunk(lines, i, st);
      var next := i + |LinesOf(c)|;
      assert lines[i..] == LinesOf(c) + lines[next..];
      ChunkStep(lines, i, c, lines[next..], st);
      SomeLines(c);
      var more;
      more, rest := Reach(lines, next, Take(c, st));
      chunks := [c] + more;
      assert chunks[1..] == more && chunks[0] == c;
      assert lines[i..] == Written(chunks) + rest;
    }
  }

  lemma SomeLines(c: Chunk)
    ensures |LinesOf(c)| > 0
  {}

  lemma AtEnd(lines: seq<string>, i: nat, st: Emission)
    requires i <= |lines|
    ensures i == |lines| ==> Ends(st, lines[i..], ParseFrom(lines, i, st))
  {}

  // ----- what has been read

  lemma {:induction false} TakenHolds(chunks: seq<Chunk>, st: Emission)
    requires AllNew(chunks, st)
    ensures var read := Taken(chunks, st);
            && read.deleted == st.deleted + Deletions(chunks)
            && (forall p :: p in read.files <==> p in st.files || HasFile(chunks, p))
            && (forall p :: p in st.files ==> !HasFile(chunks, p) && read.files[p] == st.files[p])
            && (forall c :: c in chunks && c.Source? ==> read.files[c.path] == FileBody(c.body))
  {
    hide FileBody;
    if chunks != [] {
      TakenHolds(chunks[1..], Take(chunks[0], st));
      assert chunks == [chunks[0]] + chunks[1..];
      forall p ensures HasFile(chunks, p) <==> HasFile(chunks[1..], p) || (chunks[0].Source? && chunks[0].path == p) {
        assert chunks[0] in chunks;
      }
    }
  }

  lemma {:induction false} AllNewIsOnce(chunks: seq<Chunk>, st: Emission)
    requires AllNew(chunks, st)
    ensures forall c :: c in chunks ==> New(c, st)
    ensures NothingTwice(chunks)
  {
    hide FileBody;
    if chunks != [] {
      AllNewIsOnce(chunks[1..], Take(chunks[0], st));
      assert chunks == [chunks[0]] + chunks[1..];
      forall j | 0 < j < |chunks| ensures New(chunks[j], Take(chunks[0], st)) {
        assert chunks[j] == chunks[1..][j - 1];
      }
    }
  }

  lemma {:induction false} NewWhenOnce(chunks: seq<Chunk>, st: Emission)
    requires NothingTwice(chunks) && forall c :: c in chunks ==> New(c, st)
    ensures AllNew(chunks, st)
  {
    hide FileBody;
    if chunks != [] {
      forall c | c in chunks[1..] ensures New(c, Take(chunks[0], st)) {
        var j :| 0 <= j < |chunks[1..]| && chunks[1..][j] == c;
        assert chunks[j + 1] == c && c in chunks;
        assert c.Source? && chunks[0].Source? ==> c.path != chunks[0].path;
        assert c.Deleted? && chunks[0].Deleted? ==> c.path != chunks[0].path;
      }
      assert forall j :: 0 <= j < |chunks[1..]| ==> chunks[1..][j] == chunks[j + 1];
      NewWhenOnce(chunks[1..], Take(chunks[0], st));
    }
  }

  /** `chunks`, and nothing twice in them, is what `text` has in front of `rest`, with the result `r`. */
  ghost predicate Explains(text: string, chunks: seq<Chunk>, read: Emission, rest: seq<string>,
                           r: Result<Emission, ParseError>)
  {
    && SplitLines(text) == Written(chunks) + rest
    && AreChunks(chunks) && NothingTwice(chunks) && Holds(read, chunks)
    && Ends(read, rest, r)
  }

  /** The meaning of every text: the parser returns the emission of its chunks, or the error of the first heading
      that starts none. */
  lemma ParsesExactly(text: string, r: Result<Emission, ParseError>)
    ensures Parse(text) == r <==> exists chunks, read, rest :: Explains(text, chunks, read, rest, r)
  {
    hide SplitLines, AreChunks, Ends, ParseFrom, NothingTwice, AllNew, Taken, New;
    var lines := SplitLines(text);
    assert lines[0..] == lines;
    if Parse(text) == r {
      var chunks, rest := Reach(lines, 0, NOTHING);
      StartHolds(chunks);
      assert Explains(text, chunks, Taken(chunks, NOTHING), rest, r);
    }
    if exists chunks, read, rest :: Explains(text, chunks, read, rest, r) {
      var chunks, read, rest :| Explains(text, chunks, read, rest, r);
      HeldIsTaken(chunks, read);
      Follow(lines, 0, NOTHING, chunks, rest, r);
    }
  }

  lemma StartHolds(chunks: seq<Chunk>)
    requires AllNew(chunks, NOTHING)
    ensures NothingTwice(chunks) && Holds(Taken(chunks, NOTHING), chunks)
  {
    TakenHolds(chunks, NOTHING);
    AllNewIsOnce(chunks, NOTHING);
  }

  lemma HeldIsTaken(chunks: seq<Chunk>, read: Emission)
    requires NothingTwice(chunks) && Holds(read, chunks)
    ensures AllNew(chunks, NOTHING) && read == Taken(chunks, NOTHING)
  {
    NewWhenOnce(chunks, NOTHING);
    StartHolds(chunks);
    var taken := Taken(chunks, NOTHING);
    forall p | p in read.files ensures p in taken.files && taken.files[p] == read.files[p] {
      assert HasFile(chunks, p);
    }
    assert read.files == taken.files;
  }
}
