/** The stage-3 files map (markdown_io.py): its parser, its serializer, and exactly when they are inverse. */
module Stage3 {
  import opened Basics
  import opened Text
  import opened Lex

  datatype Emission = Emission(files: map<string, string>, deleted: seq<string>)

  datatype ParseError =
    | EmptyPath | InvalidPath | DuplicateDelete | DuplicateFile | MissingFence | UnterminatedFence | NoSections

  const FENCE := "```"

  predicate PathChar(c: char) {
    'A' <= c <= 'Z' || 'a' <= c <= 'z' || '0' <= c <= '9' || c == '_' || c == '.' || c == '/' || c == '-'
  }

  /** `[A-Za-z0-9_./-]+` */
  predicate ValidPath(p: string) {
    p != "" && forall c :: c in p ==> PathChar(c)
  }

  predicate TagChar(c: char) {
    'A' <= c <= 'Z' || 'a' <= c <= 'z' || '0' <= c <= '9' || c == '_' || c == '+' || c == '-'
  }

  /** Three backticks, an optional language tag, trailing whitespace. */
  predicate FenceOpens(line: string) {
    StartsWith(line, FENCE) && forall c :: c in RStrip(line[3..]) ==> TagChar(c)
  }

  predicate FenceCloses(line: string) {
    StartsWith(line, FENCE) && RStrip(line[3..]) == ""
  }

  // ----- the parser

  function SkipBlank(lines: seq<string>, j: nat): (r: nat)
    ensures j <= |lines| ==> j <= r <= |lines|
    decreases |lines| - j
  {
    if j < |lines| && Strip(lines[j]) == "" then SkipBlank(lines, j + 1) else j
  }

  function FindClose(lines: seq<string>, j: nat): (r: nat)
    ensures j <= |lines| ==> j <= r <= |lines|
    decreases |lines| - j
  {
    if j < |lines| && !FenceCloses(lines[j]) then FindClose(lines, j + 1) else j
  }

  /** The body of a fenced block: its lines, with a final newline unless there is one or nothing at all. */
  function FileBody(lines: seq<string>): string {
    var body := Join(lines);
    if body != "" && !EndsWith(body, "\n") then body + "\n" else body
  }

  const DELETE := "DELETE:"

  function ParseFrom(lines: seq<string>, i: nat, st: Emission): Result<Emission, ParseError>
    requires i <= |lines|
    decreases |lines| - i
  {
    if i == |lines| then
      if st.files == map[] && st.deleted == [] then Err(NoSections) else Ok(st)
    else if !StartsWith(lines[i], "## ") then ParseFrom(lines, i + 1, st)
    else
      var header := Strip(lines[i][3..]);
      var delete := StartsWith(header, DELETE);
      var path := if delete then Strip(header[|DELETE|..]) else header;
      if path == "" then Err(EmptyPath)
      else if !ValidPath(path) then Err(InvalidPath)
      else if delete then
        if path in st.deleted then Err(DuplicateDelete)
        else ParseFrom(lines, i + 1, st.(deleted := st.deleted + [path]))
      else if path in st.files then Err(DuplicateFile)
      else
        var j := SkipBlank(lines, i + 1);
        if j == |lines| || !FenceOpens(lines[j]) then Err(MissingFence)
        else
          var close := FindClose(lines, j + 1);
          if close == |lines| then Err(UnterminatedFence)
          else ParseFrom(lines, close + 1, st.(files := st.files[path := FileBody(lines[j + 1..close])]))
  }

  const NOTHING := Emission(map[], [])

  function Parse(text: string): Result<Emission, ParseError> {
    ParseFrom(SplitLines(text), 0, NOTHING)
  }

  method ParseStage3(text: string) returns (r: Result<Emission, ParseError>)
    ensures r == Parse(text)
  {
    hide StartsWith, Strip, ValidPath, FenceOpens, FenceCloses, SplitLines, EndsWith, Join;
    var lines := SplitLines(text);
    var n := |lines|;
    var files: map<string, string>, deleted: seq<string> := map[], [];
    var i := 0;
    while i < n
      invariant 0 <= i <= n
      invariant ParseFrom(lines, 0, NOTHING) == ParseFrom(lines, i, Emission(files, deleted))
    {
      var line := lines[i];
      if !StartsWith(line, "## ") {
        i := i + 1;
        continue;
      }
      var header := Header(line);
      var delete := StartsWith(header, DELETE);
      var path := if delete then DeletedPath(header) else header;
      if path == "" {
        return Err(EmptyPath);
      }
      if !ValidPath(path) {
        return Err(InvalidPath);
      }
      if delete {
        if path in deleted {
          return Err(DuplicateDelete);
        }
        deleted := deleted + [path];
        i := i + 1;
        continue;
      }
      if path in files {
        return Err(DuplicateFile);
      }
      var j := i + 1;
      while j < n && Strip(lines[j]) == ""
        invariant i + 1 <= j <= n
        invariant SkipBlank(lines, i + 1) == SkipBlank(lines, j)
      {
        j := j + 1;
      }
      if j >= n || !FenceOpens(lines[j]) {
        return Err(MissingFence);
      }
      var close := j + 1;
      while close < n && !FenceCloses(lines[close])
        invariant j + 1 <= close <= n
        invariant FindClose(lines, j + 1) == FindClose(lines, close)
      {
        close := close + 1;
      }
      if close >= n {
        return Err(UnterminatedFence);
      }
      var body := Join(lines[j + 1..close]);
      if body != "" && !EndsWith(body, "\n") {
        body := body + "\n";
      }
      files := files[path := body];
      i := close + 1;
    }
    r := if files == map[] && deleted == [] then Err(NoSections) else Ok(Emission(files, deleted));
  }

  function Header(line: string): string
    requires StartsWith(line, "## ")
  {
    Strip(line[3..])
  }

  function DeletedPath(header: string): string
    requires StartsWith(header, DELETE)
  {
    Strip(header[|DELETE|..])
  }

  // ----- the serializer

  datatype Item = File(path: string, body: string) | Deletion(path: string)

  /** What `serialize_stage3` appends for one file or one deletion. */
  function EmitItem(item: Item): string {
    match item
    case File(path, body) =>
      "## " + path + "\n" + "```\n" + body + (if EndsWith(body, "\n") then "" else "\n") + "```\n\n"
    case Deletion(path) => "## DELETE: " + path + "\n\n"
  }

  function Emit(items: seq<Item>): string {
    if items == [] then "" else EmitItem(items[0]) + Emit(items[1..])
  }

  function FileItems(x: Emission, paths: seq<string>): seq<Item>
    requires forall p :: p in paths ==> p in x.files
  {
    seq(|paths|, i requires 0 <= i < |paths| => File(paths[i], x.files[paths[i]]))
  }

  function DeletionItems(x: Emission): seq<Item> {
    seq(|x.deleted|, i requires 0 <= i < |x.deleted| => Deletion(x.deleted[i]))
  }

  /** Files by path, then deletions in their order. */
  function Items(x: Emission): seq<Item> {
    FileItems(x, Sorted(x.files.Keys)) + DeletionItems(x)
  }

  function Serialize(x: Emission): string {
    RStrip(Emit(Items(x))) + "\n"
  }

  method SerializeStage3(x: Emission) returns (text: string)
    ensures text == Serialize(x)
  {
    hide EmitItem, Emit, RStrip;
    var out := "";
    var paths := Sorted(x.files.Keys);
    ghost var items := Items(x);
    EmitNone(items);
    for i := 0 to |paths|
      invariant out == Emit(items[..i])
    {
      EmitStep(items, i);
      out := out + EmitItem(File(paths[i], x.files[paths[i]]));
    }
    for i := 0 to |x.deleted|
      invariant out == Emit(items[..|paths| + i])
    {
      EmitStep(items, |paths| + i);
      out := out + EmitItem(Deletion(x.deleted[i]));
    }
    assert items[..|items|] == items;
    text := RStrip(out) + "\n";
  }

  lemma EmitNone(items: seq<Item>)
    ensures Emit(items[..0]) == ""
  {}

  lemma EmitStep(items: seq<Item>, k: nat)
    requires k < |items|
    ensures Emit(items[..k + 1]) == Emit(items[..k]) + EmitItem(items[k])
  {
    assert items[..k + 1] == items[..k] + [items[k]];
    EmitAppend(items[..k], items[k]);
  }

  lemma {:induction false} EmitAppend(items: seq<Item>, item: Item)
    ensures Emit(items + [item]) == Emit(items) + EmitItem(item)
  {
    if items == [] {
      assert items + [item] == [item];
      assert [item][1..] == [];
    } else {
      assert (items + [item])[1..] == items[1..] + [item];
      EmitAppend(items[1..], item);
    }
  }

  // ----- the text in lines

  function Closed(body: string): string {
    if EndsWith(body, "\n") then body else body + "\n"
  }

  /** The lines between the fences. */
  function BodyLines(body: string): seq<string> {
    SplitLines(Closed(body))
  }

  function Block(item: Item): seq<string> {
    match item
    case File(path, body) => ["## " + path, FENCE] + BodyLines(body) + [FENCE]
    case Deletion(path) => ["## DELETE: " + path]
  }

  /** Blocks, one blank line apart. */
  function Lines(items: seq<Item>): seq<string> {
    if items == [] then []
    else if |items| == 1 then Block(items[0])
    else Block(items[0]) + [""] + Lines(items[1..])
  }

  predicate GoodItem(item: Item) {
    ValidPath(item.path) && (item.File? ==> NewlinesOnly(item.body))
  }

  predicate GoodItems(items: seq<Item>) {
    forall item :: item in items ==> GoodItem(item)
  }

  lemma PathCharsPlain(p: string)
    requires ValidPath(p)
    ensures NoBreak(p) && forall c :: c in p ==> !IsSpace(c) && c != ':'
  {}

  lemma ClosedBody(body: string)
    requires NewlinesOnly(body)
    ensures NewlinesOnly(Closed(body)) && EndsWith(Closed(body), "\n")
    ensures BodyLines(body) != [] && Unlines(BodyLines(body)) == Closed(body)
    ensures forall l :: l in BodyLines(body) ==> NoBreak(l)
  {
    EndsWithNewline(Closed(body));
    LinesOf(Closed(body));
  }

  lemma NoBreakConcat(a: string, b: string)
    requires NoBreak(a) && NoBreak(b)
    ensures NoBreak(a + b)
  {}

  lemma NoBreakLiterals()
    ensures NoBreak("## ") && NoBreak("## DELETE: ") && NoBreak(FENCE) && !IsSpace('`')
  {}

  lemma FileBlock(path: string, body: string)
    requires GoodItem(File(path, body))
    ensures EmitItem(File(path, body)) == Unlines(Block(File(path, body))) + "\n"
    ensures forall l :: l in Block(File(path, body)) ==> NoBreak(l)
  {
    hide Unlines, NoBreak, BodyLines, EndsWith;
    PathCharsPlain(path);
    NoBreakLiterals();
    NoBreakConcat("## ", path);
    ClosedBody(body);
    var title, lines := "## " + path, BodyLines(body);
    UnlinesConcat([title, FENCE] + lines, [FENCE]);
    UnlinesConcat([title, FENCE], lines);
    UnlinesCons(title, [FENCE]);
    UnlinesOne(FENCE);
    assert [title, FENCE] == [title] + [FENCE];
    var text := Unlines(Block(File(path, body)));
    assert text == title + "\n" + (FENCE + "\n") + Closed(body) + (FENCE + "\n");
    assert text == "## " + path + "\n" + "```\n" + Closed(body) + "```\n";
  }

  lemma UnlinesOne(line: string)
    ensures Unlines([line]) == line + "\n"
  {}

  lemma DeletionBlock(path: string)
    requires ValidPath(path)
    ensures EmitItem(Deletion(path)) == Unlines(Block(Deletion(path))) + "\n"
    ensures NoBreak("## DELETE: " + path)
    ensures !IsSpace(path[|path| - 1])
  {
    hide NoBreak, IsSpace;
    PathCharsPlain(path);
    NoBreakLiterals();
    NoBreakConcat("## DELETE: ", path);
    UnlinesOne("## DELETE: " + path);
    assert path[|path| - 1] in path;
  }

  lemma BlockLines(item: Item)
    requires GoodItem(item)
    ensures Block(item) != [] && EmitItem(item) == Unlines(Block(item)) + "\n"
    ensures forall l :: l in Block(item) ==> NoBreak(l)
    ensures var last := Block(item)[|Block(item)| - 1]; last != "" && !IsSpace(last[|last| - 1])
  {
    hide NoBreak, IsSpace, EmitItem, Unlines, BodyLines;
    NoBreakLiterals();
    match item
    case File(path, body) => FileBlock(path, body);
    case Deletion(path) =>
      DeletionBlock(path);
      var line := "## DELETE: " + path;
      assert line[|line| - 1] == path[|path| - 1];
  }

  /** The last line ends in something that stripping leaves alone. */
  ghost predicate EndsPlain(lines: seq<string>) {
    lines != [] && var last := lines[|lines| - 1]; last != "" && !IsSpace(last[|last| - 1])
  }

  lemma UnlinesBlank(first: seq<string>, rest: seq<string>)
    ensures Unlines(first + [""] + rest) == Unlines(first) + "\n" + Unlines(rest)
  {
    UnlinesConcat(first + [""], rest);
    UnlinesConcat(first, [""]);
    UnlinesOne("");
  }

  lemma {:induction false} EmitLines(items: seq<Item>)
    requires items != [] && GoodItems(items)
    ensures EndsPlain(Lines(items)) && Emit(items) == Unlines(Lines(items)) + "\n"
    ensures forall l :: l in Lines(items) ==> NoBreak(l)
  {
    hide EmitItem, Block, GoodItem, IsSpace, NoBreak, Unlines;
    BlockLines(items[0]);
    if |items| == 1 {
      assert Emit(items[1..]) == "";
      assert EmitItem(items[0]) + "" == EmitItem(items[0]);
    } else {
      EmitLines(items[1..]);
      UnlinesBlank(Block(items[0]), Lines(items[1..]));
      EmptyLinePlain();
    }
  }

  lemma EmptyLinePlain()
    ensures NoBreak("")
  {}

  /** The serialized text, line by line: stripping the end removes exactly the blank line after the last block. */
  lemma SerializedLines(x: Emission)
    requires Items(x) != [] && GoodItems(Items(x))
    ensures SplitLines(Serialize(x)) == Lines(Items(x))
  {
    hide Items, GoodItems, Lines, Emit, IsSpace, NoBreak, SplitLines;
    var items := Items(x);
    var lines := Lines(items);
    EmitLines(items);
    JoinUnlines(lines);
    JoinEnd(lines);
    var core := Join(lines);
    assert Emit(items) == core + "\n\n";
    NewlinesAreSpaces();
    RStripStop(core, "\n\n");
    SplitUnlinesExactly(lines);
  }

  lemma NewlinesAreSpaces()
    ensures forall c :: c in "\n\n" ==> IsSpace(c)
  {}

  lemma {:induction false} JoinEnd(lines: seq<string>)
    requires lines != [] && lines[|lines| - 1] != ""
    ensures Join(lines) != "" && Join(lines)[|Join(lines)| - 1] == lines[|lines| - 1][|lines[|lines| - 1]| - 1]
  {
    if |lines| > 1 {
      JoinEnd(lines[1..]);
    }
  }
}
