/** When parsing a serialized stage-3 emission gives the emission back: an exact condition. */
module Stage3RoundTrip {
  import opened Basics
  import opened Text
  import opened Lex
  import opened Stage3

  /** No line of the body is a bare closing fence. */
  predicate Fenceless(body: string) {
    forall l :: l in BodyLines(body) ==> !FenceCloses(l)
  }

  /** Empty, or ending in exactly one newline after a non-empty last line. */
  predicate Canonical(body: string) {
    body == "" || (|body| >= 2 && body[|body| - 1] == '\n' && body[|body| - 2] != '\n')
  }

  /** What the parser makes of a body between its own fences. */
  function Reread(body: string): string {
    FileBody(BodyLines(body))
  }

  lemma RereadKeepsCanonical(body: string)
    requires NewlinesOnly(body)
    ensures Reread(body) == body <==> Canonical(body)
  {
    hide NewlinesOnly, BodyLines, Unlines;
    ClosedBody(body);
    var inner := Join(BodyLines(body));
    JoinUnlines(BodyLines(body));
    EndsWithNewline(body);
    EndsWithNewline(inner);
    assert Closed(body) == inner + "\n";
    assert inner == Closed(body)[..|Closed(body)| - 1];
  }

  // ----- headers

  lemma StripNothing(s: string)
    requires s != "" && forall c :: c in s ==> !IsSpace(c)
    ensures Strip(s) == s
  {}

  lemma FileHeader(path: string)
    requires ValidPath(path)
    ensures StartsWith("## " + path, "## ") && Strip(("## " + path)[3..]) == path
    ensures !StartsWith(path, DELETE)
  {
    PathCharsPlain(path);
    StripNothing(path);
    assert ("## " + path)[3..] == path;
    if |path| > 6 {
      assert path[6] in path;
      assert path[..7][6] != DELETE[6];
    }
  }

  lemma DeletionHeader(path: string)
    requires ValidPath(path)
    ensures StartsWith("## DELETE: " + path, "## ")
    ensures var header := Strip(("## DELETE: " + path)[3..]);
            StartsWith(header, DELETE) && Strip(header[|DELETE|..]) == path
  {
    hide Strip, ValidPath;
    assert ("## DELETE: " + path)[3..] == "DELETE: " + path;
    DeletionTitle(path);
    assert ("DELETE: " + path)[|DELETE|..] == " " + path;
  }

  lemma DeletionTitle(path: string)
    requires ValidPath(path)
    ensures Strip("DELETE: " + path) == "DELETE: " + path
    ensures Strip(" " + path) == path
  {
    hide Strip, IsSpace;
    PathCharsPlain(path);
    assert path[0] in path && path[|path| - 1] in path;
    var header := "DELETE: " + path;
    assert header[|header| - 1] == path[|path| - 1];
    LetterPlain();
    assert "" + header + "" == header;
    StripStop("", header, "");
    assert " " + path + "" == " " + path;
    StripStop(" ", path, "");
  }

  lemma LetterPlain()
    ensures !IsSpace('D') && forall c :: c in " " ==> IsSpace(c)
  {}

  // ----- one block

  /** `block` stands in `lines` at `i`. */
  ghost predicate At(lines: seq<string>, i: nat, block: seq<string>) {
    i + |block| <= |lines| && lines[i..i + |block|] == block
  }

  lemma {:induction false} FindCloseAt(lines: seq<string>, j: nat, close: nat)
    requires j <= close < |lines| && FenceCloses(lines[close])
    requires forall k :: j <= k < close ==> !FenceCloses(lines[k])
    ensures FindClose(lines, j) == close
    decreases close - j
  {
    if j < close {
      FindCloseAt(lines, j + 1, close);
    }
  }

  lemma FenceFacts()
    ensures FenceOpens(FENCE) && FenceCloses(FENCE) && Strip(FENCE) != ""
  {}

  /** A file block whose first closing fence is `close`. */
  lemma ParseBlock(lines: seq<string>, i: nat, path: string, close: nat, st: Emission)
    requires ValidPath(path) && path !in st.files
    requires i + 2 <= close < |lines| && lines[i] == "## " + path && lines[i + 1] == FENCE
    requires FenceCloses(lines[close]) && forall k :: i + 2 <= k < close ==> !FenceCloses(lines[k])
    ensures ParseFrom(lines, i, st) ==
            ParseFrom(lines, close + 1, st.(files := st.files[path := FileBody(lines[i + 2..close])]))
  {
    hide Strip, StartsWith, FenceOpens, FenceCloses, FileBody, ValidPath;
    FileHeader(path);
    FenceFacts();
    NotEmptyPath(path);
    assert SkipBlank(lines, i + 1) == i + 1;
    FindCloseAt(lines, i + 2, close);
  }

  lemma NotEmptyPath(path: string)
    requires ValidPath(path)
    ensures path != ""
  {}

  lemma ParseDeletion(lines: seq<string>, i: nat, path: string, st: Emission)
    requires ValidPath(path) && path !in st.deleted
    requires i < |lines| && lines[i] == "## DELETE: " + path
    ensures ParseFrom(lines, i, st) == ParseFrom(lines, i + 1, st.(deleted := st.deleted + [path]))
  {
    hide Strip, StartsWith, FenceOpens, FenceCloses, FileBody, ValidPath;
    DeletionHeader(path);
    NotEmptyPath(path);
  }

  lemma ParseBlank(lines: seq<string>, i: nat, st: Emission)
    requires i < |lines| && lines[i] == ""
    ensures ParseFrom(lines, i, st) == ParseFrom(lines, i + 1, st)
  {}

  // ----- all blocks

  function ItemRead(item: Item, st: Emission): Emission {
    match item
    case File(path, body) => st.(files := st.files[path := Reread(body)])
    case Deletion(path) => st.(deleted := st.deleted + [path])
  }

  function ItemsRead(items: seq<Item>, st: Emission): Emission
    decreases |items|
  {
    if items == [] then st else ItemsRead(items[1..], ItemRead(items[0], st))
  }

  predicate NewItem(item: Item, st: Emission) {
    if item.File? then item.path !in st.files else item.path !in st.deleted
  }

  predicate Apart(a: Item, b: Item) {
    a.File? == b.File? ==> a.path != b.path
  }

  predicate NewItems(items: seq<Item>, st: Emission) {
    && (forall i :: 0 <= i < |items| ==> NewItem(items[i], st))
    && (forall i, j :: 0 <= i < j < |items| ==> Apart(items[i], items[j]))
  }

  predicate FencelessItem(item: Item) {
    item.File? ==> Fenceless(item.body)
  }

  lemma NewAfterItem(items: seq<Item>, st: Emission)
    requires items != [] && NewItems(items, st)
    ensures NewItems(items[1..], ItemRead(items[0], st))
  {}

  /** One item, its block at `i`. */
  lemma ParseItem(lines: seq<string>, i: nat, item: Item, st: Emission)
    requires GoodItem(item) && FencelessItem(item) && NewItem(item, st) && At(lines, i, Block(item))
    ensures ParseFrom(lines, i, st) == ParseFrom(lines, i + |Block(item)|, ItemRead(item, st))
  {
    hide ParseFrom, FenceCloses, BodyLines, FileBody, ValidPath, NewlinesOnly;
    match item
    case File(path, body) =>
      BlockAt(lines, i, path, body);
      var inner := BodyLines(body);
      FenceFacts();
      forall k | i + 2 <= k < i + 2 + |inner| ensures !FenceCloses(lines[k]) {
        assert lines[i + 2 + (k - i - 2)] == inner[k - i - 2];
      }
      assert inner[..|inner|] == inner;
      ParseBlock(lines, i, path, i + 2 + |inner|, st);
    case Deletion(path) =>
      assert lines[i] == lines[i..i + 1][0];
      ParseDeletion(lines, i, path, st);
  }

  lemma LinesSplit(lines: seq<string>, i: nat, items: seq<Item>)
    requires i <= |lines| && items != [] && lines[i..] == Lines(items)
    ensures At(lines, i, Block(items[0]))
    ensures var end := i + |Block(items[0])|;
            if |items| == 1 then end == |lines|
            else end < |lines| && lines[end] == "" && lines[end + 1..] == Lines(items[1..])
  {}

  lemma {:induction false} ParseItems(lines: seq<string>, i: nat, items: seq<Item>, st: Emission)
    requires i <= |lines| && items != [] && lines[i..] == Lines(items)
    requires GoodItems(items) && NewItems(items, st) && forall item :: item in items ==> FencelessItem(item)
    ensures ParseFrom(lines, i, st) == Ok(ItemsRead(items, st))
    decreases |items|
  {
    hide Lines, Block, GoodItem, FencelessItem, NewItems, At, ParseFrom, ItemRead;
    LinesSplit(lines, i, items);
    var next := ItemRead(items[0], st);
    var end := i + |Block(items[0])|;
    FirstIsNew(items, st);
    ParseItem(lines, i, items[0], st);
    NewAfterItem(items, st);
    if |items| == 1 {
      assert items[1..] == [];
      ParseEnd(lines, items[0], st);
    } else {
      ParseBlank(lines, end, next);
      ParseItems(lines, end + 1, items[1..], next);
    }
  }

  lemma FirstIsNew(items: seq<Item>, st: Emission)
    requires items != [] && NewItems(items, st)
    ensures NewItem(items[0], st)
  {}

  lemma ParseEnd(lines: seq<string>, item: Item, st: Emission)
    ensures ParseFrom(lines, |lines|, ItemRead(item, st)) == Ok(ItemRead(item, st))
  {
    var next := ItemRead(item, st);
    assert item.File? ==> item.path in next.files;
  }

  // ----- emissions

  /** Legal paths, deletions without duplicates, newline-only bodies, and something to emit. */
  predicate Legal(x: Emission) {
    && (x.files != map[] || x.deleted != [])
    && (forall p :: p in x.files ==> ValidPath(p) && NewlinesOnly(x.files[p]))
    && (forall p :: p in x.deleted ==> ValidPath(p))
    && (forall i, j :: 0 <= i < j < |x.deleted| ==> x.deleted[i] != x.deleted[j])
  }

  lemma FileItemsOf(x: Emission)
    ensures var files := FileItems(x, Sorted(x.files.Keys));
            && (forall item :: item in files ==> item.File? && item.path in x.files && x.files[item.path] == item.body)
            && (forall p :: p in x.files ==> File(p, x.files[p]) in files)
            && (forall i, j :: 0 <= i < j < |files| ==> files[i].path != files[j].path)
  {
    var paths := Sorted(x.files.Keys);
    var files := FileItems(x, paths);
    forall p | p in x.files ensures File(p, x.files[p]) in files {
      var i :| 0 <= i < |paths| && paths[i] == p;
      assert files[i] == File(p, x.files[p]);
    }
  }

  lemma LegalItems(x: Emission)
    requires Legal(x)
    ensures Items(x) != [] && GoodItems(Items(x)) && NewItems(Items(x), NOTHING)
    ensures forall item :: item in Items(x) && item.File? ==> item.path in x.files && x.files[item.path] == item.body
    ensures forall p :: p in x.files ==> File(p, x.files[p]) in Items(x)
  {
    hide ValidPath, NewlinesOnly, FileItems, Sorted;
    FileItemsOf(x);
    var files, deletions := FileItems(x, Sorted(x.files.Keys)), DeletionItems(x);
    assert forall item :: item in deletions ==> item.Deletion? && item.path in x.deleted;
    assert forall item :: item in Items(x) <==> item in files || item in deletions;
    forall i, j | 0 <= i < j < |Items(x)| ensures Apart(Items(x)[i], Items(x)[j]) {
      ItemsApart(x, files, deletions, i, j);
    }
    if x.deleted != [] {
      assert deletions[0] in Items(x);
    } else {
      var p :| p in x.files;
      assert File(p, x.files[p]) in Items(x);
    }
  }

  lemma ItemsApart(x: Emission, files: seq<Item>, deletions: seq<Item>, i: nat, j: nat)
    requires deletions == DeletionItems(x)
    requires forall m, n :: 0 <= m < n < |x.deleted| ==> x.deleted[m] != x.deleted[n]
    requires forall item :: item in files ==> item.File?
    requires forall m, n :: 0 <= m < n < |files| ==> files[m].path != files[n].path
    requires i < j < |files + deletions|
    ensures Apart((files + deletions)[i], (files + deletions)[j])
  {}

  /** The dictionary the parser builds from these paths. */
  function RereadFiles(x: Emission, paths: seq<string>): map<string, string>
    requires forall p :: p in paths ==> p in x.files
  {
    map p | p in paths :: Reread(x.files[p])
  }

  lemma RereadMore(x: Emission, paths: seq<string>, files: map<string, string>)
    requires paths != [] && forall p :: p in paths ==> p in x.files
    ensures files[paths[0] := Reread(x.files[paths[0]])] + RereadFiles(x, paths[1..]) == files + RereadFiles(x, paths)
  {
    hide Reread;
    assert paths == [paths[0]] + paths[1..];
    assert forall p :: p in paths <==> p == paths[0] || p in paths[1..];
  }

  lemma {:induction false} FilesRead(x: Emission, paths: seq<string>, more: seq<Item>, st: Emission)
    requires forall p :: p in paths ==> p in x.files
    ensures ItemsRead(FileItems(x, paths) + more, st) ==
            ItemsRead(more, st.(files := st.files + RereadFiles(x, paths)))
    decreases |paths|
  {
    hide Reread, RereadFiles;
    if paths == [] {
      NoneReread(x, paths, st.files);
      assert FileItems(x, paths) + more == more;
    } else {
      var items := FileItems(x, paths) + more;
      assert items[0] == File(paths[0], x.files[paths[0]]);
      assert items[1..] == FileItems(x, paths[1..]) + more;
      FilesRead(x, paths[1..], more, ItemRead(items[0], st));
      RereadMore(x, paths, st.files);
    }
  }

  lemma NoneReread(x: Emission, paths: seq<string>, files: map<string, string>)
    requires paths == []
    ensures files + RereadFiles(x, paths) == files
  {}

  lemma {:induction false} DeletionsRead(items: seq<Item>, deleted: seq<string>, st: Emission)
    requires |items| == |deleted| && forall i :: 0 <= i < |items| ==> items[i] == Deletion(deleted[i])
    ensures ItemsRead(items, st) == st.(deleted := st.deleted + deleted)
    decreases |items|
  {
    if items == [] {
      assert st.deleted + deleted == st.deleted;
    } else {
      DeletionsRead(items[1..], deleted[1..], ItemRead(items[0], st));
      assert st.deleted + [deleted[0]] + deleted[1..] == st.deleted + deleted;
    }
  }

  /** Without bare closing fences, the parser reads back every path and deletion, and each body as `Reread` says,
      whatever headings or opening fences the bodies contain. */
  lemma ParseOfSerialized(x: Emission)
    requires Legal(x) && forall p :: p in x.files ==> Fenceless(x.files[p])
    ensures Parse(Serialize(x)) == Ok(Emission(map p | p in x.files :: Reread(x.files[p]), x.deleted))
  {
    hide Fenceless, GoodItems, NewItems, Lines, Serialize, ParseFrom, Legal, ItemsRead, Items;
    LegalItems(x);
    SerializedLines(x);
    var lines := SplitLines(Serialize(x));
    assert lines[0..] == lines;
    assert forall item :: item in Items(x) ==> FencelessItem(item);
    ParseItems(lines, 0, Items(x), NOTHING);
    AllRead(x);
  }

  lemma AllRead(x: Emission)
    ensures ItemsRead(Items(x), NOTHING) == Emission(map p | p in x.files :: Reread(x.files[p]), x.deleted)
  {
    hide ItemsRead, Reread;
    var paths := Sorted(x.files.Keys);
    FilesRead(x, paths, DeletionItems(x), NOTHING);
    var files := map[] + RereadFiles(x, paths);
    DeletionsRead(DeletionItems(x), x.deleted, Emission(files, []));
    assert files == map p | p in x.files :: Reread(x.files[p]);
    assert [] + x.deleted == x.deleted;
  }

  // ----- a bare closing fence in a body loses the rest of it

  ghost predicate Extends(st: Emission, r: Result<Emission, ParseError>) {
    r.Ok? ==>
      && st.deleted <= r.value.deleted
      && forall p :: p in st.files ==> p in r.value.files && r.value.files[p] == st.files[p]
  }

  /** Whatever follows, a file or deletion that has been read stays as it is. */
  lemma {:induction false} FilesStay(lines: seq<string>, i: nat, st: Emission)
    requires i <= |lines|
    ensures Extends(st, ParseFrom(lines, i, st))
    decreases |lines| - i
  {
    hide Strip, StartsWith, FenceOpens, FenceCloses, FileBody, ValidPath;
    if i < |lines| {
      if !StartsWith(lines[i], "## ") {
        FilesStay(lines, i + 1, st);
      } else {
        var header := Header(lines[i]);
        if StartsWith(header, DELETE) {
          FilesStay(lines, i + 1, st.(deleted := st.deleted + [DeletedPath(header)]));
        } else if header !in st.files {
          var j := SkipBlank(lines, i + 1);
          if j < |lines| {
            var close := FindClose(lines, j + 1);
            if close < |lines| {
              var next := st.(files := st.files[header := FileBody(lines[j + 1..close])]);
              FilesStay(lines, close + 1, next);
              assert Extends(st, ParseFrom(lines, close + 1, next)) by {
                assert forall p :: p in st.files ==> p in next.files && next.files[p] == st.files[p];
              }
            }
          }
        }
      }
    }
  }

  lemma FirstFence(inner: seq<string>) returns (k: nat)
    requires exists l :: l in inner && FenceCloses(l)
    ensures k < |inner| && FenceCloses(inner[k]) && forall j :: 0 <= j < k ==> !FenceCloses(inner[j])
  {
    k := 0;
    while !FenceCloses(inner[k])
      invariant k < |inner| && forall j :: 0 <= j < k ==> !FenceCloses(inner[j])
      invariant exists l :: l in inner[k..] && FenceCloses(l)
      decreases |inner| - k
    {
      var l :| l in inner[k..] && FenceCloses(l);
      assert inner[k..] == [inner[k]] + inner[k + 1..];
      assert l in inner[k + 1..];
      k := k + 1;
    }
  }

  lemma TruncatedBodyShorter(body: string, k: nat)
    requires NewlinesOnly(body) && k < |BodyLines(body)| && FenceCloses(BodyLines(body)[k])
    ensures |FileBody(BodyLines(body)[..k])| < |body|
  {
    hide NewlinesOnly, BodyLines;
    ClosedBody(body);
    var inner := BodyLines(body);
    assert inner == inner[..k] + [inner[k]] + inner[k + 1..];
    UnlinesConcat(inner[..k] + [inner[k]], inner[k + 1..]);
    UnlinesConcat(inner[..k], [inner[k]]);
    UnlinesOne(inner[k]);
    if k > 0 {
      JoinUnlines(inner[..k]);
    }
  }

  /** A file block with a bare fence inside is cut short there. */
  lemma ParseCutBlock(lines: seq<string>, i: nat, path: string, body: string, st: Emission)
    requires GoodItem(File(path, body)) && !Fenceless(body) && path !in st.files
             && At(lines, i, Block(File(path, body)))
    ensures var r := ParseFrom(lines, i, st);
            r.Ok? ==> path in r.value.files && |r.value.files[path]| < |body|
  {
    hide ParseFrom, FenceCloses, BodyLines, FileBody, ValidPath, NewlinesOnly, At;
    BlockAt(lines, i, path, body);
    var inner := BodyLines(body);
    var k := FirstFence(inner);
    var close := i + 2 + k;
    assert lines[close] == inner[k];
    forall m | i + 2 <= m < close ensures !FenceCloses(lines[m]) {
      assert lines[i + 2 + (m - i - 2)] == inner[m - i - 2];
    }
    ParseBlock(lines, i, path, close, st);
    TruncatedBodyShorter(body, k);
    FilesStay(lines, close + 1, st.(files := st.files[path := FileBody(inner[..k])]));
  }

  lemma BlockAt(lines: seq<string>, i: nat, path: string, body: string)
    requires At(lines, i, Block(File(path, body)))
    ensures var inner := BodyLines(body);
            && i + 3 + |inner| <= |lines| && lines[i] == "## " + path && lines[i + 1] == FENCE
            && lines[i + 2 + |inner|] == FENCE
            && (forall k :: 0 <= k < |inner| ==> lines[i + 2 + k] == inner[k])
            && (forall k :: 0 <= k <= |inner| ==> lines[i + 2..i + 2 + k] == inner[..k])
  {
    hide BodyLines;
    var inner, block := BodyLines(body), Block(File(path, body));
    assert forall k :: 0 <= k < |block| ==> lines[i + k] == lines[i..i + |block|][k] == block[k];
    forall k | 0 <= k < |inner| ensures lines[i + 2 + k] == inner[k] {
      assert lines[i + (2 + k)] == block[2 + k];
    }
    assert lines[i + (2 + |inner|)] == block[2 + |inner|];
    assert lines[i + 0] == block[0] && lines[i + 1] == block[1];
  }

  lemma {:induction false} ParseCutItems(lines: seq<string>, i: nat, items: seq<Item>, st: Emission)
    requires i <= |lines| && items != [] && lines[i..] == Lines(items)
    requires GoodItems(items) && NewItems(items, st) && exists item :: item in items && !FencelessItem(item)
    ensures var r := ParseFrom(lines, i, st);
            r.Ok? ==> exists item :: item in items && item.File? && item.path in r.value.files
                                     && |r.value.files[item.path]| < |item.body|
    decreases |items|
  {
    hide Lines, Block, GoodItem, NewItems, At, ParseFrom, Fenceless, ItemRead;
    LinesSplit(lines, i, items);
    FirstIsNew(items, st);
    assert items == [items[0]] + items[1..];
    if !FencelessItem(items[0]) {
      ParseCutBlock(lines, i, items[0].path, items[0].body, st);
      assert items[0] in items;
    } else {
      var next, end := ItemRead(items[0], st), i + |Block(items[0])|;
      ParseItem(lines, i, items[0], st);
      NewAfterItem(items, st);
      ParseBlank(lines, end, next);
      ParseCutItems(lines, end + 1, items[1..], next);
    }
  }

  // ----- what the parser can return at all

  lemma {:induction false} JoinNewlinesOnly(lines: seq<string>)
    requires forall l :: l in lines ==> NoBreak(l)
    ensures NewlinesOnly(Join(lines)) && NewlinesOnly(FileBody(lines))
  {
    if |lines| == 1 {
      assert lines[0] in lines;
    } else if |lines| > 1 {
      assert lines[0] in lines;
      JoinNewlinesOnly(lines[1..]);
    }
  }

  /** What the parser has read so far: valid paths, newline-only bodies, no deletion twice. */
  predicate Sound(st: Emission) {
    && (forall p :: p in st.files ==> ValidPath(p) && NewlinesOnly(st.files[p]))
    && (forall p :: p in st.deleted ==> ValidPath(p))
    && (forall i, j :: 0 <= i < j < |st.deleted| ==> st.deleted[i] != st.deleted[j])
  }

  lemma FileSound(st: Emission, path: string, body: string)
    requires Sound(st) && ValidPath(path) && NewlinesOnly(body)
    ensures Sound(st.(files := st.files[path := body]))
  {}

  lemma DeletionSound(st: Emission, path: string)
    requires Sound(st) && ValidPath(path) && path !in st.deleted
    ensures Sound(st.(deleted := st.deleted + [path]))
  {}

  lemma {:induction false} ReadsLegal(lines: seq<string>, i: nat, st: Emission)
    requires i <= |lines| && Sound(st) && forall l :: l in lines ==> NoBreak(l)
    ensures ParseFrom(lines, i, st).Ok? ==> Legal(ParseFrom(lines, i, st).value)
    decreases |lines| - i
  {
    hide Strip, StartsWith, FenceOpens, FenceCloses, FileBody, ValidPath, Sound, NoBreak, NewlinesOnly;
    if i == |lines| {
      SoundIsLegal(st);
    } else if !StartsWith(lines[i], "## ") {
      ReadsLegal(lines, i + 1, st);
    } else if StartsWith(Header(lines[i]), DELETE) {
      var path := DeletedPath(Header(lines[i]));
      if ValidPath(path) && path !in st.deleted {
        DeletionSound(st, path);
        ReadsLegal(lines, i + 1, st.(deleted := st.deleted + [path]));
      }
    } else {
      var path := Header(lines[i]);
      var j := SkipBlank(lines, i + 1);
      if ValidPath(path) && j < |lines| {
        var close := FindClose(lines, j + 1);
        if close < |lines| {
          JoinNewlinesOnly(lines[j + 1..close]);
          FileSound(st, path, FileBody(lines[j + 1..close]));
          ReadsLegal(lines, close + 1, st.(files := st.files[path := FileBody(lines[j + 1..close])]));
        }
      }
    }
  }

  lemma SoundIsLegal(st: Emission)
    requires Sound(st)
    ensures st.files != map[] || st.deleted != [] ==> Legal(st)
  {}

  /** Whatever the text, what is read from it is legal: so nothing else can survive a round trip. */
  lemma ParsedIsLegal(text: string)
    ensures Parse(text).Ok? ==> Legal(Parse(text).value)
  {
    hide Legal, ParseFrom;
    SplitHasNoBreaks(text);
    ReadsLegal(SplitLines(text), 0, NOTHING);
  }

  /** The exact condition, for every emission there is: it survives serialize-then-parse if and only if it is legal,
      and every body is canonical and has no bare closing fence in it. */
  lemma RoundTripsExactly(x: Emission)
    ensures Parse(Serialize(x)) == Ok(x) <==>
            Legal(x) && forall p :: p in x.files ==> Canonical(x.files[p]) && Fenceless(x.files[p])
  {
    hide Canonical, Fenceless, Serialize, Parse, Legal;
    ParsedIsLegal(Serialize(x));
    if Legal(x) {
      LegalRoundTrip(x);
    }
  }

  lemma LegalRoundTrip(x: Emission)
    requires Legal(x)
    ensures Parse(Serialize(x)) == Ok(x) <==>
            forall p :: p in x.files ==> Canonical(x.files[p]) && Fenceless(x.files[p])
  {
    hide Canonical, Fenceless, Serialize, Reread, NewlinesOnly, ValidPath, ParseFrom, GoodItems, NewItems, Lines;
    if forall p :: p in x.files ==> Fenceless(x.files[p]) {
      ParseOfSerialized(x);
      var read := map p | p in x.files :: Reread(x.files[p]);
      forall p | p in x.files ensures read[p] == x.files[p] <==> Canonical(x.files[p]) {
        RereadKeepsCanonical(x.files[p]);
      }
      assert read == x.files <==> forall p :: p in x.files ==> read[p] == x.files[p];
    } else {
      LegalItems(x);
      SerializedLines(x);
      var lines := SplitLines(Serialize(x));
      assert lines[0..] == lines;
      var p :| p in x.files && !Fenceless(x.files[p]);
      assert File(p, x.files[p]) in Items(x) && !FencelessItem(File(p, x.files[p]));
      ParseCutItems(lines, 0, Items(x), NOTHING);
    }
  }
}
