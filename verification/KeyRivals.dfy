/**
  Which requests share their key text with another request (artifact_cache.rs), for every request there is:
  first among all requests, then among those whose manifest fields are single lines. Either way the answer can be
  read off the lines of the one request.
*/
module KeyRivals {
  import opened Basics
  import opened BuildKey
  import opened Lex
  import opened Newlines
  import opened RunnerVersion
  import opened Text

  /** Another request, not merely reordered, with the same key text. */
  predicate Rival(a: Request, b: Request) {
    !SameRequest(a, b) && Preimage(a) == Preimage(b)
  }

  /** The lines could also be cut somewhere else. */
  ghost predicate OtherCut(a: Request) {
    exists i: nat :: i != |FrontLines(a)| && FrontEndsAt(KeyLines(a), i)
  }

  predicate NoDeps(m: Manifest) {
    m.dependencies == [] && m.devDependencies == [] && m.buildDependencies == []
  }

  predicate SingleLine(r: Request) {
    && Line(r.manifest.name) && Line(r.manifest.version)
    && LineDeps(r.manifest.dependencies) && LineDeps(r.manifest.devDependencies)
    && LineDeps(r.manifest.buildDependencies)
  }

  // ----- reading lines back

  lemma KeyLinesAreLines(r: Request)
    ensures AllLines(KeyLines(r))
  {
    hide Preimage, KeyLines;
    PreimageLines(r);
    LinesAreLines(Preimage(r));
  }

  lemma SchemaOf(lines: seq<string>) returns (schema: Option<string>)
    requires AllLines(lines) && (lines == [] || StartsWith(lines[0], SCHEMA))
    ensures SchemaLines(schema) == lines
  {
    if lines == [] {
      schema := None;
    } else {
      JoinStarts(lines, SCHEMA);
      schema := Some(Join(lines)[|SCHEMA|..]);
      assert SCHEMA + schema.value == Join(lines);
      LinesOfJoin(lines);
    }
  }

  lemma NoDepLines(m: Manifest)
    requires NoDeps(m)
    ensures AllDepLines(m) == [] && LinesOfAll(AllDepLines(m)) == []
  {}

  /** Wherever the lines can be cut there is a request without dependencies that reads like them, with as many
      lines of source as one likes. */
  lemma ReadAt(t: seq<string>, i: nat, j: nat) returns (b: Request)
    requires AllLines(t) && FrontEndsAt(t, i) && 1 <= j <= i - 2
    ensures KeyLines(b) == t && FrontLines(b) == t[..i] && NoDeps(b.manifest)
    ensures b.source == Join(t[..j]) && b.manifest.name == t[j] && b.manifest.version == Join(t[j + 1..i])
  {
    hide Lines, Display, SchemaLines, StartsWith, AllDepLines;
    var v :| Display(v) == t[i + 1];
    var rest := t[i + 2..];
    assert rest == [] || rest[0] == t[i + 2];
    var schema := SchemaOf(rest);
    b := Request(Join(t[..j]), Manifest(t[j], Join(t[j + 1..i]), [], [], []), v, schema);
    LinesOfJoin(t[..j]);
    LinesOfLine(t[j]);
    LinesOfJoin(t[j + 1..i]);
    NoDepLines(b.manifest);
    assert FrontLines(b) == t[..j] + [t[j]] + t[j + 1..i] + [] == t[..i];
    assert t == t[..i] + [t[i], t[i + 1]] + rest;
  }

  lemma SameSizes(a: Manifest, b: Manifest)
    requires SameUpToOrder(a, b)
    ensures |a.dependencies| == |b.dependencies| && |a.devDependencies| == |b.devDependencies|
    ensures |a.buildDependencies| == |b.buildDependencies|
  {
    assert |multiset(a.dependencies)| == |multiset(b.dependencies)|;
    assert |multiset(a.devDependencies)| == |multiset(b.devDependencies)|;
    assert |multiset(a.buildDependencies)| == |multiset(b.buildDependencies)|;
  }

  lemma BareRival(a: Request, b: Request)
    requires NoDeps(b.manifest) && KeyLines(a) == KeyLines(b) && a != b
    ensures Rival(a, b)
  {
    hide Preimage, KeyLines;
    SameTextSameLines(a, b);
    if SameRequest(a, b) {
      SameSizes(a.manifest, b.manifest);
    }
  }

  lemma ThreeOrMore(r: Request)
    ensures |FrontLines(r)| >= 3
  {
    assert |Lines(r.source)| >= 1 && |Lines(r.manifest.name)| >= 1 && |Lines(r.manifest.version)| >= 1;
  }

  // ----- among all requests

  /** A request shares its key text with another one exactly when there are more than three lines in front of its
      runner version, or the lines can be cut elsewhere too. */
  lemma RivalExactly(a: Request)
    ensures (exists b :: Rival(a, b)) <==> |FrontLines(a)| > 3 || OtherCut(a)
  {
    hide SameRequest, FrontLines, KeyLines, FrontEndsAt, Preimage;
    var t, n := KeyLines(a), |FrontLines(a)|;
    KeyLinesAreLines(a);
    OwnCut(a);
    if OtherCut(a) {
      var i: nat :| i != n && FrontEndsAt(t, i);
      CutBound(t, i);
      var b := ReadAt(t, i, 1);
      BareRival(a, b);
    } else if n > 3 {
      var b := ReadAt(t, n, 1);
      var c := ReadAt(t, n, 2);
      CutBound(t, n);
      DifferentSources(t);
      if a == b {
        BareRival(a, c);
      } else {
        BareRival(a, b);
      }
    }
    if !OtherCut(a) && n <= 3 && exists b :: Rival(a, b) {
      var b :| Rival(a, b);
      NoRival(a, b);
    }
  }

  lemma CutBound(t: seq<string>, i: nat)
    requires FrontEndsAt(t, i)
    ensures 3 <= i < |t|
  {}

  lemma DifferentSources(t: seq<string>)
    requires |t| >= 3
    ensures Join(t[..1]) != Join(t[..2])
  {
    assert t[..1] == [t[0]] && t[..2][1..] == [t[1]];
    assert Join(t[..2]) == t[0] + "\n" + Join([t[1]]);
    assert |Join(t[..2])| > |t[0]|;
  }

  lemma NoRival(a: Request, b: Request)
    requires !OtherCut(a) && |FrontLines(a)| <= 3 && Preimage(a) == Preimage(b)
    ensures SameRequest(a, b)
  {
    hide Preimage, FrontEndsAt, Lines, AllDepLines, LinesOfAll;
    SameTextSameLines(a, b);
    OwnCut(b);
    SameFront(a, b);
    ThreeLines(a);
    ThreeLines(b);
    LinesDetermine(a.source, b.source);
    LinesDetermine(a.manifest.name, b.manifest.name);
    LinesDetermine(a.manifest.version, b.manifest.version);
  }

  lemma SameFront(a: Request, b: Request)
    requires KeyLines(a) == KeyLines(b) && !OtherCut(a)
    ensures FrontLines(a) == FrontLines(b) && a.runnerVersion == b.runnerVersion && a.schema == b.schema
  {
    hide KeyLines, FrontLines, FrontEndsAt;
    OwnCut(b);
    SameCut(a, b);
  }

  lemma ThreeLines(r: Request)
    requires |FrontLines(r)| <= 3
    ensures |Lines(r.source)| == |Lines(r.manifest.name)| == |Lines(r.manifest.version)| == 1 && NoDeps(r.manifest)
    ensures Lines(r.source) == [FrontLines(r)[0]] && Lines(r.manifest.name) == [FrontLines(r)[1]]
    ensures Lines(r.manifest.version) == [FrontLines(r)[2]]
  {
    hide Lines;
    ThreeOrMore(r);
    DepsShow(r.manifest);
    assert |Lines(r.source)| >= 1 && |Lines(r.manifest.name)| >= 1 && |Lines(r.manifest.version)| >= 1;
  }

  lemma DepsShow(m: Manifest)
    ensures LinesOfAll(AllDepLines(m)) == [] ==> NoDeps(m)
    ensures AllDepLines(m) == [] ==> NoDeps(m)
  {
    if AllDepLines(m) != [] {
      assert Lines(AllDepLines(m)[0]) != [];
    }
    SortPermutes(m.dependencies);
    SortPermutes(m.devDependencies);
    SortPermutes(m.buildDependencies);
    assert |multiset(m.dependencies)| == |multiset(SortByName(m.dependencies))|;
    assert |multiset(m.devDependencies)| == |multiset(SortByName(m.devDependencies))|;
    assert |multiset(m.buildDependencies)| == |multiset(SortByName(m.buildDependencies))|;
  }

  // ----- among requests whose fields are single lines

  /** The version reads like a dependency, and there is a line of source to spare. */
  predicate PosingVersion(a: Request) {
    IsDepLine(a.manifest.version) && '=' in a.manifest.version && |Lines(a.source)| >= 2
  }

  /** A request, be its fields single lines or not, shares its key text with another request of single-line fields
      exactly when it has a field of several lines itself, or any dependency, or can be cut elsewhere, or poses its
      version as a dependency. */
  lemma SingleLineRivalExactly(a: Request)
    ensures (exists b :: SingleLine(b) && Rival(a, b)) <==>
            !SingleLine(a) || !NoDeps(a.manifest) || OtherCut(a) || PosingVersion(a)
  {
    hide SameRequest, FrontLines, KeyLines, FrontEndsAt, Preimage, SingleLine, PosingVersion, NoDeps;
    var t, n := KeyLines(a), |FrontLines(a)|;
    KeyLinesAreLines(a);
    OwnCut(a);
    if OtherCut(a) {
      var i: nat :| i != n && FrontEndsAt(t, i);
      CutBound(t, i);
      var b := ReadSingle(t, i);
      BareRival(a, b);
    } else if !SingleLine(a) || !NoDeps(a.manifest) {
      CutBound(t, n);
      var b := ReadSingle(t, n);
      BareRival(a, b);
    } else if PosingVersion(a) {
      var b := ReadVersion(a);
    } else if exists b :: SingleLine(b) && Rival(a, b) {
      var b :| SingleLine(b) && Rival(a, b);
      NoSingleRival(a, b);
    }
  }

  lemma ReadSingle(t: seq<string>, i: nat) returns (b: Request)
    requires AllLines(t) && FrontEndsAt(t, i)
    ensures KeyLines(b) == t && FrontLines(b) == t[..i] && NoDeps(b.manifest) && SingleLine(b)
  {
    hide KeyLines, FrontLines, Line;
    b := ReadAt(t, i, i - 2);
    assert t[i - 1..i] == [t[i - 1]];
    assert t[i - 2] in t && t[i - 1] in t;
  }

  lemma SplitAtEquals(tag: string, line: string) returns (d: Dep)
    requires StartsWith(line, tag) && '=' !in tag && '=' in line
    ensures DepLine(tag, d) == line && (Line(line) ==> Line(d.name) && Line(d.req))
  {
    assert forall i :: 0 <= i < |tag| ==> line[i] == line[..|tag|][i] && tag[i] in tag;
    var k :| 0 <= k < |line| && line[k] == '=';
    d := Dep(line[|tag|..k], line[k + 1..]);
    assert line == line[..|tag|] + line[|tag|..k] + "=" + line[k + 1..];
    assert forall c :: c in d.name ==> c in line;
    assert forall c :: c in d.req ==> c in line;
  }

  lemma OneSorted(d: Dep)
    ensures SortByName([d]) == [d] && SortByName([]) == []
  {
    assert [d][1..] == [];
  }

  /** The version and a requirement, each in the place of the other. */
  lemma VersionAsDep(name: string, version: string, line: string) returns (m: Manifest)
    requires IsDepLine(line) && '=' in line && Line(line)
    ensures m.name == name && m.version == version && AllDepLines(m) == [line] && !NoDeps(m)
    ensures LineDeps(m.dependencies) && LineDeps(m.devDependencies) && LineDeps(m.buildDependencies)
  {
    hide StartsWith, SortByName, Line;
    if StartsWith(line, "dep:") {
      var d := SplitAtEquals("dep:", line);
      OneSorted(d);
      m := Manifest(name, version, [d], [], []);
    } else if StartsWith(line, "dev:") {
      var d := SplitAtEquals("dev:", line);
      OneSorted(d);
      m := Manifest(name, version, [], [d], []);
    } else {
      var d := SplitAtEquals("build:", line);
      OneSorted(d);
      m := Manifest(name, version, [], [], [d]);
    }
  }

  lemma ReadVersion(a: Request) returns (b: Request)
    requires SingleLine(a) && NoDeps(a.manifest) && PosingVersion(a)
    ensures SingleLine(b) && Rival(a, b)
  {
    hide Lines, Preimage, IsDepLine, AllDepLines, Line, LineDeps, Display, SchemaLines, NoDeps;
    LinesAreLines(a.source);
    var s := Lines(a.source);
    var n := |s| - 1;
    assert s[n] in s && AllLines(s[..n]);
    var m := VersionAsDep(s[n], a.manifest.name, a.manifest.version);
    b := Request(Join(s[..n]), m, a.runnerVersion, a.schema);
    LinesOfJoin(s[..n]);
    NoDepLines(a.manifest);
    SingleLines(a);
    SingleLines(b);
    assert FrontLines(b) == s[..n] + [s[n], a.manifest.name] + [a.manifest.version];
    assert FrontLines(a) == FrontLines(b);
    SameTextSameLines(a, b);
    NotSame(a, b);
  }

  lemma NotSame(a: Request, b: Request)
    requires NoDeps(a.manifest) && !NoDeps(b.manifest)
    ensures !SameRequest(a, b)
  {
    if SameRequest(a, b) {
      SameSizes(a.manifest, b.manifest);
    }
  }

  lemma NoSingleRival(a: Request, b: Request)
    requires SingleLine(a) && NoDeps(a.manifest) && !OtherCut(a) && !PosingVersion(a)
    requires SingleLine(b) && Preimage(a) == Preimage(b)
    ensures SameRequest(a, b)
  {
    hide Preimage, KeyLines, FrontLines, OtherCut, Lines, Line, LineDeps, IsDepLine, AllDepLines, NoDeps;
    SameTextSameLines(a, b);
    SameFront(a, b);
    NoDepLines(a.manifest);
    SingleLines(a);
    SingleLines(b);
    var fa := Lines(a.source) + [a.manifest.name, a.manifest.version];
    var fb := Lines(b.source) + [b.manifest.name, b.manifest.version];
    var deps := AllDepLines(b.manifest);
    assert FrontLines(a) == fa && FrontLines(b) == fb + deps;
    assert |Lines(b.source)| >= 1;
    if deps == [] {
      DepsShow(b.manifest);
      assert fa == fb;
      assert fa[|fa| - 1] == fb[|fa| - 1] && fa[|fa| - 2] == fb[|fa| - 2] && fa[..|fa| - 2] == fb[..|fa| - 2];
      assert Lines(a.source) == fa[..|fa| - 2] && Lines(b.source) == fb[..|fb| - 2];
      LinesDetermine(a.source, b.source);
      BareSame(a, b);
    } else {
      var last := deps[|deps| - 1];
      assert last == (fb + deps)[|fb + deps| - 1] == a.manifest.version;
      DepLineShape(b.manifest, last);
      assert false;
    }
  }

  lemma BareSame(a: Request, b: Request)
    requires NoDeps(a.manifest) && NoDeps(b.manifest) && a.source == b.source && a.manifest.name == b.manifest.name
    requires a.manifest.version == b.manifest.version && a.runnerVersion == b.runnerVersion && a.schema == b.schema
    ensures SameRequest(a, b)
  {}

  lemma TaggedShape(tag: string, deps: seq<Dep>)
    ensures forall l :: l in DepLines(tag, deps) ==> '=' in l
  {
    forall l | l in DepLines(tag, deps) ensures '=' in l {
      var i :| 0 <= i < |deps| && l == DepLine(tag, deps[i]);
      assert l[|tag| + |deps[i].name|] == '=';
    }
  }

  lemma DepLineShape(m: Manifest, line: string)
    requires line in AllDepLines(m)
    ensures IsDepLine(line) && '=' in line
  {
    hide DepLines, SortByName, IsDepLine;
    AllDepLinesAreDepLines(m);
    TaggedShape("dep:", SortByName(m.dependencies));
    TaggedShape("dev:", SortByName(m.devDependencies));
    TaggedShape("build:", SortByName(m.buildDependencies));
  }

  // ----- an equals sign in the name of a crate

  lemma {:induction false} PrefixLe(x: string, y: string)
    ensures LexLe(x, x + y)
  {
    if x != "" {
      PrefixLe(x[1..], y);
      assert (x + y)[1..] == x[1..] + y;
    }
  }

  /** Sorting leaves a sorted list alone. */
  lemma {:induction false} SortedStays(s: seq<Dep>)
    requires SortedByName(s)
    ensures SortByName(s) == s
  {
    SortSorts(s);
    forall n ensures WithName(SortByName(s), n) == WithName(s, n) {
      SortWithName(s, n);
    }
    SortedSame(SortByName(s), s);
  }

  lemma SmallerHead(d: Dep, e: Dep, rest: seq<Dep>)
    requires SortedByName([d] + rest) && LexLe(e.name, d.name)
    ensures SortedByName([e] + rest)
  {
    hide LexLe;
    var s, t := [e] + rest, [d] + rest;
    forall i, j | 0 <= i < j < |s| ensures LexLe(s[i].name, s[j].name) {
      assert t[0] == d && s[j] == t[j] && LexLe(t[i].name, t[j].name);
      if i == 0 {
        LexTransitive(e.name, d.name, s[j].name);
      } else {
        assert s[i] == t[i];
      }
    }
  }

  /** Any request whose least-named dependency has an equals sign in its name has a rival whose same dependency is
      split there, all else equal: the key text does not say where a name ends. */
  lemma EqualsConfuses(r: Request, x: string, y: string, req: string, rest: seq<Dep>)
    requires SortByName(r.manifest.dependencies) == [Dep(x + "=" + y, req)] + rest
    ensures Rival(r, r.(manifest := r.manifest.(dependencies := [Dep(x, y + "=" + req)] + rest)))
  {
    hide SortByName, SortedByName, LexLe, Display, Unlines;
    var d, e := Dep(x + "=" + y, req), Dep(x, y + "=" + req);
    var b := r.(manifest := r.manifest.(dependencies := [e] + rest));
    SortSorts(r.manifest.dependencies);
    assert x + "=" + y == x + ("=" + y);
    PrefixLe(x, "=" + y);
    SmallerHead(d, e, rest);
    SortedStays([e] + rest);
    assert DepLine("dep:", d) == DepLine("dep:", e);
    assert DepLines("dep:", [d] + rest) == DepLines("dep:", [e] + rest);
    assert Preimage(r) == Preimage(b) by { hide DepLines; }
    SortPermutes(r.manifest.dependencies);
    assert |d.name| != |e.name|;
    DifferentLists(d, e, rest);
  }

  lemma DifferentLists(d: Dep, e: Dep, rest: seq<Dep>)
    requires d != e
    ensures multiset([d] + rest) != multiset([e] + rest)
  {
    assert multiset([d] + rest)[d] == 1 + multiset(rest)[d];
    assert multiset([e] + rest)[d] == multiset(rest)[d];
  }
}
