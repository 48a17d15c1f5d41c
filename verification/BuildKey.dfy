/**
  The artifact cache key and the manifest lint (artifact_cache.rs, linter.rs). The key is a collision-free hash
  of one text made of the source, the canonical manifest, the runner version and the parameter schema; the
  question is which inputs that text tells apart. Module `KeyRivals` says which requests it cannot tell apart.
*/
module BuildKey {
  import opened Basics
  import opened Lex
  import opened Newlines
  import opened RunnerVersion
  import opened Text

  datatype Dep = Dep(name: string, req: string)

  datatype Manifest = Manifest(name: string, version: string, dependencies: seq<Dep>, devDependencies: seq<Dep>,
                               buildDependencies: seq<Dep>)

  /** One build request: what `ArtifactKey::from_inputs_with_schema` is given. */
  datatype Request = Request(source: string, manifest: Manifest, runnerVersion: Version, schema: Option<string>)

  // ----- the manifest lint

  datatype Violation = Duplicate(name: string) | NotAllowed(name: string)

  function AllDeps(m: Manifest): seq<Dep> {
    m.dependencies + m.devDependencies + m.buildDependencies
  }

  predicate DistinctNames(deps: seq<Dep>) {
    forall i, j :: 0 <= i < j < |deps| ==> deps[i].name != deps[j].name
  }

  /** No violation exactly when the three lists together name every crate once, and only allowed crates. */
  method LintManifest(m: Manifest, allowed: set<string>) returns (violations: seq<Violation>)
    ensures violations == [] <==>
            DistinctNames(AllDeps(m)) && forall d :: d in AllDeps(m) ==> d.name in allowed
    ensures forall v :: v in violations <==>
              || (v.NotAllowed? && v.name !in allowed && exists d :: d in AllDeps(m) && d.name == v.name)
              || (v.Duplicate? &&
                  exists i, j :: 0 <= i < j < |AllDeps(m)| && AllDeps(m)[i].name == v.name == AllDeps(m)[j].name)
  {
    var deps := AllDeps(m);
    var seen: set<string> := {};
    violations := [];
    for k := 0 to |deps|
      invariant forall n :: n in seen <==> exists i :: 0 <= i < k && deps[i].name == n
      invariant forall v :: v in violations ==>
                  || (v.NotAllowed? && v.name !in allowed && exists d :: d in deps && d.name == v.name)
                  || (v.Duplicate? && exists i, j :: 0 <= i < j < k && deps[i].name == v.name == deps[j].name)
      invariant forall i :: 0 <= i < k && deps[i].name !in allowed ==> NotAllowed(deps[i].name) in violations
      invariant forall i, j :: 0 <= i < j < k && deps[i].name == deps[j].name ==> Duplicate(deps[j].name) in violations
    {
      if deps[k].name in seen {
        violations := violations + [Duplicate(deps[k].name)];
      } else {
        seen := seen + {deps[k].name};
        if deps[k].name !in allowed {
          violations := violations + [NotAllowed(deps[k].name)];
        }
      }
    }
    if violations != [] {
      assert violations[0] in violations;
    }
  }

  /** What the lint decides. */
  predicate LintClean(m: Manifest, allowed: set<string>) {
    DistinctNames(AllDeps(m)) && forall d :: d in AllDeps(m) ==> d.name in allowed
  }

  // ----- the canonical manifest

  function Insert(x: Dep, s: seq<Dep>): seq<Dep> {
    if s == [] || LexLe(x.name, s[0].name) then [x] + s else [s[0]] + Insert(x, s[1..])
  }

  /** `sort_by_key` on the name. */
  function SortByName(s: seq<Dep>): seq<Dep> {
    if s == [] then [] else Insert(s[0], SortByName(s[1..]))
  }

  function DepLine(tag: string, d: Dep): string {
    tag + d.name + "=" + d.req
  }

  function DepLines(tag: string, deps: seq<Dep>): seq<string> {
    seq(|deps|, i requires 0 <= i < |deps| => DepLine(tag, deps[i]))
  }

  function AllDepLines(m: Manifest): seq<string> {
    DepLines("dep:", SortByName(m.dependencies)) + DepLines("dev:", SortByName(m.devDependencies))
    + DepLines("build:", SortByName(m.buildDependencies))
  }

  function CanonicalManifest(m: Manifest): string {
    m.name + "\n" + m.version + "\n" + Unlines(AllDepLines(m))
  }

  method AppendLines(s: string, tag: string, deps: seq<Dep>) returns (r: string)
    ensures r == s + Unlines(DepLines(tag, deps))
  {
    r := s;
    for i := 0 to |deps|
      invariant r == s + Unlines(DepLines(tag, deps)[..i])
    {
      var lines := DepLines(tag, deps);
      assert lines[..i + 1] == lines[..i] + [lines[i]];
      UnlinesConcat(lines[..i], [lines[i]]);
      assert Unlines([lines[i]]) == lines[i] + "\n" + Unlines([lines[i]][1..]);
      r := r + tag + deps[i].name + "=" + deps[i].req + "\n";
      assert r == s + Unlines(lines[..i]) + (lines[i] + "\n");
    }
    assert DepLines(tag, deps)[..|deps|] == DepLines(tag, deps);
  }

  method CanonicalManifestBytes(m: Manifest) returns (s: string)
    ensures s == CanonicalManifest(m)
  {
    hide DepLines, SortByName, Unlines;
    s := m.name + "\n" + m.version + "\n";
    s := AppendLines(s, "dep:", SortByName(m.dependencies));
    s := AppendLines(s, "dev:", SortByName(m.devDependencies));
    s := AppendLines(s, "build:", SortByName(m.buildDependencies));
    var a, b := DepLines("dep:", SortByName(m.dependencies)), DepLines("dev:", SortByName(m.devDependencies));
    UnlinesConcat(a + b, DepLines("build:", SortByName(m.buildDependencies)));
    UnlinesConcat(a, b);
  }

  const SCHEMA := "params_schema:"

  // ----- sorting forgets the order of the list, and nothing else

  lemma InsertMultiset(x: Dep, s: seq<Dep>)
    ensures multiset(Insert(x, s)) == multiset(s) + multiset{x}
  {
    if s != [] {
      assert s == [s[0]] + s[1..];
    }
  }

  lemma {:induction false} SortPermutes(s: seq<Dep>)
    ensures multiset(SortByName(s)) == multiset(s)
  {
    if s != [] {
      SortPermutes(s[1..]);
      InsertMultiset(s[0], SortByName(s[1..]));
      assert s == [s[0]] + s[1..];
    }
  }

  predicate SortedByName(s: seq<Dep>) {
    forall i, j :: 0 <= i < j < |s| ==> LexLe(s[i].name, s[j].name)
  }

  lemma {:induction false} InsertSorted(x: Dep, s: seq<Dep>)
    requires SortedByName(s)
    ensures SortedByName(Insert(x, s))
  {
    if s == [] {
    } else if LexLe(x.name, s[0].name) {
      forall j | 0 <= j < |s| ensures LexLe(x.name, s[j].name) {
        if j > 0 {
          LexTransitive(x.name, s[0].name, s[j].name);
        }
      }
    } else {
      LexTotal(x.name, s[0].name);
      InsertSorted(x, s[1..]);
      InsertMultiset(x, s[1..]);
      var rest := Insert(x, s[1..]);
      forall d | d in rest ensures LexLe(s[0].name, d.name) {
        assert d in multiset(rest);
        assert d == x || d in s[1..];
      }
      assert forall i :: 0 <= i < |rest| ==> rest[i] in rest;
    }
  }

  lemma {:induction false} SortSorts(s: seq<Dep>)
    ensures SortedByName(SortByName(s))
  {
    if s != [] {
      SortSorts(s[1..]);
      InsertSorted(s[0], SortByName(s[1..]));
    }
  }

  /** No name stands with two different requirements. */
  predicate OneRequirement(deps: seq<Dep>) {
    forall a, b :: a in deps && b in deps && a.name == b.name ==> a == b
  }

  lemma {:induction false} SortedUnique(xs: seq<Dep>, ys: seq<Dep>)
    requires SortedByName(xs) && SortedByName(ys) && multiset(xs) == multiset(ys) && OneRequirement(xs)
    ensures xs == ys
  {
    assert |xs| == |multiset(xs)| == |multiset(ys)| == |ys|;
    if xs != [] {
      SameHead(xs, ys);
      assert xs == [xs[0]] + xs[1..] && ys == [ys[0]] + ys[1..];
      assert multiset(xs[1..]) == multiset(xs) - multiset{xs[0]};
      assert multiset(ys[1..]) == multiset(ys) - multiset{ys[0]};
      SortedUnique(xs[1..], ys[1..]);
    }
  }

  lemma SameHead(xs: seq<Dep>, ys: seq<Dep>)
    requires xs != [] && ys != []
    requires SortedByName(xs) && SortedByName(ys) && multiset(xs) == multiset(ys) && OneRequirement(xs)
    ensures xs[0] == ys[0]
  {
    assert xs[0] in multiset(ys) && ys[0] in multiset(xs);
    LexTotal(xs[0].name, ys[0].name);
  }

  /** When no name has two requirements, two lists sort alike exactly when one is a reordering of the other. */
  lemma SortForgetsOrder(xs: seq<Dep>, ys: seq<Dep>)
    requires OneRequirement(xs)
    ensures SortByName(xs) == SortByName(ys) <==> multiset(xs) == multiset(ys)
  {
    SortPermutes(xs);
    SortPermutes(ys);
    if multiset(xs) == multiset(ys) {
      SortSorts(xs);
      SortSorts(ys);
      forall d | d in SortByName(xs) ensures d in xs {
        assert d in multiset(SortByName(xs));
      }
      SortedUnique(SortByName(xs), SortByName(ys));
    }
  }

  /** The requirements under one name, in the order of the list. */
  function WithName(deps: seq<Dep>, name: string): seq<Dep> {
    if deps == [] then []
    else (if deps[0].name == name then [deps[0]] else []) + WithName(deps[1..], name)
  }

  /** The same requirements under every name, in the same order. */
  ghost predicate SameUnderNames(xs: seq<Dep>, ys: seq<Dep>) {
    forall n :: WithName(xs, n) == WithName(ys, n)
  }

  lemma WithNameCons(x: Dep, s: seq<Dep>, name: string)
    ensures WithName([x] + s, name) == (if x.name == name then [x] else []) + WithName(s, name)
  {
    assert ([x] + s)[1..] == s;
  }

  lemma {:induction false} InsertWithName(x: Dep, s: seq<Dep>, name: string)
    ensures WithName(Insert(x, s), name) == WithName([x] + s, name)
  {
    hide LexLe, WithName;
    if s != [] && !LexLe(x.name, s[0].name) {
      LexTotal(x.name, x.name);
      InsertWithName(x, s[1..], name);
      WithNameCons(s[0], Insert(x, s[1..]), name);
      WithNameCons(x, s, name);
      WithNameCons(x, s[1..], name);
      WithNameCons(s[0], s[1..], name);
      assert s == [s[0]] + s[1..];
    }
  }

  lemma {:induction false} SortWithName(s: seq<Dep>, name: string)
    ensures WithName(SortByName(s), name) == WithName(s, name)
  {
    if s != [] {
      SortWithName(s[1..], name);
      InsertWithName(s[0], SortByName(s[1..]), name);
      WithNameCons(s[0], SortByName(s[1..]), name);
    }
  }

  lemma {:induction false} NameStands(s: seq<Dep>, name: string)
    ensures WithName(s, name) != [] ==> exists k :: 0 <= k < |s| && s[k].name == name
  {
    if s != [] && s[0].name != name {
      NameStands(s[1..], name);
      if WithName(s, name) != [] {
        var k :| 0 <= k < |s[1..]| && s[1..][k].name == name;
        assert s[k + 1].name == name;
      }
    }
  }

  lemma SortedHead(s: seq<Dep>, name: string)
    requires SortedByName(s) && WithName(s, name) != []
    ensures s != [] && LexLe(s[0].name, name)
  {
    NameStands(s, name);
    LexTotal(name, name);
  }

  lemma SameFirstName(xs: seq<Dep>, ys: seq<Dep>)
    requires SortedByName(xs) && SortedByName(ys) && SameUnderNames(xs, ys) && xs != []
    ensures ys != [] && xs[0] == ys[0]
  {
    assert WithName(xs, xs[0].name)[0] == xs[0];
    SortedHead(ys, xs[0].name);
    assert WithName(ys, ys[0].name)[0] == ys[0];
    SortedHead(xs, ys[0].name);
    LexTotal(xs[0].name, ys[0].name);
  }

  lemma SameTails(x: Dep, xs: seq<Dep>, ys: seq<Dep>)
    requires SameUnderNames([x] + xs, [x] + ys)
    ensures SameUnderNames(xs, ys)
  {
    hide WithName;
    forall n ensures WithName(xs, n) == WithName(ys, n) {
      WithNameCons(x, xs, n);
      WithNameCons(x, ys, n);
      var front := if x.name == n then [x] else [];
      assert WithName([x] + xs, n) == WithName([x] + ys, n);
      assert WithName(xs, n) == (front + WithName(xs, n))[|front|..];
      assert WithName(ys, n) == (front + WithName(ys, n))[|front|..];
    }
  }

  lemma {:induction false} SortedSame(xs: seq<Dep>, ys: seq<Dep>)
    requires SortedByName(xs) && SortedByName(ys) && SameUnderNames(xs, ys)
    ensures xs == ys
  {
    hide SameUnderNames, LexLe;
    if xs == [] && ys != [] {
      assert SameUnderNames(ys, xs) by { SameReversed(xs, ys); }
      SameFirstName(ys, xs);
    } else if xs != [] {
      SameFirstName(xs, ys);
      assert xs == [xs[0]] + xs[1..] && ys == [xs[0]] + ys[1..];
      SameTails(xs[0], xs[1..], ys[1..]);
      SortedSame(xs[1..], ys[1..]);
    }
  }

  lemma SameReversed(xs: seq<Dep>, ys: seq<Dep>)
    requires SameUnderNames(xs, ys)
    ensures SameUnderNames(ys, xs)
  {}

  /** What sorting keeps of a list: under every name its requirements, in their order. */
  lemma SortKeepsOrderUnderNames(xs: seq<Dep>, ys: seq<Dep>)
    ensures SortByName(xs) == SortByName(ys) <==> SameUnderNames(xs, ys)
  {
    hide SortByName, WithName;
    forall n ensures WithName(SortByName(xs), n) == WithName(xs, n) && WithName(SortByName(ys), n) == WithName(ys, n) {
      SortWithName(xs, n);
      SortWithName(ys, n);
    }
    if SameUnderNames(xs, ys) {
      SortSorts(xs);
      SortSorts(ys);
      assert SameUnderNames(SortByName(xs), SortByName(ys));
      SortedSame(SortByName(xs), SortByName(ys));
    }
  }

  lemma TakeOut(xs: seq<Dep>, x: Dep) returns (rest: seq<Dep>)
    requires x in xs
    ensures multiset(rest) == multiset(xs) - multiset{x}
  {
    var i :| 0 <= i < |xs| && xs[i] == x;
    rest := xs[..i] + xs[i + 1..];
    assert xs == xs[..i] + [x] + xs[i + 1..];
  }

  lemma SwapShows(a: Dep, b: Dep, rest: seq<Dep>)
    requires a != b && a.name == b.name
    ensures SortByName([a, b] + rest) != SortByName([b, a] + rest)
  {
    hide SortByName, WithName;
    var ab, ba := [a, b] + rest, [b, a] + rest;
    assert ab == [a] + ([b] + rest) && ba == [b] + ([a] + rest);
    WithNameCons(a, [b] + rest, a.name);
    WithNameCons(b, [a] + rest, a.name);
    assert WithName(ab, a.name)[0] == a && WithName(ba, a.name)[0] == b;
    SortKeepsOrderUnderNames(ab, ba);
  }

  /** Two members of a list stand in front of some reordering of it. */
  lemma PairFirst(xs: seq<Dep>, a: Dep, b: Dep) returns (rest: seq<Dep>)
    requires a in xs && b in xs && a != b
    ensures multiset([a, b] + rest) == multiset(xs)
  {
    var some := TakeOut(xs, a);
    assert b in multiset(some);
    rest := TakeOut(some, b);
  }

  /** The key sees nothing of the order of a list exactly when no name stands in it with two requirements. */
  lemma OrderForgottenExactly(xs: seq<Dep>)
    ensures (forall ys :: multiset(ys) == multiset(xs) ==> SortByName(ys) == SortByName(xs)) <==> OneRequirement(xs)
  {
    hide SortByName;
    if OneRequirement(xs) {
      forall ys | multiset(ys) == multiset(xs) ensures SortByName(ys) == SortByName(xs) {
        SortForgetsOrder(xs, ys);
      }
    } else {
      var a, b :| a in xs && b in xs && a.name == b.name && a != b;
      var rest := PairFirst(xs, a, b);
      SwapShows(a, b, rest);
      assert multiset([b, a] + rest) == multiset([a, b] + rest);
    }
  }

  // ----- the lines of the key text

  /** The text that the key is the hash of. */
  function Preimage(r: Request): string {
    r.source + "\n" + CanonicalManifest(r.manifest) + "\n" + Display(r.runnerVersion)
    + (if r.schema.None? then "" else "\n" + SCHEMA + r.schema.value)
  }

  /** The lines in front of the blank one. */
  function FrontLines(r: Request): seq<string> {
    Lines(r.source) + Lines(r.manifest.name) + Lines(r.manifest.version) + LinesOfAll(AllDepLines(r.manifest))
  }

  function SchemaLines(schema: Option<string>): seq<string> {
    if schema.None? then [] else Lines(SCHEMA + schema.value)
  }

  function KeyLines(r: Request): seq<string> {
    FrontLines(r) + ["", Display(r.runnerVersion)] + SchemaLines(r.schema)
  }

  /** The key text, line by line. */
  lemma PreimageLines(r: Request)
    ensures Lines(Preimage(r)) == KeyLines(r)
  {
    hide Lines, LinesOfAll, Unlines, AllDepLines, Display;
    var m := r.manifest;
    var tail := Display(r.runnerVersion) + (if r.schema.None? then "" else "\n" + SCHEMA + r.schema.value);
    var deps := Unlines(AllDepLines(m)) + ("" + "\n" + tail);
    assert Preimage(r) == r.source + "\n" + (m.name + "\n" + (m.version + "\n" + deps));
    LinesConcat(r.source, m.name + "\n" + (m.version + "\n" + deps));
    LinesConcat(m.name, m.version + "\n" + deps);
    LinesConcat(m.version, deps);
    LinesOfUnlines(AllDepLines(m), "" + "\n" + tail);
    LinesConcat("", tail);
    LinesOfLine("");
    DisplayIsLine(r.runnerVersion);
    LinesOfLine(Display(r.runnerVersion));
    if r.schema.Some? {
      LinesConcat(Display(r.runnerVersion), SCHEMA + r.schema.value);
      assert tail == Display(r.runnerVersion) + "\n" + (SCHEMA + r.schema.value);
    } else {
      assert tail == Display(r.runnerVersion);
    }
  }

  /** Two requests share their key text exactly when they share its lines. */
  lemma SameTextSameLines(a: Request, b: Request)
    ensures Preimage(a) == Preimage(b) <==> KeyLines(a) == KeyLines(b)
  {
    hide Preimage, KeyLines;
    PreimageLines(a);
    PreimageLines(b);
    if KeyLines(a) == KeyLines(b) {
      LinesDetermine(Preimage(a), Preimage(b));
    }
  }

  ghost predicate VersionText(line: string) {
    exists v :: Display(v) == line
  }

  /** The place where a reader of the lines could take the front to end: a blank line, a runner version, and
      then nothing or the marker of a schema. Source, name and version need three lines at least. */
  ghost predicate FrontEndsAt(t: seq<string>, i: int) {
    3 <= i && i + 1 < |t| && t[i] == "" && VersionText(t[i + 1]) && (i + 2 == |t| || StartsWith(t[i + 2], SCHEMA))
  }

  lemma SchemaStarts(schema: Option<string>)
    ensures SchemaLines(schema) == [] <==> schema.None?
    ensures schema.Some? ==> StartsWith(SchemaLines(schema)[0], SCHEMA)
  {
    if schema.Some? {
      assert (SCHEMA + schema.value)[..|SCHEMA|] == SCHEMA;
      FirstLineStarts(SCHEMA + schema.value, SCHEMA);
    }
  }

  lemma OwnCut(r: Request)
    ensures FrontEndsAt(KeyLines(r), |FrontLines(r)|)
  {
    hide Lines, LinesOfAll, AllDepLines, StartsWith, Display, SchemaLines;
    SchemaStarts(r.schema);
    var t, i := KeyLines(r), |FrontLines(r)|;
    assert t[i] == "" && t[i + 1] == Display(r.runnerVersion);
    assert i + 2 == |t| || t[i + 2] == SchemaLines(r.schema)[0];
    assert |Lines(r.source)| >= 1 && |Lines(r.manifest.name)| >= 1 && |Lines(r.manifest.version)| >= 1;
  }

  /** With one cut in common, the two requests differ in their fronts only if their lines do. */
  lemma SameCut(a: Request, b: Request)
    requires KeyLines(a) == KeyLines(b) && |FrontLines(a)| == |FrontLines(b)|
    ensures FrontLines(a) == FrontLines(b) && a.runnerVersion == b.runnerVersion && a.schema == b.schema
  {
    hide FrontLines, Display, SchemaLines;
    var t, i := KeyLines(a), |FrontLines(a)|;
    assert FrontLines(a) == t[..i] && FrontLines(b) == t[..i];
    assert t[i + 1] == Display(a.runnerVersion) && t[i + 1] == Display(b.runnerVersion);
    assert SchemaLines(a.schema) == t[i + 2..] && SchemaLines(b.schema) == t[i + 2..];
    DisplayDetermines(a.runnerVersion, b.runnerVersion);
    SchemaDetermined(a.schema, b.schema);
  }

  lemma SchemaDetermined(a: Option<string>, b: Option<string>)
    requires SchemaLines(a) == SchemaLines(b)
    ensures a == b
  {
    if a.Some? && b.Some? {
      LinesDetermine(SCHEMA + a.value, SCHEMA + b.value);
      assert a.value == (SCHEMA + a.value)[|SCHEMA|..] && b.value == (SCHEMA + b.value)[|SCHEMA|..];
    }
  }

  // ----- the key tells the inputs apart

  predicate IsDepLine(line: string) {
    StartsWith(line, "dep:") || StartsWith(line, "dev:") || StartsWith(line, "build:")
  }

  predicate LineDeps(deps: seq<Dep>) {
    forall d :: d in deps ==> Line(d.name) && Line(d.req)
  }

  predicate PlainDeps(deps: seq<Dep>) {
    LineDeps(deps) && forall d :: d in deps ==> '=' !in d.name
  }

  /** The fields are single lines, the version is not a dependency line, and no crate has an equals sign. */
  predicate PlainManifest(m: Manifest) {
    && Line(m.name) && Line(m.version) && !IsDepLine(m.version)
    && PlainDeps(m.dependencies) && PlainDeps(m.devDependencies) && PlainDeps(m.buildDependencies)
  }

  ghost predicate NoEarlierCut(r: Request) {
    forall i :: i < |FrontLines(r)| ==> !FrontEndsAt(KeyLines(r), i)
  }

  /** The manifest is plain, and no reader could take the front to end earlier than it does. Source, runner
      version and schema are otherwise arbitrary. */
  ghost predicate PlainRequest(r: Request) {
    PlainManifest(r.manifest) && NoEarlierCut(r)
  }

  /** Equal but for the order inside the three dependency lists. */
  predicate SameUpToOrder(a: Manifest, b: Manifest) {
    && a.name == b.name && a.version == b.version
    && multiset(a.dependencies) == multiset(b.dependencies)
    && multiset(a.devDependencies) == multiset(b.devDependencies)
    && multiset(a.buildDependencies) == multiset(b.buildDependencies)
  }

  predicate SameRequest(a: Request, b: Request) {
    && a.source == b.source && a.runnerVersion == b.runnerVersion && a.schema == b.schema
    && SameUpToOrder(a.manifest, b.manifest)
  }

  ghost predicate SameKeyFields(a: Request, b: Request) {
    && a.source == b.source && a.runnerVersion == b.runnerVersion && a.schema == b.schema
    && a.manifest.name == b.manifest.name && a.manifest.version == b.manifest.version
    && SameUnderNames(a.manifest.dependencies, b.manifest.dependencies)
    && SameUnderNames(a.manifest.devDependencies, b.manifest.devDependencies)
    && SameUnderNames(a.manifest.buildDependencies, b.manifest.buildDependencies)
  }

  /** Two splits of one list agree when everything in front passes a test that the first thing behind fails. */
  lemma {:induction false} CutUnique(p: string -> bool, a: seq<string>, s: seq<string>, b: seq<string>, t: seq<string>)
    requires a + s == b + t
    requires (forall x :: x in a ==> p(x)) && (s == [] || !p(s[0]))
    requires (forall x :: x in b ==> p(x)) && (t == [] || !p(t[0]))
    ensures a == b && s == t
  {
    NotFurther(p, a, s, b, t);
    NotFurther(p, b, t, a, s);
    assert a == (a + s)[..|a|] && b == (b + t)[..|b|] && s == (a + s)[|a|..] && t == (b + t)[|b|..];
  }

  lemma NotFurther(p: string -> bool, a: seq<string>, s: seq<string>, b: seq<string>, t: seq<string>)
    requires a + s == b + t && (forall x :: x in b ==> p(x)) && (s == [] || !p(s[0]))
    ensures |b| <= |a|
  {
    assert forall k :: 0 <= k < |b| ==> (b + t)[k] == b[k] && b[k] in b;
    assert s == [] || (a + s)[|a|] == s[0];
    assert |a + s| == |b + t|;
  }

  /** The same from the back. */
  lemma {:induction false} PeelUnique(p: string -> bool, a: seq<string>, s: seq<string>, b: seq<string>, t: seq<string>)
    requires a + s == b + t && a != [] && b != []
    requires (forall x :: x in s ==> p(x)) && !p(a[|a| - 1])
    requires (forall x :: x in t ==> p(x)) && !p(b[|b| - 1])
    ensures a == b && s == t
  {
    NotEarlier(p, a, s, b, t);
    NotEarlier(p, b, t, a, s);
    assert a == (a + s)[..|a|] && b == (b + t)[..|b|] && s == (a + s)[|a|..] && t == (b + t)[|b|..];
  }

  lemma NotEarlier(p: string -> bool, a: seq<string>, s: seq<string>, b: seq<string>, t: seq<string>)
    requires a + s == b + t && b != [] && (forall x :: x in s ==> p(x)) && !p(b[|b| - 1])
    ensures |b| <= |a|
  {
    assert forall k :: |a| <= k < |a + s| ==> (a + s)[k] == s[k - |a|] && s[k - |a|] in s;
    assert (b + t)[|b| - 1] == b[|b| - 1];
  }

  // ----- dependency lines

  lemma DepLineDetermines(tag: string, a: Dep, b: Dep)
    requires PlainDeps([a]) && PlainDeps([b]) && DepLine(tag, a) == DepLine(tag, b)
    ensures a == b
  {
    assert a in [a] && b in [b];
    var s, t := a.name + "=" + a.req, b.name + "=" + b.req;
    assert s == DepLine(tag, a)[|tag|..] && t == DepLine(tag, b)[|tag|..];
    assert forall k :: 0 <= k < |a.name| ==> s[k] == a.name[k] && a.name[k] in a.name;
    assert forall k :: 0 <= k < |b.name| ==> t[k] == b.name[k] && b.name[k] in b.name;
    assert s[|a.name|] == '=' && t[|b.name|] == '=';
    assert |a.name| == |b.name|;
    assert a.name == s[..|a.name|] && b.name == t[..|b.name|];
    assert a.req == s[|a.name| + 1..] && b.req == t[|b.name| + 1..];
  }

  lemma DepLinesDetermine(tag: string, a: seq<Dep>, b: seq<Dep>)
    requires PlainDeps(a) && PlainDeps(b) && DepLines(tag, a) == DepLines(tag, b)
    ensures a == b
  {
    assert |DepLines(tag, a)| == |a| && |DepLines(tag, b)| == |b|;
    forall i | 0 <= i < |a| ensures a[i] == b[i] {
      assert DepLines(tag, a)[i] == DepLines(tag, b)[i];
      DepLineDetermines(tag, a[i], b[i]);
    }
  }

  lemma TaggedLines(tag: string, deps: seq<Dep>)
    ensures forall l :: l in DepLines(tag, deps) ==> StartsWith(l, tag)
    ensures LineDeps(deps) && Line(tag) ==> forall l :: l in DepLines(tag, deps) ==> Line(l)
  {}

  lemma TagsDiffer(line: string)
    ensures StartsWith(line, "dep:") ==> !StartsWith(line, "dev:") && !StartsWith(line, "build:")
    ensures StartsWith(line, "dev:") ==> !StartsWith(line, "build:")
    ensures IsDepLine(line) ==> !StartsWith(line, SCHEMA)
    ensures Line("dep:") && Line("dev:") && Line("build:")
  {}

  lemma SortedMembers(deps: seq<Dep>)
    ensures forall d :: d in SortByName(deps) <==> d in deps
  {
    SortPermutes(deps);
    assert forall d :: d in SortByName(deps) <==> d in multiset(SortByName(deps));
  }

  /** Single-line dependencies, in any of the lists, write single lines with the tags. */
  lemma AllDepLinesAreDepLines(m: Manifest)
    ensures forall l :: l in AllDepLines(m) ==> IsDepLine(l)
    ensures LineDeps(m.dependencies) && LineDeps(m.devDependencies) && LineDeps(m.buildDependencies) ==>
              AllLines(AllDepLines(m))
  {
    hide DepLines, SortByName, StartsWith, Line;
    SortedMembers(m.dependencies);
    SortedMembers(m.devDependencies);
    SortedMembers(m.buildDependencies);
    TaggedLines("dep:", SortByName(m.dependencies));
    TaggedLines("dev:", SortByName(m.devDependencies));
    TaggedLines("build:", SortByName(m.buildDependencies));
    TagsDiffer("");
  }

  /** The dependency lines name the three lists, each up to its order. */
  lemma AllDepLinesDetermine(a: Manifest, b: Manifest)
    requires PlainManifest(a) && PlainManifest(b) && AllDepLines(a) == AllDepLines(b)
    ensures SortByName(a.dependencies) == SortByName(b.dependencies)
    ensures SortByName(a.devDependencies) == SortByName(b.devDependencies)
    ensures SortByName(a.buildDependencies) == SortByName(b.buildDependencies)
  {
    hide DepLines, SortByName, StartsWith, Line;
    SplitGroups(a, b);
    SortedMembers(a.dependencies);
    SortedMembers(b.dependencies);
    SortedMembers(a.devDependencies);
    SortedMembers(b.devDependencies);
    SortedMembers(a.buildDependencies);
    SortedMembers(b.buildDependencies);
    DepLinesDetermine("dep:", SortByName(a.dependencies), SortByName(b.dependencies));
    DepLinesDetermine("dev:", SortByName(a.devDependencies), SortByName(b.devDependencies));
    DepLinesDetermine("build:", SortByName(a.buildDependencies), SortByName(b.buildDependencies));
  }

  function Group(tag: string, deps: seq<Dep>): seq<string> {
    DepLines(tag, SortByName(deps))
  }

  lemma GroupTags(tag: string, deps: seq<Dep>)
    ensures forall l :: l in Group(tag, deps) ==> StartsWith(l, tag)
  {}

  lemma LaterTags(dev: seq<Dep>, build: seq<Dep>)
    ensures var rest := Group("dev:", dev) + Group("build:", build); rest == [] || !StartsWith(rest[0], "dep:")
    ensures var rest := Group("build:", build); rest == [] || !StartsWith(rest[0], "dev:")
  {
    hide StartsWith, Group;
    GroupTags("dev:", dev);
    GroupTags("build:", build);
    var rest := Group("dev:", dev) + Group("build:", build);
    if rest != [] {
      TagsDiffer(rest[0]);
    }
    if Group("build:", build) != [] {
      TagsDiffer(Group("build:", build)[0]);
    }
  }

  lemma SplitGroups(a: Manifest, b: Manifest)
    requires AllDepLines(a) == AllDepLines(b)
    ensures DepLines("dep:", SortByName(a.dependencies)) == DepLines("dep:", SortByName(b.dependencies))
    ensures DepLines("dev:", SortByName(a.devDependencies)) == DepLines("dev:", SortByName(b.devDependencies))
    ensures DepLines("build:", SortByName(a.buildDependencies)) == DepLines("build:", SortByName(b.buildDependencies))
  {
    hide DepLines, SortByName, StartsWith;
    GroupTags("dep:", a.dependencies);
    GroupTags("dep:", b.dependencies);
    GroupTags("dev:", a.devDependencies);
    GroupTags("dev:", b.devDependencies);
    GroupTags("build:", a.buildDependencies);
    GroupTags("build:", b.buildDependencies);
    var a1, a2 := Group("dep:", a.dependencies), Group("dev:", a.devDependencies);
    var b1, b2 := Group("dep:", b.dependencies), Group("dev:", b.devDependencies);
    var a3, b3 := Group("build:", a.buildDependencies), Group("build:", b.buildDependencies);
    assert a1 + a2 + a3 == a1 + (a2 + a3) && b1 + b2 + b3 == b1 + (b2 + b3);
    LaterTags(a.devDependencies, a.buildDependencies);
    LaterTags(b.devDependencies, b.buildDependencies);
    CutUnique((l: string) => StartsWith(l, "dep:"), a1, a2 + a3, b1, b2 + b3);
    CutUnique((l: string) => StartsWith(l, "dev:"), a2, a3, b2, b3);
  }

  lemma SingleLines(r: Request)
    requires Line(r.manifest.name) && Line(r.manifest.version)
    requires LineDeps(r.manifest.dependencies) && LineDeps(r.manifest.devDependencies)
    requires LineDeps(r.manifest.buildDependencies)
    ensures FrontLines(r) == Lines(r.source) + [r.manifest.name, r.manifest.version] + AllDepLines(r.manifest)
  {
    hide Lines, LinesOfAll, AllDepLines;
    LinesOfLine(r.manifest.name);
    LinesOfLine(r.manifest.version);
    AllDepLinesAreDepLines(r.manifest);
    LinesOfAllLines(AllDepLines(r.manifest));
  }

  /** The dependency lines can be peeled off the front down to the manifest's own version. */
  lemma FrontDetermines(a: Request, b: Request)
    requires PlainManifest(a.manifest) && PlainManifest(b.manifest) && FrontLines(a) == FrontLines(b)
    ensures a.source == b.source && a.manifest.name == b.manifest.name && a.manifest.version == b.manifest.version
    ensures AllDepLines(a.manifest) == AllDepLines(b.manifest)
  {
    hide StartsWith, AllDepLines, Lines, IsDepLine, FrontLines;
    var fa := Lines(a.source) + [a.manifest.name, a.manifest.version];
    var fb := Lines(b.source) + [b.manifest.name, b.manifest.version];
    SingleLines(a);
    SingleLines(b);
    AllDepLinesAreDepLines(a.manifest);
    AllDepLinesAreDepLines(b.manifest);
    PeelUnique(l => IsDepLine(l), fa, AllDepLines(a.manifest), fb, AllDepLines(b.manifest));
    assert fa[|fa| - 1] == a.manifest.version && fb[|fb| - 1] == b.manifest.version;
    assert fa[|fa| - 2] == a.manifest.name && fb[|fb| - 2] == b.manifest.name;
    assert Lines(a.source) == fa[..|fa| - 2] && Lines(b.source) == fb[..|fb| - 2];
    LinesDetermine(a.source, b.source);
  }

  lemma SameListsSorted(a: Manifest, b: Manifest)
    ensures SameUnderNames(a.dependencies, b.dependencies) <==>
            SortByName(a.dependencies) == SortByName(b.dependencies)
    ensures SameUnderNames(a.devDependencies, b.devDependencies) <==>
            SortByName(a.devDependencies) == SortByName(b.devDependencies)
    ensures SameUnderNames(a.buildDependencies, b.buildDependencies) <==>
            SortByName(a.buildDependencies) == SortByName(b.buildDependencies)
  {
    hide SortByName, SameUnderNames;
    SortKeepsOrderUnderNames(a.dependencies, b.dependencies);
    SortKeepsOrderUnderNames(a.devDependencies, b.devDependencies);
    SortKeepsOrderUnderNames(a.buildDependencies, b.buildDependencies);
  }

  predicate OneRequirementEach(m: Manifest) {
    OneRequirement(m.dependencies) && OneRequirement(m.devDependencies) && OneRequirement(m.buildDependencies)
  }

  /** When no crate has two requirements, nothing is left of the order. */
  lemma FieldsAreRequest(a: Request, b: Request)
    requires OneRequirementEach(a.manifest)
    ensures SameKeyFields(a, b) <==> SameRequest(a, b)
  {
    hide SortByName, SameUnderNames;
    SameListsSorted(a.manifest, b.manifest);
    SortForgetsOrder(a.manifest.dependencies, b.manifest.dependencies);
    SortForgetsOrder(a.manifest.devDependencies, b.manifest.devDependencies);
    SortForgetsOrder(a.manifest.buildDependencies, b.manifest.buildDependencies);
  }

  /** "Same inputs = same key", and reordering a list below its names leaves the key text alone. */
  lemma ReorderingKeepsKey(a: Request, b: Request)
    ensures SameKeyFields(a, b) ==> Preimage(a) == Preimage(b)
    ensures OneRequirementEach(a.manifest) && SameRequest(a, b) ==> Preimage(a) == Preimage(b)
  {
    hide SortByName, DepLines, SameUnderNames, Display, OneRequirementEach, SameRequest;
    SameListsSorted(a.manifest, b.manifest);
    if OneRequirementEach(a.manifest) {
      FieldsAreRequest(a, b);
    }
  }

  /** Plain requests share a key text exactly when they agree in every field, up to the order of dependencies of
      different names; and when no crate has two requirements, up to any order. */
  lemma KeyDetermines(a: Request, b: Request)
    ensures PlainRequest(a) && PlainRequest(b) ==> (Preimage(a) == Preimage(b) <==> SameKeyFields(a, b))
    ensures PlainRequest(a) && PlainRequest(b) && OneRequirementEach(a.manifest) ==>
              (Preimage(a) == Preimage(b) <==> SameRequest(a, b))
  {
    hide Preimage, KeyLines, FrontLines, FrontEndsAt, PlainManifest, SortByName, SameUnderNames, OneRequirementEach;
    hide SameRequest, AllDepLines;
    ReorderingKeepsKey(a, b);
    SameTextSameLines(a, b);
    if PlainRequest(a) && PlainRequest(b) && Preimage(a) == Preimage(b) {
      OwnCut(a);
      OwnCut(b);
      SameCut(a, b);
      FrontDetermines(a, b);
      AllDepLinesDetermine(a.manifest, b.manifest);
      SameListsSorted(a.manifest, b.manifest);
    }
    if OneRequirementEach(a.manifest) {
      FieldsAreRequest(a, b);
    }
  }

  /** No line of the source, the name or the version starting like a schema is enough for no earlier cut. */
  lemma UnmarkedIsUncut(r: Request)
    requires PlainManifest(r.manifest)
    ensures (forall l :: l in Lines(r.source) + [r.manifest.name, r.manifest.version] ==> !StartsWith(l, SCHEMA)) ==>
              NoEarlierCut(r)
  {
    hide StartsWith, AllDepLines, Lines, FrontLines, Display, VersionText, SchemaLines, IsDepLine;
    SingleLines(r);
    AllDepLinesAreDepLines(r.manifest);
    DisplayIsLine(r.runnerVersion);
    var own := Lines(r.source) + [r.manifest.name, r.manifest.version];
    if forall l :: l in own ==> !StartsWith(l, SCHEMA) {
      var t := KeyLines(r);
      var n := |FrontLines(r)|;
      forall i | i < n ensures !FrontEndsAt(t, i) {
        if 3 <= i {
          var l := t[i + 2];
          if i + 2 < n {
            assert l == FrontLines(r)[i + 2];
            assert l in own || l in AllDepLines(r.manifest);
            TagsDiffer(l);
          } else {
            assert l == "" || l == Display(r.runnerVersion);
            Unmarked(l);
          }
        }
      }
    }
  }

  lemma Unmarked(line: string)
    ensures line == "" || '0' <= line[0] <= '9' ==> !StartsWith(line, SCHEMA)
  {
    assert SCHEMA[0] == 'p';
    assert StartsWith(line, SCHEMA) ==> line[0] == line[..|SCHEMA|][0];
  }
}
