/**
  The build driver in front of the artifact cache (driver.rs, artifact_cache.rs, linter.rs), over every sequence
  of builds. The compiler is a function of the request, the source lint an arbitrary predicate, and the hash has
  no collisions; nothing else writes or deletes files.
*/
module BuildCache {
  import opened Basics
  import opened BuildKey
  import opened KeyRivals
  import opened RunnerVersion

  type Key = nat

  /** A library lies in the project directory of its key. */
  datatype Path = Path(project: Key, file: string)

  datatype Artifact = Artifact(key: Key, library: Path, runnerVersion: Version, sourceSize: nat)

  datatype Outcome = CacheHit(artifact: Artifact) | Compiled(artifact: Artifact)

  datatype BuildError = ParamsSchema | SourceLint | ManifestLint | Cargo

  datatype Tools = Tools(hash: string -> Key, parseSchema: string -> Option<string>, sourceClean: string -> bool,
                         allowed: set<string>, compile: Request -> Option<string>)

  /** One cargo invocation. */
  datatype Run = Run(request: Request, ok: bool)

  /** What is on disk, and the cargo invocations so far. */
  datatype Disk = Disk(metadata: map<Key, Artifact>, schemas: map<Key, string>, libraries: map<Path, string>,
                       runs: seq<Run>)

  const EMPTY := Disk(map[], map[], map[], [])

  function KeyOf(t: Tools, r: Request): Key {
    t.hash(Preimage(r))
  }

  function Underscored(name: string): string {
    seq(|name|, i requires 0 <= i < |name| => if name[i] == '-' then '_' else name[i])
  }

  function LibraryOf(t: Tools, r: Request): Path {
    Path(KeyOf(t, r), "lib" + Underscored(r.manifest.name) + ".so")
  }

  function ArtifactOf(t: Tools, r: Request): Artifact {
    Artifact(KeyOf(t, r), LibraryOf(t, r), r.runnerVersion, |r.source|)
  }

  /** The error found before the cache is looked at, if any. */
  function Refusal(t: Tools, r: Request): Option<BuildError> {
    if r.schema.Some? && t.parseSchema(r.schema.value).None? then Some(ParamsSchema)
    else if !t.sourceClean(r.source) then Some(SourceLint)
    else if !LintClean(r.manifest, t.allowed) then Some(ManifestLint)
    else None
  }

  function Lookup(d: Disk, key: Key): Option<Artifact> {
    if key in d.metadata && d.metadata[key].key == key && d.metadata[key].library in d.libraries
    then Some(d.metadata[key]) else None
  }

  function SchemasAfter(t: Tools, d: Disk, r: Request): map<Key, string> {
    if r.schema.None? || t.parseSchema(r.schema.value).None? then d.schemas
    else d.schemas[KeyOf(t, r) := t.parseSchema(r.schema.value).value]
  }

  /** One build: what it leaves on disk, and what it returns. */
  function Build(t: Tools, d: Disk, r: Request): (Disk, Result<Outcome, BuildError>) {
    var key := KeyOf(t, r);
    if Refusal(t, r).Some? then (d, Err(Refusal(t, r).value))
    else if Lookup(d, key).Some? then (d, Ok(CacheHit(Lookup(d, key).value)))
    else if t.compile(r).None? then (d.(runs := d.runs + [Run(r, false)]), Err(Cargo))
    else (Stored(t, d, r, t.compile(r).value), Ok(Compiled(ArtifactOf(t, r))))
  }

  function Stored(t: Tools, d: Disk, r: Request, library: string): Disk {
    Disk(d.metadata[KeyOf(t, r) := ArtifactOf(t, r)], SchemasAfter(t, d, r), d.libraries[LibraryOf(t, r) := library],
         d.runs + [Run(r, true)])
  }

  class BuildDriver {
    const tools: Tools
    var metadata: map<Key, Artifact>
    var schemas: map<Key, string>
    var libraries: map<Path, string>
    var runs: seq<Run>

    constructor (tools: Tools)
      ensures this.tools == tools && Contents() == EMPTY
    {
      this.tools := tools;
      metadata, schemas, libraries, runs := map[], map[], map[], [];
    }

    function Contents(): Disk
      reads this
    {
      Disk(metadata, schemas, libraries, runs)
    }

    method LookupArtifact(key: Key) returns (cached: Option<Artifact>)
      ensures cached == Lookup(Contents(), key)
    {
      if key !in metadata {
        return None;
      }
      var artifact := metadata[key];
      if artifact.key != key || artifact.library !in libraries {
        return None;
      }
      cached := Some(artifact);
    }

    method Store(key: Key, library: Path, runnerVersion: Version, sourceSize: nat) returns (artifact: Artifact)
      modifies this`metadata
      ensures artifact == Artifact(key, library, runnerVersion, sourceSize)
      ensures metadata == old(metadata)[key := artifact]
    {
      artifact := Artifact(key, library, runnerVersion, sourceSize);
      metadata := metadata[key := artifact];
    }

    /** The injected compiler: one more run, and on success a library in the project directory. */
    method RunCargo(key: Key, r: Request) returns (library: Option<Path>)
      requires key == KeyOf(tools, r)
      modifies this`libraries, this`runs
      ensures runs == old(runs) + [Run(r, tools.compile(r).Some?)]
      ensures library == if tools.compile(r).Some? then Some(LibraryOf(tools, r)) else None
      ensures libraries == if tools.compile(r).Some? then old(libraries)[LibraryOf(tools, r) := tools.compile(r).value]
                           else old(libraries)
    {
      var compiled := tools.compile(r);
      runs := runs + [Run(r, compiled.Some?)];
      if compiled.None? {
        return None;
      }
      var path := LibraryOf(tools, r);
      libraries := libraries[path := compiled.value];
      library := Some(path);
    }

    method BuildImpl(r: Request) returns (outcome: Result<Outcome, BuildError>)
      modifies this
      ensures (Contents(), outcome) == Build(tools, old(Contents()), r)
    {
      var parsed: Option<string> := None;
      if r.schema.Some? {
        parsed := tools.parseSchema(r.schema.value);
        if parsed.None? {
          return Err(ParamsSchema);
        }
      }
      var violations := LintManifest(r.manifest, tools.allowed);
      if !tools.sourceClean(r.source) {
        return Err(SourceLint);
      }
      if violations != [] {
        return Err(ManifestLint);
      }
      var key := KeyOf(tools, r);
      var cached := LookupArtifact(key);
      if cached.Some? {
        return Ok(CacheHit(cached.value));
      }
      var library := RunCargo(key, r);
      if library.None? {
        return Err(Cargo);
      }
      var stored := Store(key, library.value, r.runnerVersion, |r.source|);
      if parsed.Some? {
        schemas := schemas[key := parsed.value];
      }
      outcome := Ok(Compiled(stored));
    }
  }

  // ----- what is refused

  function Lists(m: Manifest): seq<seq<Dep>> {
    [m.dependencies, m.devDependencies, m.buildDependencies]
  }

  predicate Stands(m: Manifest, a: int, i: int) {
    0 <= a < 3 && 0 <= i < |Lists(m)[a]|
  }

  /** No name stands in two places of the three lists, and every name is allowed. */
  ghost predicate ManifestInOrder(m: Manifest, allowed: set<string>) {
    && (forall a, i :: Stands(m, a, i) ==> Lists(m)[a][i].name in allowed)
    && (forall a, i, b, j ::
          Stands(m, a, i) && Stands(m, b, j) && Lists(m)[a][i].name == Lists(m)[b][j].name ==> a == b && i == j)
  }

  predicate SchemaInOrder(t: Tools, r: Request) {
    r.schema.Some? ==> t.parseSchema(r.schema.value).Some?
  }

  /** Where the `i`-th dependency of list `a` stands among all. */
  function Place(m: Manifest, a: int, i: int): int {
    if a == 0 then i
    else if a == 1 then |m.dependencies| + i
    else |m.dependencies| + |m.devDependencies| + i
  }

  lemma PlaceIs(m: Manifest, a: int, i: int)
    requires Stands(m, a, i)
    ensures 0 <= Place(m, a, i) < |AllDeps(m)| && AllDeps(m)[Place(m, a, i)] == Lists(m)[a][i]
  {}

  lemma PlaceOf(m: Manifest, k: int) returns (a: int, i: int)
    requires 0 <= k < |AllDeps(m)|
    ensures Stands(m, a, i) && Place(m, a, i) == k && AllDeps(m)[k] == Lists(m)[a][i]
  {
    var n, l := |m.dependencies|, |m.devDependencies|;
    if k < n {
      a, i := 0, k;
    } else if k < n + l {
      a, i := 1, k - n;
    } else {
      a, i := 2, k - n - l;
    }
  }

  lemma LintCleanExactly(m: Manifest, allowed: set<string>)
    ensures LintClean(m, allowed) <==> ManifestInOrder(m, allowed)
  {
    hide AllDeps;
    if LintClean(m, allowed) {
      forall a, i | Stands(m, a, i) ensures Lists(m)[a][i].name in allowed {
        PlaceIs(m, a, i);
      }
      forall a, i, b, j | Stands(m, a, i) && Stands(m, b, j) && Lists(m)[a][i].name == Lists(m)[b][j].name
        ensures a == b && i == j
      {
        PlaceIs(m, a, i);
        PlaceIs(m, b, j);
        PlacesDiffer(m, a, i, b, j);
      }
    }
    if ManifestInOrder(m, allowed) {
      forall d | d in AllDeps(m) ensures d.name in allowed {
        var k :| 0 <= k < |AllDeps(m)| && AllDeps(m)[k] == d;
        var a, i := PlaceOf(m, k);
      }
      forall k, l | 0 <= k < l < |AllDeps(m)| ensures AllDeps(m)[k].name != AllDeps(m)[l].name {
        var a, i := PlaceOf(m, k);
        var b, j := PlaceOf(m, l);
      }
    }
  }

  lemma PlacesDiffer(m: Manifest, a: int, i: int, b: int, j: int)
    requires Stands(m, a, i) && Stands(m, b, j)
    ensures Place(m, a, i) == Place(m, b, j) ==> a == b && i == j
  {}

  /** What a build refuses before it looks at the cache, whatever is on disk: first a schema that does not parse, then
      a source that is not clean, then a manifest that is not in order. Refusing changes nothing. */
  lemma RefusesExactly(t: Tools, d: Disk, r: Request)
    ensures var e := Build(t, d, r);
            && (e.1 == Err(ParamsSchema) <==> !SchemaInOrder(t, r))
            && (e.1 == Err(SourceLint) <==> SchemaInOrder(t, r) && !t.sourceClean(r.source))
            && (e.1 == Err(ManifestLint) <==>
                  SchemaInOrder(t, r) && t.sourceClean(r.source) && !ManifestInOrder(r.manifest, t.allowed))
            && (e.1.Err? && e.1.error != Cargo ==> e.0 == d)
  {
    hide LintClean, ManifestInOrder, Stored, Lookup, KeyOf;
    LintCleanExactly(r.manifest, t.allowed);
  }

  /** A hit needs all three: a record under the key, the key in the record, and its library on disk; otherwise the
      request is compiled, even if a record is there. */
  lemma HitsExactly(t: Tools, d: Disk, r: Request)
    requires SchemaInOrder(t, r) && t.sourceClean(r.source) && ManifestInOrder(r.manifest, t.allowed)
    ensures var e, key := Build(t, d, r), KeyOf(t, r);
            var found := key in d.metadata && d.metadata[key].key == key && d.metadata[key].library in d.libraries;
            && (found ==> e == (d, Ok(CacheHit(d.metadata[key]))))
            && (!found ==>
                  && e.0.runs == d.runs + [Run(r, t.compile(r).Some?)]
                  && (e.1 == Err(Cargo) <==> t.compile(r).None?)
                  && (t.compile(r).Some? ==>
                        && e.1.Ok? && e.1.value.Compiled? && e.1.value.artifact.key == key
                        && e.1.value.artifact.library.project == key
                        && e.1.value.artifact.library in e.0.libraries
                        && e.0.libraries[e.1.value.artifact.library] == t.compile(r).value))
  {
    hide LintClean, ManifestInOrder, Preimage;
    LintCleanExactly(r.manifest, t.allowed);
  }

  /** The library's file: `lib`, the crate name with underscores for dashes, `.so`. */
  lemma LibraryNamed(t: Tools, r: Request)
    ensures var file, name := LibraryOf(t, r).file, r.manifest.name;
            && |file| == |name| + 6 && file[..3] == "lib" && file[|name| + 3..] == ".so"
            && forall i :: 0 <= i < |name| ==> file[i + 3] == if name[i] == '-' then '_' else name[i]
  {}

  // ----- every sequence of builds

  function After(t: Tools, requests: seq<Request>): Disk {
    if requests == [] then EMPTY
    else Build(t, After(t, requests[..|requests| - 1]), requests[|requests| - 1]).0
  }

  /** Everything that a successful run of `r` leaves behind. */
  predicate Recorded(t: Tools, d: Disk, r: Request) {
    var key := KeyOf(t, r);
    && key in d.metadata && d.metadata[key] == ArtifactOf(t, r)
    && t.compile(r).Some?
    && LibraryOf(t, r) in d.libraries && d.libraries[LibraryOf(t, r)] == t.compile(r).value
    && (r.schema.Some? ==>
          && t.parseSchema(r.schema.value).Some?
          && key in d.schemas && d.schemas[key] == t.parseSchema(r.schema.value).value)
    && (r.schema.None? ==> key !in d.schemas)
  }

  predicate MadeBy(t: Tools, d: Disk, key: Key, i: nat) {
    i < |d.runs| && d.runs[i].ok && KeyOf(t, d.runs[i].request) == key
  }

  predicate RunsClean(t: Tools, d: Disk) {
    forall i :: 0 <= i < |d.runs| ==> Refusal(t, d.runs[i].request).None?
  }

  predicate RunsRecorded(t: Tools, d: Disk) {
    forall i :: 0 <= i < |d.runs| && d.runs[i].ok ==> Recorded(t, d, d.runs[i].request)
  }

  /** After a successful run, cargo is never invoked for the same key again. */
  predicate CompiledOnce(t: Tools, d: Disk) {
    forall i, j :: 0 <= i < j < |d.runs| && d.runs[i].ok ==>
      KeyOf(t, d.runs[i].request) != KeyOf(t, d.runs[j].request)
  }

  ghost predicate AllMade(t: Tools, d: Disk) {
    forall key :: key in d.metadata ==> exists i :: MadeBy(t, d, key, i)
  }

  predicate AllHome(d: Disk) {
    && (forall key :: key in d.schemas ==> key in d.metadata)
    && (forall path :: path in d.libraries ==> path.project in d.metadata)
  }

  ghost predicate Good(t: Tools, d: Disk) {
    RunsClean(t, d) && RunsRecorded(t, d) && CompiledOnce(t, d) && AllMade(t, d) && AllHome(d)
  }

  /** Nothing on disk changes or goes away, and the runs so far stay. */
  predicate Extends(d: Disk, e: Disk) {
    && (forall k :: k in d.metadata ==> k in e.metadata && e.metadata[k] == d.metadata[k])
    && (forall k :: k in d.schemas ==> k in e.schemas && e.schemas[k] == d.schemas[k])
    && (forall p :: p in d.libraries ==> p in e.libraries && e.libraries[p] == d.libraries[p])
    && |d.runs| <= |e.runs| && e.runs[..|d.runs|] == d.runs
  }

  /** What the cache knows of a key, a successful run left there, and the lookup finds it. */
  lemma HitIsRecorded(t: Tools, d: Disk, key: Key) returns (i: nat)
    requires Good(t, d) && key in d.metadata
    ensures MadeBy(t, d, key, i) && Recorded(t, d, d.runs[i].request)
    ensures Lookup(d, key) == Some(ArtifactOf(t, d.runs[i].request))
  {
    i :| MadeBy(t, d, key, i);
  }

  lemma RecordedKey(t: Tools, d: Disk, r: Request)
    requires Recorded(t, d, r)
    ensures KeyOf(t, r) in d.metadata
  {}

  lemma LibraryHome(t: Tools, r: Request)
    ensures LibraryOf(t, r).project == KeyOf(t, r)
  {}

  lemma StoredExtends(t: Tools, d: Disk, r: Request, library: string)
    requires AllHome(d) && KeyOf(t, r) !in d.metadata
    ensures Extends(d, Stored(t, d, r, library)) && AllHome(Stored(t, d, r, library))
  {
    hide LibraryOf, KeyOf, ArtifactOf;
    LibraryHome(t, r);
  }

  lemma RecordedStays(t: Tools, d: Disk, r: Request, new_: Request, library: string)
    requires Recorded(t, d, r) && AllHome(d) && KeyOf(t, new_) !in d.metadata
    ensures Recorded(t, Stored(t, d, new_, library), r)
  {}

  lemma FreshRecorded(t: Tools, d: Disk, r: Request)
    requires AllHome(d) && Refusal(t, r).None? && KeyOf(t, r) !in d.metadata && t.compile(r).Some?
    ensures Recorded(t, Stored(t, d, r, t.compile(r).value), r)
  {}

  /** One more run of a key that no successful run had. */
  lemma OneMoreRun(t: Tools, d: Disk, e: Disk, run: Run)
    requires Good(t, d) && Refusal(t, run.request).None? && KeyOf(t, run.request) !in d.metadata
    requires e.runs == d.runs + [run]
    ensures RunsClean(t, e) && CompiledOnce(t, e)
  {
    hide Refusal, KeyOf, Recorded;
    forall i | 0 <= i < |d.runs| && d.runs[i].ok
      ensures KeyOf(t, d.runs[i].request) != KeyOf(t, run.request)
    {
      RecordedKey(t, d, d.runs[i].request);
    }
  }

  lemma RecordedWhatever(t: Tools, d: Disk, runs: seq<Run>, r: Request)
    requires Recorded(t, d, r)
    ensures Recorded(t, d.(runs := runs), r)
  {}

  lemma FailedKeeps(t: Tools, d: Disk, r: Request)
    requires Good(t, d) && Refusal(t, r).None? && KeyOf(t, r) !in d.metadata
    ensures Good(t, d.(runs := d.runs + [Run(r, false)]))
  {
    hide Refusal, KeyOf, LibraryOf, ArtifactOf, Recorded, RunsClean, CompiledOnce;
    var e := d.(runs := d.runs + [Run(r, false)]);
    OneMoreRun(t, d, e, Run(r, false));
    forall i | 0 <= i < |e.runs| && e.runs[i].ok ensures Recorded(t, e, e.runs[i].request) {
      RecordedWhatever(t, d, e.runs, d.runs[i].request);
    }
    forall key | key in e.metadata ensures exists i :: MadeBy(t, e, key, i) {
      var i :| MadeBy(t, d, key, i);
      assert MadeBy(t, e, key, i);
    }
  }

  lemma StoredKeeps(t: Tools, d: Disk, r: Request)
    requires Good(t, d) && Refusal(t, r).None? && KeyOf(t, r) !in d.metadata && t.compile(r).Some?
    ensures Good(t, Stored(t, d, r, t.compile(r).value))
  {
    hide Refusal, KeyOf, LibraryOf, ArtifactOf, Recorded, AllHome;
    var library := t.compile(r).value;
    var e := Stored(t, d, r, library);
    StoredExtends(t, d, r, library);
    OneMoreRun(t, d, e, Run(r, true));
    forall i | 0 <= i < |e.runs| && e.runs[i].ok ensures Recorded(t, e, e.runs[i].request) {
      if i < |d.runs| {
        RecordedStays(t, d, d.runs[i].request, r, library);
      } else {
        FreshRecorded(t, d, r);
      }
    }
    forall key | key in e.metadata ensures exists i :: MadeBy(t, e, key, i) {
      if key in d.metadata {
        var i :| MadeBy(t, d, key, i);
        assert MadeBy(t, e, key, i);
      } else {
        assert MadeBy(t, e, key, |d.runs|);
      }
    }
  }

  /** One build keeps the invariant, and neither overwrites nor removes anything. */
  lemma BuildKeeps(t: Tools, d: Disk, r: Request)
    requires Good(t, d)
    ensures Good(t, Build(t, d, r).0) && Extends(d, Build(t, d, r).0)
  {
    hide Refusal, KeyOf, Good, Stored, Lookup;
    if Refusal(t, r).None? && KeyOf(t, r) in d.metadata {
      var i := HitIsRecorded(t, d, KeyOf(t, r));
    } else if Refusal(t, r).None? {
      NoLookup(d, KeyOf(t, r));
      if t.compile(r).None? {
        FailedKeeps(t, d, r);
      } else {
        StoredKeeps(t, d, r);
        GoodHome(t, d);
        StoredExtends(t, d, r, t.compile(r).value);
      }
    }
  }

  lemma NoLookup(d: Disk, key: Key)
    requires key !in d.metadata
    ensures Lookup(d, key).None?
  {}

  lemma GoodHome(t: Tools, d: Disk)
    requires Good(t, d)
    ensures AllHome(d)
  {}

  lemma {:induction false} GoodAfter(t: Tools, requests: seq<Request>)
    ensures Good(t, After(t, requests))
  {
    hide Build, Good;
    if requests == [] {
      GoodEmpty(t);
    } else {
      GoodAfter(t, requests[..|requests| - 1]);
      BuildKeeps(t, After(t, requests[..|requests| - 1]), requests[|requests| - 1]);
    }
  }

  lemma GoodEmpty(t: Tools)
    ensures Good(t, EMPTY)
  {}

  /** A later state keeps every library, artifact record and schema of an earlier one. */
  lemma {:induction false} NothingOverwritten(t: Tools, before: seq<Request>, more: seq<Request>)
    ensures Extends(After(t, before), After(t, before + more))
    decreases |more|
  {
    hide Build, Good;
    if more == [] {
      assert before + more == before;
    } else {
      var n := |more| - 1;
      NothingOverwritten(t, before, more[..n]);
      assert (before + more)[..|before + more| - 1] == before + more[..n];
      GoodAfter(t, before + more[..n]);
      BuildKeeps(t, After(t, before + more[..n]), more[n]);
      ExtendsTransitive(After(t, before), After(t, before + more[..n]), After(t, before + more));
    }
  }

  lemma ExtendsTransitive(a: Disk, b: Disk, c: Disk)
    requires Extends(a, b) && Extends(b, c)
    ensures Extends(a, c)
  {}

  /** Cargo's side of any run of builds: no invocation on refused input, and none after a success for its key. */
  lemma CargoRuns(t: Tools, requests: seq<Request>)
    ensures forall i :: 0 <= i < |After(t, requests).runs| ==>
              var q := After(t, requests).runs[i].request;
              SchemaInOrder(t, q) && t.sourceClean(q.source) && ManifestInOrder(q.manifest, t.allowed)
    ensures forall i, j :: 0 <= i < j < |After(t, requests).runs| && After(t, requests).runs[i].ok ==>
              KeyOf(t, After(t, requests).runs[i].request) != KeyOf(t, After(t, requests).runs[j].request)
  {
    hide KeyOf, Refusal, After, SchemaInOrder, ManifestInOrder;
    GoodAfter(t, requests);
    forall i | 0 <= i < |After(t, requests).runs|
      ensures var q := After(t, requests).runs[i].request;
              SchemaInOrder(t, q) && t.sourceClean(q.source) && ManifestInOrder(q.manifest, t.allowed)
    {
      RefusalExactly(t, After(t, requests).runs[i].request);
    }
  }

  lemma RefusalExactly(t: Tools, r: Request)
    ensures Refusal(t, r).None? <==>
            SchemaInOrder(t, r) && t.sourceClean(r.source) && ManifestInOrder(r.manifest, t.allowed)
  {
    hide LintClean, ManifestInOrder;
    LintCleanExactly(r.manifest, t.allowed);
  }

  // ----- what the cache serves

  /** The first of the requests that passes the checks, has this key and compiles. */
  function Maker(t: Tools, requests: seq<Request>, key: Key): Option<Request> {
    if requests == [] then None
    else
      var n := |requests| - 1;
      var earlier := Maker(t, requests[..n], key);
      if earlier.Some? then earlier
      else if Makes(t, requests[n], key) then Some(requests[n]) else None
  }

  predicate Makes(t: Tools, r: Request, key: Key) {
    Refusal(t, r).None? && KeyOf(t, r) == key && t.compile(r).Some?
  }

  lemma {:induction false} MakerMakes(t: Tools, requests: seq<Request>, key: Key)
    ensures Maker(t, requests, key).Some? ==>
              Makes(t, Maker(t, requests, key).value, key) && Maker(t, requests, key).value in requests
  {
    hide Makes;
    if requests != [] {
      MakerMakes(t, requests[..|requests| - 1], key);
    }
  }

  /** The record of a key is there exactly when it has a maker, and it is what the maker's run left behind. */
  lemma {:induction false} MakerRecorded(t: Tools, requests: seq<Request>, key: Key)
    ensures key in After(t, requests).metadata <==> Maker(t, requests, key).Some?
    ensures Maker(t, requests, key).Some? ==> Recorded(t, After(t, requests), Maker(t, requests, key).value)
  {
    hide Refusal, KeyOf, Good, Stored, Lookup, Recorded;
    if requests != [] {
      var n := |requests| - 1;
      var r, d := requests[n], After(t, requests[..n]);
      MakerRecorded(t, requests[..n], key);
      GoodAfter(t, requests[..n]);
      GoodHome(t, d);
      var own := KeyOf(t, r);
      if Refusal(t, r).None? && own in d.metadata {
        var i := HitIsRecorded(t, d, own);
      } else if Refusal(t, r).None? {
        NoLookup(d, own);
        if t.compile(r).None? {
          Unrecorded(t, d, Run(r, false), Maker(t, requests, key));
        } else {
          FreshRecorded(t, d, r);
          KeysStored(t, d, r, t.compile(r).value);
          if Maker(t, requests[..n], key).Some? {
            RecordedStays(t, d, Maker(t, requests[..n], key).value, r, t.compile(r).value);
          }
        }
      }
    }
  }

  lemma Unrecorded(t: Tools, d: Disk, run: Run, maker: Option<Request>)
    ensures maker.Some? && Recorded(t, d, maker.value) ==> Recorded(t, d.(runs := d.runs + [run]), maker.value)
  {}

  lemma KeysStored(t: Tools, d: Disk, r: Request, library: string)
    ensures Stored(t, d, r, library).metadata.Keys == d.metadata.Keys + {KeyOf(t, r)}
  {}

  /** The parsed schema of a request that was not refused. */
  function Declared(t: Tools, r: Request): Option<string> {
    if r.schema.None? then None else t.parseSchema(r.schema.value)
  }

  function SchemaAt(d: Disk, key: Key): Option<string> {
    if key in d.schemas then Some(d.schemas[key]) else None
  }

  /** What any build after any sequence of builds gives, whatever the tools: a refused request its error, and any
      other the artifact, library and schema of the first clean request with the same key that compiles, itself
      included; a hit exactly when there is an earlier one, and an error of cargo when there is none. */
  lemma CacheServesMaker(t: Tools, requests: seq<Request>, r: Request)
    ensures var e := Build(t, After(t, requests), r);
            var m := Maker(t, requests + [r], KeyOf(t, r));
            if Refusal(t, r).Some? then e == (After(t, requests), Err(Refusal(t, r).value))
            else if m.None? then e.1 == Err(Cargo)
            else
              && e.1.Ok? && e.1.value.artifact == ArtifactOf(t, m.value)
              && (e.1.value.CacheHit? <==> Maker(t, requests, KeyOf(t, r)).Some?)
              && t.compile(m.value).Some? && e.1.value.artifact.library in e.0.libraries
              && e.0.libraries[e.1.value.artifact.library] == t.compile(m.value).value
              && SchemaAt(e.0, KeyOf(t, r)) == Declared(t, m.value)
  {
    hide Refusal, KeyOf, Good, Lookup, Recorded;
    var d, key, all := After(t, requests), KeyOf(t, r), requests + [r];
    assert all[..|all| - 1] == requests && all[|all| - 1] == r;
    MakerRecorded(t, requests, key);
    MakerRecorded(t, all, key);
    MakerMakes(t, all, key);
    GoodAfter(t, requests);
    if Refusal(t, r).None? {
      if key in d.metadata {
        var i := HitIsRecorded(t, d, key);
      } else {
        NoLookup(d, key);
      }
      if Maker(t, all, key).Some? {
        RecordedGives(t, After(t, all), Maker(t, all, key).value);
      }
    }
  }

  lemma RecordedGives(t: Tools, d: Disk, r: Request)
    requires Recorded(t, d, r)
    ensures var a := ArtifactOf(t, r);
            && KeyOf(t, r) in d.metadata && d.metadata[KeyOf(t, r)] == a
            && t.compile(r).Some? && a.library in d.libraries && d.libraries[a.library] == t.compile(r).value
            && SchemaAt(d, KeyOf(t, r)) == Declared(t, r)
  {}

  /** A rival is served the other's library: so transparency ends where key texts are shared. */
  lemma RivalIsServed(t: Tools, q: Request, r: Request)
    requires Rival(q, r) && Refusal(t, q).None? && Refusal(t, r).None? && t.compile(q).Some?
    ensures var e := Build(t, After(t, [q]), r);
            && e.1 == Ok(CacheHit(ArtifactOf(t, q)))
            && LibraryOf(t, q) in e.0.libraries && e.0.libraries[LibraryOf(t, q)] == t.compile(q).value
  {
    hide Refusal, Preimage, SameRequest, Build, After;
    assert Maker(t, [q][..0], KeyOf(t, r)).None?;
    assert Maker(t, [q], KeyOf(t, r)) == Some(q);
    assert ([q] + [r])[..1] == [q];
    assert Maker(t, [q] + [r], KeyOf(t, r)) == Some(q);
    CacheServesMaker(t, [q], r);
  }

  // ----- transparency

  ghost predicate CollisionFree(t: Tools) {
    forall a, b :: t.hash(a) == t.hash(b) ==> a == b
  }

  /** The compiler does not look at the order inside the dependency lists. */
  ghost predicate OrderBlind(t: Tools) {
    forall a, b :: SameRequest(a, b) ==> t.compile(a) == t.compile(b)
  }

  /** If the request passes the checks, it is plain, so the key text tells it apart from other plain ones. */
  ghost predicate Telling(t: Tools, r: Request) {
    Refusal(t, r).None? ==> PlainRequest(r)
  }

  lemma LintGivesOneRequirement(m: Manifest, allowed: set<string>)
    requires LintClean(m, allowed)
    ensures OneRequirementEach(m)
  {
    var all := AllDeps(m);
    var i, j := |m.dependencies|, |m.dependencies + m.devDependencies|;
    assert m.dependencies == all[..i] && m.devDependencies == all[i..j] && m.buildDependencies == all[j..];
    forall a, b | a in all && b in all && a.name == b.name ensures a == b {
      var x :| 0 <= x < |all| && all[x] == a;
      var y :| 0 <= y < |all| && all[y] == b;
    }
  }

  /** Two lint-clean plain requests with one key are the same, up to the order of their dependencies. */
  lemma SameKeySameRequest(t: Tools, a: Request, b: Request)
    requires CollisionFree(t) && Refusal(t, a).None? && Refusal(t, b).None? && Telling(t, a) && Telling(t, b)
    ensures KeyOf(t, a) == KeyOf(t, b) <==> SameRequest(a, b)
  {
    hide LintClean, PlainRequest, Preimage, SameRequest, OneRequirementEach, SameKeyFields;
    LintGivesOneRequirement(a.manifest, t.allowed);
    KeyDetermines(a, b);
  }

  /** The cache cannot be told from compiling every time: after any sequence of builds, a build succeeds exactly
      when its request is clean and compiles, and then the returned library holds what compiling this very
      request gives, and the schema on record is the one this request declares. */
  lemma CacheIsTransparent(t: Tools, requests: seq<Request>, r: Request)
    requires CollisionFree(t) && OrderBlind(t)
    requires Telling(t, r) && forall q :: q in requests ==> Telling(t, q)
    ensures var e := Build(t, After(t, requests), r);
            && (e.1.Ok? <==> Refusal(t, r).None? && t.compile(r).Some?)
            && (e.1.Ok? ==>
                  && e.1.value.artifact.key == KeyOf(t, r)
                  && e.1.value.artifact.library in e.0.libraries
                  && e.0.libraries[e.1.value.artifact.library] == t.compile(r).value
                  && e.1.value.artifact.runnerVersion == r.runnerVersion
                  && e.1.value.artifact.sourceSize == |r.source|
                  && SchemaAt(e.0, KeyOf(t, r)) == Declared(t, r))
  {
    hide Refusal, KeyOf, Telling, After, SameUpToOrder, LibraryOf, Build;
    var all, key := requests + [r], KeyOf(t, r);
    assert all[..|all| - 1] == requests && all[|all| - 1] == r;
    CacheServesMaker(t, requests, r);
    MakerMakes(t, all, key);
    if Refusal(t, r).None? && Maker(t, all, key).Some? {
      SameKeySameRequest(t, Maker(t, all, key).value, r);
    }
  }
}
