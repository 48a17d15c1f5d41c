/**
  Content-addressed source bundles (per_strategy_ledger.py). A bundle maps paths to file contents; its digest
  names the directory that holds it. BLAKE2b is a function `hash` without collisions, UTF-8 encoding is left
  implicit (it is one-to-one and uses the zero byte for NUL alone), and paths are plain distinct file names.
*/
module SourceBundle {
  import opened Basics
  import opened Lex

  type Digest = nat
  type Files = map<string, string>

  const NUL := '\U{0}'

  predicate Without(c: char, s: string) {
    forall x :: x in s ==> x != c
  }

  predicate NulFree(files: Files) {
    forall path :: path in files ==> Without(NUL, path) && Without(NUL, files[path])
  }

  ghost predicate CollisionFree(hash: string -> Digest) {
    forall a, b :: hash(a) == hash(b) ==> a == b
  }

  // ----- the hashed text

  function Entry(path: string, content: string): string {
    path + [NUL] + content + [NUL]
  }

  function Entries(paths: seq<string>, files: Files): string
    requires forall p :: p in paths ==> p in files
  {
    if paths == [] then ""
    else Entries(paths[..|paths| - 1], files) + Entry(paths[|paths| - 1], files[paths[|paths| - 1]])
  }

  /** The text that the digest of a bundle is taken of. */
  function Canonical(files: Files): string {
    Entries(Sorted(files.Keys), files)
  }

  lemma EntriesNone(files: Files)
    ensures Entries([], files) == ""
  {}

  method CanonicalFilesSetHash(hash: string -> Digest, files: Files) returns (digest: Digest)
    ensures digest == hash(Canonical(files))
  {
    hide Entries, Sorted;
    var paths := Sorted(files.Keys);
    var hashed := "";
    EntriesNone(files);
    for i := 0 to |paths|
      invariant hashed == Entries(paths[..i], files)
    {
      assert paths[..i + 1][..i] == paths[..i];
      EntriesLast(paths[..i + 1], files);
      hashed := hashed + paths[i] + [NUL];
      hashed := hashed + files[paths[i]] + [NUL];
    }
    assert paths[..|paths|] == paths;
    digest := hash(hashed);
  }

  // ----- the hashed text determines the bundle

  lemma NotShorter(p: string, x: string, q: string, y: string)
    requires Without(NUL, x) && (q == "" || q[|q| - 1] == NUL) && p + x == q + y
    ensures |q| <= |p|
  {
    assert forall k :: |p| <= k < |p + x| ==> (p + x)[k] == x[k - |p|] && x[k - |p|] in x;
    assert q == "" || (q + y)[|q| - 1] == NUL;
  }

  /** A field without the terminator in it is found again at the end of a text. */
  lemma LastField(p: string, x: string, q: string, y: string)
    requires Without(NUL, x) && Without(NUL, y)
    requires p == "" || p[|p| - 1] == NUL
    requires q == "" || q[|q| - 1] == NUL
    requires p + x + [NUL] == q + y + [NUL]
    ensures p == q && x == y
  {
    var s := p + x;
    assert s == (p + x + [NUL])[..|s|] && q + y == (q + y + [NUL])[..|s|];
    NotShorter(p, x, q, y);
    NotShorter(q, y, p, x);
    assert p == s[..|p|] && x == s[|p|..] && q == (q + y)[..|q|] && y == (q + y)[|q|..];
  }

  lemma EntriesLast(paths: seq<string>, files: Files)
    requires paths != [] && forall p :: p in paths ==> p in files
    ensures var n := |paths| - 1;
            Entries(paths, files) == Entries(paths[..n], files) + paths[n] + [NUL] + files[paths[n]] + [NUL]
  {}

  lemma EntriesEnd(paths: seq<string>, files: Files)
    requires forall p :: p in paths ==> p in files
    ensures Entries(paths, files) == "" <==> paths == []
    ensures paths != [] ==> Entries(paths, files)[|Entries(paths, files)| - 1] == NUL
  {}

  lemma {:induction false} EntriesDetermine(ps: seq<string>, a: Files, qs: seq<string>, b: Files)
    requires (forall p :: p in ps ==> p in a) && (forall q :: q in qs ==> q in b)
    requires NulFree(a) && NulFree(b) && Entries(ps, a) == Entries(qs, b)
    ensures ps == qs && forall p :: p in ps ==> a[p] == b[p]
  {
    hide Entries, Without;
    EntriesEnd(ps, a);
    EntriesEnd(qs, b);
    if ps != [] {
      var m, n := |ps| - 1, |qs| - 1;
      var p, q, x, y := ps[m], qs[n], Entries(ps[..m], a), Entries(qs[..n], b);
      EntriesEnd(ps[..m], a);
      EntriesEnd(qs[..n], b);
      EntriesLast(ps, a);
      EntriesLast(qs, b);
      LastField(x + p + [NUL], a[p], y + q + [NUL], b[q]);
      LastField(x, p, y, q);
      EntriesDetermine(ps[..m], a, qs[..n], b);
      assert ps == ps[..m] + [p] && qs == qs[..n] + [q];
    }
  }

  /** Two NUL-free bundles are hashed over the same text exactly when they are the same bundle. */
  lemma CanonicalDetermines(a: Files, b: Files)
    requires NulFree(a) && NulFree(b)
    ensures Canonical(a) == Canonical(b) <==> a == b
  {
    hide Sorted, Entries, NulFree;
    if Canonical(a) == Canonical(b) {
      var ps, qs := Sorted(a.Keys), Sorted(b.Keys);
      EntriesDetermine(ps, a, qs, b);
      assert forall p :: p in a <==> p in a.Keys;
      assert forall p :: p in b <==> p in b.Keys;
      assert a.Keys == b.Keys;
    }
  }

  // ----- contents with the terminator in them

  predicate PlainPaths(files: Files) {
    forall path :: path in files ==> Without(NUL, path)
  }

  /** Between two terminators in the content stands what could be a later path. */
  predicate HidesPath(path: string, content: string, i: nat, j: nat) {
    && i < j < |content| && content[i] == NUL && content[j] == NUL
    && Without(NUL, content[i + 1..j]) && path != content[i + 1..j] && LexLe(path, content[i + 1..j])
  }

  ghost predicate Shared(a: Files) {
    exists b: Files :: PlainPaths(b) && b != a && Canonical(b) == Canonical(a)
  }

  lemma {:induction false} EntriesFirst(paths: seq<string>, files: Files)
    requires paths != [] && forall p :: p in paths ==> p in files
    ensures Entries(paths, files) ==
            paths[0] + [NUL] + (files[paths[0]] + [NUL] + Entries(paths[1..], files))
  {
    hide Entries;
    var n := |paths| - 1;
    EntriesLast(paths, files);
    EntriesNone(files);
    if n == 0 {
      assert paths[..n] == [] && paths[1..] == [];
    } else {
      EntriesFirst(paths[..n], files);
      EntriesLast(paths[1..], files);
      assert paths[1..][..n - 1] == paths[..n][1..];
    }
  }

  lemma FirstField(p: string, x: string, q: string, y: string)
    requires Without(NUL, p) && Without(NUL, q) && p + [NUL] + x == q + [NUL] + y
    ensures p == q && x == y
  {
    var s := p + [NUL] + x;
    assert forall k :: 0 <= k < |p| ==> s[k] == p[k] && p[k] in p;
    assert forall k :: 0 <= k < |q| ==> s[k] == q[k] && q[k] in q;
    assert s[|p|] == NUL && s[|q|] == NUL;
    assert p == s[..|p|] && q == s[..|q|] && x == s[|p| + 1..] && y == s[|q| + 1..];
  }

  lemma OneFile(path: string, files: Files)
    requires files.Keys == {path}
    ensures Canonical(files) == path + [NUL] + (files[path] + [NUL])
  {
    hide Entries;
    SortedOne(path);
    assert path in files.Keys;
    EntriesFirst([path], files);
    EntriesNone(files);
    assert files[path] + [NUL] + Entries([path][1..], files) == files[path] + [NUL];
  }

  lemma TwoFiles(p: string, q: string, files: Files)
    requires files.Keys == {p, q} && p != q && LexLe(p, q)
    ensures Canonical(files) == p + [NUL] + (files[p] + [NUL] + q + [NUL] + files[q] + [NUL])
  {
    hide Entries;
    SortedTwo(p, q);
    assert p in files.Keys && q in files.Keys;
    EntriesFirst([p, q], files);
    EntriesFirst([q], files);
    EntriesNone(files);
    assert [p, q][1..] == [q];
    assert files[p] + [NUL] + (q + [NUL] + (files[q] + [NUL] + "")) ==
           files[p] + [NUL] + q + [NUL] + files[q] + [NUL];
  }

  /** The content of a first file can swallow all the others. */
  lemma Swallowed(a: Files)
    requires |a| >= 2 && PlainPaths(a)
    ensures Shared(a)
  {
    hide Entries, Sorted, Without;
    var s := Sorted(a.Keys);
    SortedSize(a.Keys);
    assert s[0] in s;
    EntriesFirst(s, a);
    EntriesEnd(s[1..], a);
    var rest := a[s[0]] + [NUL] + Entries(s[1..], a);
    var b: Files := map[s[0] := rest[..|rest| - 1]];
    OneFile(s[0], b);
    assert rest == rest[..|rest| - 1] + [NUL];
    assert |b| == 1;
  }

  lemma {:induction false} SortedSize(s: set<string>)
    ensures |Sorted(s)| == |s|
  {
    if s != {} {
      SortedSize(s - {Least(s)});
    }
  }

  lemma Unswallowed(a: Files, path: string, i: nat, j: nat)
    requires a.Keys == {path} && PlainPaths(a) && HidesPath(path, a[path], i, j)
    ensures Shared(a)
  {
    hide Sorted, Entries, Without, LexLe;
    var c := a[path];
    var q := c[i + 1..j];
    var b: Files := map[path := c[..i], q := c[j + 1..]];
    assert b.Keys == {path, q};
    TwoFiles(path, q, b);
    OneFile(path, a);
    assert c + [NUL] == c[..i] + [NUL] + q + [NUL] + c[j + 1..] + [NUL];
    assert q in b && q !in a.Keys;
  }

  lemma OneEach(a: Files, path: string, b: Files)
    requires a.Keys == {path} && Sorted(b.Keys) == [path] && Canonical(a) == Canonical(b)
    ensures a == b
  {
    hide Sorted;
    assert forall p :: p in b.Keys <==> p in [path];
    assert b.Keys == {path};
    OneFile(path, a);
    OneFile(path, b);
    assert path in a && path in b;
    assert a[path] == (path + [NUL] + (a[path] + [NUL]))[|path| + 1..][..|a[path]|];
    assert b[path] == (path + [NUL] + (b[path] + [NUL]))[|path| + 1..][..|b[path]|];
  }

  /** What a second bundle with the text of a one-file bundle gives away. */
  lemma Hidden(a: Files, path: string, b: Files) returns (i: nat, j: nat)
    requires a.Keys == {path} && PlainPaths(a) && PlainPaths(b) && a != b && Canonical(a) == Canonical(b)
    ensures HidesPath(path, a[path], i, j)
  {
    hide Entries, Sorted, LexLe, Without;
    OneFile(path, a);
    var s := Sorted(b.Keys);
    SortedSize(b.Keys);
    EntriesEnd(s, b);
    EntriesFirst(s, b);
    assert path in a && s[0] in s;
    FirstField(path, a[path] + [NUL], s[0], b[s[0]] + [NUL] + Entries(s[1..], b));
    if s[1..] == [] {
      assert s == [path];
      OneEach(a, path, b);
    } else {
      assert s[1] in s;
      EntriesFirst(s[1..], b);
      i := |b[path]|;
      j := i + 1 + |s[1]|;
      var tail := b[s[1]] + [NUL] + Entries(s[1..][1..], b);
      assert a[path] + [NUL] == b[path] + [NUL] + s[1] + [NUL] + tail;
      assert |tail| >= 1;
      assert (a[path] + [NUL])[i + 1..j] == s[1];
      assert a[path] == (a[path] + [NUL])[..|a[path]|];
      assert a[path][i + 1..j] == s[1];
    }
  }

  lemma EmptyText(b: Files)
    requires Canonical(b) == ""
    ensures b == map[]
  {
    hide Entries;
    EntriesEnd(Sorted(b.Keys), b);
    assert forall p :: p in b ==> p in Sorted(b.Keys);
  }

  /** For every bundle, whatever its contents: another bundle is hashed over the same text exactly when it has two
      files or more, or a single one in whose content something like a later path stands between terminators. */
  lemma SharedExactly(a: Files)
    requires PlainPaths(a)
    ensures Shared(a) <==> |a| >= 2 || (|a| == 1 && exists path, i, j :: path in a && HidesPath(path, a[path], i, j))
    ensures NulFree(a) ==> (Shared(a) <==> |a| >= 2)
  {
    hide Canonical, Without, LexLe;
    if |a| >= 2 {
      Swallowed(a);
    } else if |a| == 1 {
      var path := OnlyPath(a);
      if i, j :| HidesPath(path, a[path], i, j) {
        Unswallowed(a, path, i, j);
        HidesNul(path, a[path], i, j);
      } else if b: Files :| PlainPaths(b) && b != a && Canonical(b) == Canonical(a) {
        var i, j := Hidden(a, path, b);
      }
    } else {
      forall b: Files | Canonical(b) == Canonical(a) ensures b == a {
        NoFiles(a);
        EmptyText(b);
      }
    }
  }

  lemma HidesNul(path: string, content: string, i: nat, j: nat)
    requires HidesPath(path, content, i, j)
    ensures !Without(NUL, content)
  {
    assert content[i] in content;
  }

  lemma OnlyPath(a: Files) returns (path: string)
    requires |a| == 1
    ensures a.Keys == {path}
  {
    path :| path in a.Keys;
    assert |a.Keys - {path}| == 0;
  }

  lemma NoFiles(a: Files)
    requires |a| == 0
    ensures Canonical(a) == "" && a == map[]
  {
    assert a.Keys == {};
    EntriesNone(a);
  }

  lemma SortedOne(a: string)
    ensures Sorted({a}) == [a]
  {
    var s := Sorted({a});
    assert a in s;
    assert forall i :: 0 <= i < |s| ==> s[i] in s;
  }

  lemma SortedTwo(a: string, b: string)
    requires a != b && LexLe(a, b)
    ensures Sorted({a, b}) == [a, b]
  {
    LexTotal(a, b);
    LexTotal(Least({a, b}), a);
    assert {a, b} - {a} == {b};
    SortedOne(b);
  }

  // ----- the store

  /** Reading text mode: `"\r\n"` and `"\r"` become `"\n"`. */
  function Universal(s: string): string {
    if s == "" then ""
    else if s[0] == '\r' then "\n" + Universal(if |s| > 1 && s[1] == '\n' then s[2..] else s[1..])
    else [s[0]] + Universal(s[1..])
  }

  function AsRead(files: Files): Files {
    map p | p in files :: Universal(files[p])
  }

  predicate ReturnFree(files: Files) {
    forall p :: p in files ==> Without('\r', files[p])
  }

  lemma {:induction false} UniversalExactly(s: string)
    ensures |Universal(s)| <= |s|
    ensures Universal(s) == s <==> Without('\r', s)
  {
    if s != "" {
      assert s == [s[0]] + s[1..];
      if s[0] == '\r' {
        UniversalExactly(if |s| > 1 && s[1] == '\n' then s[2..] else s[1..]);
        assert Universal(s)[0] == '\n' && s[0] in s;
      } else {
        UniversalExactly(s[1..]);
        assert Universal(s) == [s[0]] + Universal(s[1..]) && Universal(s)[1..] == Universal(s[1..]);
        assert forall c :: c in s[1..] ==> c in s;
      }
    }
  }

  /** Each carriage return, with the newline behind it if there is one, becomes one newline. */
  lemma UniversalAt(a: string, b: string)
    requires Without('\r', a)
    ensures Universal(a) == a
    ensures Universal(a + "\r\n" + b) == a + "\n" + Universal(b)
    ensures b == "" || b[0] != '\n' ==> Universal(a + "\r" + b) == a + "\n" + Universal(b)
  {
    UniversalExactly(a);
    assert ("\r\n" + b)[2..] == b && ("\r" + b)[1..] == b;
    UniversalFront(a, "\r\n" + b);
    UniversalFront(a, "\r" + b);
    assert a + "\r\n" + b == a + ("\r\n" + b) && a + "\r" + b == a + ("\r" + b);
  }

  lemma {:induction false} UniversalFront(a: string, rest: string)
    requires Without('\r', a)
    ensures Universal(a + rest) == a + Universal(rest)
  {
    if a == "" {
      assert a + rest == rest;
    } else {
      assert a[0] in a && forall c :: c in a[1..] ==> c in a;
      UniversalFront(a[1..], rest);
      assert (a + rest)[1..] == a[1..] + rest && a == [a[0]] + a[1..];
    }
  }

  /** A bundle is read as it was written exactly when no content has a carriage return. */
  lemma AsReadExactly(files: Files)
    ensures AsRead(files) == files <==> ReturnFree(files)
  {
    forall p | p in files ensures AsRead(files)[p] == files[p] <==> Without('\r', files[p]) {
      UniversalExactly(files[p]);
    }
    if AsRead(files) == files {
      forall p | p in files ensures Without('\r', files[p]) {
        assert AsRead(files)[p] == files[p];
      }
    }
  }

  /** The directories after one write: the first bundle under a name stays. */
  function Written(hash: string -> Digest, dirs: map<Digest, Files>, files: Files): map<Digest, Files> {
    var digest := hash(Canonical(files));
    if digest in dirs then dirs else dirs[digest := files]
  }

  function AllWritten(hash: string -> Digest, bundles: seq<Files>): map<Digest, Files> {
    if bundles == [] then map[]
    else Written(hash, AllWritten(hash, bundles[..|bundles| - 1]), bundles[|bundles| - 1])
  }

  /** Every directory's content hashes to the directory's name. */
  ghost predicate SelfNamed(hash: string -> Digest, dirs: map<Digest, Files>) {
    forall d :: d in dirs ==> hash(Canonical(dirs[d])) == d
  }

  ghost predicate AllNulFree(dirs: map<Digest, Files>) {
    forall d :: d in dirs ==> NulFree(dirs[d])
  }

  class SourceStore {
    const hash: string -> Digest
    var dirs: map<Digest, Files>

    constructor (hash: string -> Digest)
      ensures this.hash == hash && dirs == map[]
    {
      this.hash := hash;
      dirs := map[];
    }

    ghost predicate Valid()
      reads this
    {
      SelfNamed(hash, dirs)
    }

    method WriteSourceSet(files: Files) returns (digest: Digest)
      requires Valid()
      modifies this
      ensures Valid()
      ensures digest == hash(Canonical(files)) && digest in dirs
      ensures dirs == Written(hash, old(dirs), files)
    {
      hide Canonical;
      digest := CanonicalFilesSetHash(hash, files);
      if digest in dirs {
        return;
      }
      var target: Files := map[];
      var left := files.Keys;
      while left != {}
        invariant left <= files.Keys && target.Keys == files.Keys - left
        invariant forall p :: p in target ==> target[p] == files[p]
        decreases |left|
      {
        var path :| path in left;
        target := target[path := files[path]];
        left := left - {path};
      }
      assert target == files;
      dirs := dirs[digest := target];
    }

    method ReadSourceSet(digest: Digest) returns (r: Option<Files>)
      ensures r == if digest in dirs then Some(AsRead(dirs[digest])) else None
    {
      if digest !in dirs {
        return None;
      }
      var root := dirs[digest];
      var result: Files := map[];
      var left := root.Keys;
      while left != {}
        invariant left <= root.Keys && result.Keys == root.Keys - left
        invariant forall p :: p in result ==> result[p] == Universal(root[p])
        decreases |left|
      {
        var path :| path in left;
        result := result[path := Universal(root[path])];
        left := left - {path};
      }
      assert result == AsRead(root);
      r := Some(result);
    }
  }

  lemma WriteKeeps(hash: string -> Digest, dirs: map<Digest, Files>, files: Files)
    requires CollisionFree(hash) && SelfNamed(hash, dirs) && AllNulFree(dirs) && NulFree(files)
    ensures var after := Written(hash, dirs, files);
            && SelfNamed(hash, after) && AllNulFree(after)
            && hash(Canonical(files)) in after && after[hash(Canonical(files))] == files
            && forall d :: d in dirs ==> d in after && after[d] == dirs[d]
  {
    hide Canonical, NulFree;
    var digest := hash(Canonical(files));
    if digest in dirs {
      assert hash(Canonical(dirs[digest])) == digest;
      CanonicalDetermines(dirs[digest], files);
    }
  }

  /** After any sequence of NUL-free writes every bundle written stands under its own digest, unchanged, and
      every directory hashes to its own name. */
  lemma {:induction false} EveryBundleKept(hash: string -> Digest, bundles: seq<Files>)
    requires CollisionFree(hash) && forall m :: m in bundles ==> NulFree(m)
    ensures SelfNamed(hash, AllWritten(hash, bundles)) && AllNulFree(AllWritten(hash, bundles))
    ensures forall m :: m in bundles ==>
              hash(Canonical(m)) in AllWritten(hash, bundles) && AllWritten(hash, bundles)[hash(Canonical(m))] == m
  {
    hide CollisionFree, Written, NulFree, Canonical;
    if bundles != [] {
      var n := |bundles| - 1;
      EveryBundleKept(hash, bundles[..n]);
      WriteKeeps(hash, AllWritten(hash, bundles[..n]), bundles[n]);
      assert bundles == bundles[..n] + [bundles[n]];
    }
  }

  /** Reading back any bundle of a run of NUL-free writes gives that bundle exactly when it has no carriage
      return in it. */
  lemma ReadBack(hash: string -> Digest, bundles: seq<Files>, k: nat)
    requires CollisionFree(hash) && (forall m :: m in bundles ==> NulFree(m)) && k < |bundles|
    ensures hash(Canonical(bundles[k])) in AllWritten(hash, bundles)
    ensures AsRead(AllWritten(hash, bundles)[hash(Canonical(bundles[k]))]) == bundles[k] <==> ReturnFree(bundles[k])
  {
    EveryBundleKept(hash, bundles);
    assert bundles[k] in bundles;
    AsReadExactly(bundles[k]);
  }
}
