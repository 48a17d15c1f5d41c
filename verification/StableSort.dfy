/**
  The stable, descending sort that the hypothesis loop, the recursive grid and the
  data gateway all lean on. The library routine is modelled by an insertion sort;
  what matters is the characterisation `StableSortOf`, which determines the result
  uniquely, so any correct stable sort returns the same sequence. An ascending sort
  is a descending sort on the negated key.
*/
module StableSort {

  ghost predicate SortedDesc<T>(key: T -> real, s: seq<T>) {
    forall i, j :: 0 <= i < j < |s| ==> key(s[i]) >= key(s[j])
  }

  /** The elements of `s` that have key `k`, in the order of `s`. */
  function WithKey<T>(key: T -> real, s: seq<T>, k: real): seq<T> {
    if s == [] then []
    else Only(key, s[0], k) + WithKey(key, s[1..], k)
  }

  function Only<T>(key: T -> real, x: T, k: real): seq<T> {
    if key(x) == k then [x] else []
  }

  ghost predicate SameClasses<T>(key: T -> real, xs: seq<T>, ys: seq<T>) {
    forall k: real :: WithKey(key, xs, k) == WithKey(key, ys, k)
  }

  /** `ys` is sorted, and elements with equal keys stand in the order they have in `xs`. */
  ghost predicate StableSortOf<T>(key: T -> real, xs: seq<T>, ys: seq<T>) {
    SortedDesc(key, ys) && SameClasses(key, xs, ys)
  }

  function Insert<T>(key: T -> real, x: T, s: seq<T>): seq<T> {
    if s == [] || key(s[0]) <= key(x) then [x] + s
    else [s[0]] + Insert(key, x, s[1..])
  }

  function Sort<T>(key: T -> real, s: seq<T>): seq<T> {
    if s == [] then [] else Insert(key, s[0], Sort(key, s[1..]))
  }

  lemma {:induction false} InsertClasses<T>(key: T -> real, x: T, s: seq<T>, k: real)
    ensures WithKey(key, Insert(key, x, s), k) == Only(key, x, k) + WithKey(key, s, k)
  {
    if s == [] || key(s[0]) <= key(x) {
      ClassesCons(key, x, s, k);
    } else {
      InsertClasses(key, x, s[1..], k);
      ClassesCons(key, s[0], Insert(key, x, s[1..]), k);
      ClassesCons(key, s[0], s[1..], k);
      assert s == [s[0]] + s[1..];
      assert Only(key, x, k) == [] || Only(key, s[0], k) == [];
    }
  }

  lemma ClassesCons<T>(key: T -> real, x: T, s: seq<T>, k: real)
    ensures WithKey(key, [x] + s, k) == Only(key, x, k) + WithKey(key, s, k)
  {
    assert ([x] + s)[1..] == s;
  }

  lemma InsertMultiset<T>(key: T -> real, x: T, s: seq<T>)
    ensures multiset(Insert(key, x, s)) == multiset{x} + multiset(s)
  {
    if s != [] && key(s[0]) > key(x) {
      assert s == [s[0]] + s[1..];
    }
  }

  lemma {:induction false} InsertSorted<T>(key: T -> real, x: T, s: seq<T>)
    requires SortedDesc(key, s)
    ensures SortedDesc(key, Insert(key, x, s))
  {
    if s != [] && key(s[0]) > key(x) {
      InsertSorted(key, x, s[1..]);
      InsertMultiset(key, x, s[1..]);
      forall y | y in Insert(key, x, s[1..]) ensures key(y) <= key(s[0]) {
        assert y in multiset(Insert(key, x, s[1..]));
        assert y == x || y in s[1..];
      }
    }
  }

  /** The sort meets its characterisation, and permutes its input. */
  lemma {:induction false} SortIsStable<T>(key: T -> real, s: seq<T>)
    ensures StableSortOf(key, s, Sort(key, s))
    ensures multiset(Sort(key, s)) == multiset(s)
  {
    if s != [] {
      SortIsStable(key, s[1..]);
      assert s == [s[0]] + s[1..];
      InsertSorted(key, s[0], Sort(key, s[1..]));
      InsertMultiset(key, s[0], Sort(key, s[1..]));
      forall k: real ensures WithKey(key, s, k) == WithKey(key, Sort(key, s), k) {
        InsertClasses(key, s[0], Sort(key, s[1..]), k);
      }
    }
  }

  lemma {:induction false} ClassMembers<T>(key: T -> real, s: seq<T>, k: real)
    ensures forall x :: x in WithKey(key, s, k) ==> x in s && key(x) == k
    ensures forall x :: x in s && key(x) == k ==> x in WithKey(key, s, k)
  {
    if s != [] {
      ClassMembers(key, s[1..], k);
      assert s == [s[0]] + s[1..];
    }
  }

  /** The characterisation leaves no choice: a stable sort is unique. */
  lemma {:induction false} StableSortIsUnique<T>(key: T -> real, ys: seq<T>, zs: seq<T>)
    requires SortedDesc(key, ys) && SortedDesc(key, zs) && SameClasses(key, ys, zs)
    ensures ys == zs
  {
    if ys == [] || zs == [] {
      if ys != [] {
        ClassMembers(key, zs, key(ys[0]));
        assert ys[0] in WithKey(key, ys, key(ys[0]));
      }
      if zs != [] {
        ClassMembers(key, ys, key(zs[0]));
        assert zs[0] in WithKey(key, zs, key(zs[0]));
      }
    } else {
      HeadKeyBound(key, ys, zs);
      HeadKeyBound(key, zs, ys);
      assert WithKey(key, ys, key(ys[0]))[0] == ys[0];
      assert WithKey(key, zs, key(ys[0]))[0] == zs[0];
      forall k: real ensures WithKey(key, ys[1..], k) == WithKey(key, zs[1..], k) {
        var head := Only(key, ys[0], k);
        assert WithKey(key, ys, k) == WithKey(key, zs, k);
        assert head + WithKey(key, ys[1..], k) == head + WithKey(key, zs[1..], k);
        assert WithKey(key, ys[1..], k) == (head + WithKey(key, ys[1..], k))[|head|..];
        assert WithKey(key, zs[1..], k) == (head + WithKey(key, zs[1..], k))[|head|..];
      }
      StableSortIsUnique(key, ys[1..], zs[1..]);
      assert ys == [ys[0]] + ys[1..] && zs == [zs[0]] + zs[1..];
    }
  }

  lemma HeadKeyBound<T>(key: T -> real, ys: seq<T>, zs: seq<T>)
    requires ys != [] && zs != []
    requires SortedDesc(key, zs) && SameClasses(key, ys, zs)
    ensures key(ys[0]) <= key(zs[0])
  {
    ClassMembers(key, ys, key(ys[0]));
    ClassMembers(key, zs, key(ys[0]));
    assert ys[0] in WithKey(key, zs, key(ys[0]));
  }

  lemma {:induction false} ClassesConcat<T>(key: T -> real, xs: seq<T>, ys: seq<T>, k: real)
    ensures WithKey(key, xs + ys, k) == WithKey(key, xs, k) + WithKey(key, ys, k)
  {
    if xs == [] {
      assert xs + ys == ys;
    } else {
      assert (xs + ys)[1..] == xs[1..] + ys;
      ClassesConcat(key, xs[1..], ys, k);
    }
  }

  /** Sorting a sorted prefix again, with new elements behind it, is sorting everything once. */
  lemma ResortIsSortOnce<T>(key: T -> real, xs: seq<T>, ys: seq<T>)
    ensures Sort(key, Sort(key, xs) + ys) == Sort(key, xs + ys)
  {
    SortIsStable(key, xs);
    SortIsStable(key, Sort(key, xs) + ys);
    SortIsStable(key, xs + ys);
    forall k: real
      ensures WithKey(key, Sort(key, Sort(key, xs) + ys), k) == WithKey(key, Sort(key, xs + ys), k)
    {
      ClassesConcat(key, Sort(key, xs), ys, k);
      ClassesConcat(key, xs, ys, k);
    }
    StableSortIsUnique(key, Sort(key, Sort(key, xs) + ys), Sort(key, xs + ys));
  }

  lemma SortedIsFixed<T>(key: T -> real, s: seq<T>)
    requires SortedDesc(key, s)
    ensures Sort(key, s) == s
  {
    SortIsStable(key, s);
    StableSortIsUnique(key, Sort(key, s), s);
  }

  lemma SortKeepsMembers<T>(key: T -> real, s: seq<T>)
    ensures |Sort(key, s)| == |s|
    ensures forall x :: x in Sort(key, s) <==> x in s
  {
    SortIsStable(key, s);
    assert |multiset(Sort(key, s))| == |multiset(s)|;
    forall x ensures x in Sort(key, s) <==> x in s {
      assert x in multiset(Sort(key, s)) <==> x in multiset(s);
    }
  }

  /** Two lists that sort alike still sort alike after the same elements are appended. */
  lemma SortAlikeAppend<T>(key: T -> real, xs: seq<T>, ys: seq<T>, more: seq<T>)
    requires Sort(key, xs) == Sort(key, ys)
    ensures |xs| == |ys|
    ensures Sort(key, xs + more) == Sort(key, ys + more)
    ensures Sort(key, Sort(key, xs + more)) == Sort(key, ys + more)
  {
    SortKeepsMembers(key, xs);
    SortKeepsMembers(key, ys);
    ResortIsSortOnce(key, xs, more);
    ResortIsSortOnce(key, ys, more);
    SortIsStable(key, xs + more);
    SortedIsFixed(key, Sort(key, xs + more));
  }
}
