/** Code-point order on strings, and `sorted` of a set of distinct strings. */
module Lex {

  predicate LexLe(a: string, b: string) {
    a == "" || (b != "" && (a[0] < b[0] || (a[0] == b[0] && LexLe(a[1..], b[1..]))))
  }

  /** `a` comes first at the first place where they differ, or is the front of `b`. */
  ghost predicate Differs(a: string, b: string, k: nat) {
    k <= |a| && k <= |b| && a[..k] == b[..k] && (k == |a| || (k < |b| && a[k] < b[k]))
  }

  lemma {:induction false} LexExactly(a: string, b: string)
    ensures LexLe(a, b) <==> exists k: nat :: Differs(a, b, k)
  {
    if a == "" {
      assert Differs(a, b, 0);
    } else if b != "" && a[0] == b[0] {
      LexExactly(a[1..], b[1..]);
      assert a == [a[0]] + a[1..] && b == [b[0]] + b[1..];
      if k: nat :| Differs(a[1..], b[1..], k) {
        assert a[..k + 1] == [a[0]] + a[1..][..k] && b[..k + 1] == [b[0]] + b[1..][..k];
        assert Differs(a, b, k + 1);
      }
      if k: nat :| Differs(a, b, k) {
        if k > 0 {
          assert a[1..][..k - 1] == a[..k][1..] && b[1..][..k - 1] == b[..k][1..];
          assert Differs(a[1..], b[1..], k - 1);
        }
      }
    } else if b != "" && a[0] < b[0] {
      assert Differs(a, b, 0);
    } else {
      assert forall k: nat :: Differs(a, b, k) && k > 0 ==> a[..k][0] == b[..k][0];
    }
  }

  lemma {:induction false} LexTotal(a: string, b: string)
    ensures LexLe(a, b) || LexLe(b, a)
    ensures LexLe(a, b) && LexLe(b, a) ==> a == b
  {
    if a != "" && b != "" && a[0] == b[0] {
      LexTotal(a[1..], b[1..]);
      assert a == [a[0]] + a[1..] && b == [b[0]] + b[1..];
    }
  }

  lemma {:induction false} LexTransitive(a: string, b: string, c: string)
    requires LexLe(a, b) && LexLe(b, c)
    ensures LexLe(a, c)
  {
    if a != "" && a[0] == b[0] && b[0] == c[0] {
      LexTransitive(a[1..], b[1..], c[1..]);
    }
  }

  ghost predicate IsLeast(s: set<string>, k: string) {
    k in s && forall x :: x in s ==> LexLe(k, x)
  }

  lemma {:induction false} LeastExists(s: set<string>) returns (k: string)
    requires s != {}
    ensures IsLeast(s, k)
    ensures forall x :: IsLeast(s, x) ==> x == k
  {
    var x :| x in s;
    if s == {x} {
      k := x;
      LexTotal(x, x);
    } else {
      var rest := LeastExists(s - {x});
      LexTotal(x, rest);
      k := if LexLe(x, rest) then x else rest;
      forall y | y in s ensures LexLe(k, y) {
        if y == x {
          LexTotal(x, x);
        } else {
          assert y in s - {x};
          LexTransitive(k, rest, y) by { LexTotal(rest, rest); }
        }
      }
    }
    forall y | IsLeast(s, y) ensures y == k {
      LexTotal(y, k);
    }
  }

  lemma LeastIsUnique(s: set<string>)
    requires s != {}
    ensures exists k :: IsLeast(s, k)
    ensures forall x, y :: IsLeast(s, x) && IsLeast(s, y) ==> x == y
  {
    var k := LeastExists(s);
  }

  function Least(s: set<string>): (k: string)
    requires s != {}
    ensures IsLeast(s, k)
  {
    LeastIsUnique(s);
    assert forall k :: IsLeast(s, k) <==> k in s && forall x :: x in s ==> LexLe(k, x);
    var k :| k in s && forall x :: x in s ==> LexLe(k, x);
    k
  }

  /** `sorted(s)`. */
  function Sorted(s: set<string>): (r: seq<string>)
    ensures forall x :: x in r <==> x in s
    ensures forall i, j :: 0 <= i < j < |r| ==> r[i] != r[j] && LexLe(r[i], r[j])
  {
    if s == {} then []
    else
      var k := Least(s);
      var rest := Sorted(s - {k});
      assert forall i :: 0 <= i < |rest| ==> rest[i] in rest;
      [k] + rest
  }
}
