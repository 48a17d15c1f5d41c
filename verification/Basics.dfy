/** Small datatypes shared by the models. */
module Basics {

  datatype Option<+T> = None | Some(value: T)

  datatype Result<+T, +E> = Ok(value: T) | Err(error: E)

  function Max(a: int, b: int): int {
    if a < b then b else a
  }

  /** Python's `xs[:k]` for a `k` that is not negative. */
  function Take<T>(xs: seq<T>, k: int): seq<T>
    requires k >= 0
  {
    if k <= |xs| then xs[..k] else xs
  }

  function Concat<T>(parts: seq<seq<T>>): seq<T> {
    if parts == [] then [] else parts[0] + Concat(parts[1..])
  }

  lemma {:induction false} ConcatAppend<T>(parts: seq<seq<T>>, last: seq<T>)
    ensures Concat(parts + [last]) == Concat(parts) + last
  {
    if parts == [] {
      assert parts + [last] == [last];
      assert [last][1..] == [];
    } else {
      assert (parts + [last])[1..] == parts[1..] + [last];
      ConcatAppend(parts[1..], last);
    }
  }

  lemma FirstIn<T>(s: seq<T>)
    ensures s == [] || s[0] in s
  {}
}
