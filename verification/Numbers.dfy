/** Sums, means and extremes of lists of reals. */
module Numbers {

  function Sum(xs: seq<real>): real {
    if xs == [] then 0.0 else xs[0] + Sum(xs[1..])
  }

  function Mean(xs: seq<real>): real {
    if xs == [] then 0.0 else Sum(xs) / |xs| as real
  }

  function SquaredDistance(x: real, mu: real): real {
    (x - mu) * (x - mu)
  }

  /** Sum of squared distances to `mu`. */
  function Spread(xs: seq<real>, mu: real): real {
    if xs == [] then 0.0 else SquaredDistance(xs[0], mu) + Spread(xs[1..], mu)
  }

  /** Population variance. */
  function Variance(xs: seq<real>): real {
    if xs == [] then 0.0 else Spread(xs, Mean(xs)) / |xs| as real
  }

  /** Adding one more at the end, which together with nothing at all fixes the sum. */
  lemma {:induction false} SumAppend(xs: seq<real>, x: real)
    ensures Sum([]) == 0.0 && Sum(xs + [x]) == Sum(xs) + x
  {
    if xs == [] {
      assert xs + [x] == [x] && [x][1..] == [];
    } else {
      assert (xs + [x])[1..] == xs[1..] + [x];
      SumAppend(xs[1..], x);
    }
  }

  /** Mean and variance, multiplied out. */
  lemma MomentsTimes(xs: seq<real>)
    requires xs != []
    ensures Mean(xs) * |xs| as real == Sum(xs)
    ensures Variance(xs) * |xs| as real == Sum(Deviations(xs, Mean(xs)))
  {
    hide Sum, Spread, Deviations;
    SpreadIsSum(xs, Mean(xs));
    Undivided(Sum(xs), |xs| as real);
    Undivided(Spread(xs, Mean(xs)), |xs| as real);
  }

  lemma Undivided(x: real, n: real)
    requires n > 0.0
    ensures x / n * n == x
  {}

  function Deviations(xs: seq<real>, mu: real): seq<real> {
    seq(|xs|, i requires 0 <= i < |xs| => SquaredDistance(xs[i], mu))
  }

  lemma {:induction false} SpreadIsSum(xs: seq<real>, mu: real)
    ensures Spread(xs, mu) == Sum(Deviations(xs, mu))
  {
    hide SquaredDistance;
    if xs != [] {
      SpreadIsSum(xs[1..], mu);
      assert Deviations(xs, mu)[1..] == Deviations(xs[1..], mu);
    }
  }

  function MinOf(xs: seq<real>): (m: real)
    requires xs != []
    ensures m in xs && forall x :: x in xs ==> m <= x
  {
    if |xs| == 1 then xs[0]
    else
      var rest := MinOf(xs[1..]);
      assert xs == [xs[0]] + xs[1..];
      if xs[0] <= rest then xs[0] else rest
  }

  function MaxOf(xs: seq<real>): (m: real)
    requires xs != []
    ensures m in xs && forall x :: x in xs ==> x <= m
  {
    if |xs| == 1 then xs[0]
    else
      var rest := MaxOf(xs[1..]);
      assert xs == [xs[0]] + xs[1..];
      if xs[0] >= rest then xs[0] else rest
  }
}
