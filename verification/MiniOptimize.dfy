/**
  The mini-optimize sweep of tester.py: every proposal is evaluated on every fold, and the
  per-fold bests and the best fold mean are tracked. Metrics come from an arbitrary evaluator.
*/
module MiniOptimize {
  import opened Basics
  import opened Numbers

  // ----- the number of Sobol proposals (optimizer.py)

  function Pow2(e: nat): nat {
    if e == 0 then 1 else 2 * Pow2(e - 1)
  }

  /** Python's `int.bit_length` on a non-negative integer. */
  function BitLength(n: nat): nat {
    if n == 0 then 0 else 1 + BitLength(n / 2)
  }

  function NextPowerOfTwo(n: int): nat {
    if n < 1 then 1 else Pow2(BitLength(n - 1))
  }

  lemma {:induction false} BitLengthBounds(n: nat)
    ensures n < Pow2(BitLength(n))
    ensures n > 0 ==> Pow2(BitLength(n) - 1) <= n
  {
    if n > 0 {
      BitLengthBounds(n / 2);
    }
  }

  lemma {:induction false} Pow2Monotone(a: nat, b: nat)
    requires a < b
    ensures 2 * Pow2(a) <= Pow2(b)
    decreases b
  {
    if a < b - 1 {
      Pow2Monotone(a, b - 1);
    }
  }

  /** The count is a power of two, at least the request, and no smaller power of two is. */
  lemma NextPowerOfTwoIsLeast(n: int, e: nat)
    ensures exists k: nat :: NextPowerOfTwo(n) == Pow2(k)
    ensures NextPowerOfTwo(n) >= n
    ensures Pow2(e) >= n ==> Pow2(e) >= NextPowerOfTwo(n)
  {
    if n < 1 {
      assert NextPowerOfTwo(n) == Pow2(0);
      if e > 0 {
        Pow2Monotone(0, e);
      }
    } else {
      BitLengthBounds(n - 1);
      assert NextPowerOfTwo(n) == Pow2(BitLength(n - 1));
      PowersApart(BitLength(n - 1), n, e);
    }
  }

  lemma PowersApart(k: nat, n: nat, e: nat)
    requires 1 <= n <= Pow2(k) && (n > 1 ==> k > 0 && Pow2(k - 1) < n) && (n == 1 ==> k == 0)
    ensures Pow2(e) >= n ==> Pow2(e) >= Pow2(k)
  {
    if e + 1 < k {
      Pow2Monotone(e, k - 1);
    } else if e > k {
      Pow2Monotone(k, e);
    }
  }

  /** Sobol proposals over a space with `dims` parameters; an empty space yields none. */
  function SobolProposals<P>(dims: nat, trials: int, draw: nat -> P): seq<P> {
    if dims == 0 then [] else seq(NextPowerOfTwo(trials), i requires 0 <= i < NextPowerOfTwo(trials) => draw(i))
  }

  /** The first points of the sequence, as many as the least power of two that covers the request; none without
      parameters to draw. */
  lemma ProposalsAreFirst<P>(dims: nat, trials: int, draw: nat -> P, i: nat)
    ensures dims == 0 ==> SobolProposals(dims, trials, draw) == []
    ensures dims > 0 ==> |SobolProposals(dims, trials, draw)| == NextPowerOfTwo(trials)
    ensures dims > 0 && i < NextPowerOfTwo(trials) ==> SobolProposals(dims, trials, draw)[i] == draw(i)
  {}

  // ----- the sweep

  /** A running maximum that starts at minus infinity. */
  datatype Best = NegativeInfinity | Score(value: real)

  predicate Improves(score: real, best: Best) {
    best.NegativeInfinity? || score > best.value
  }

  /** One proposal's score on each of the first `folds` folds. */
  function FoldScores<P>(score: (P, nat) -> real, p: P, folds: nat): seq<real> {
    seq(folds, f requires 0 <= f < folds => score(p, f))
  }

  function FoldMean<P>(score: (P, nat) -> real, p: P, folds: nat): real {
    Mean(FoldScores(score, p, folds))
  }

  /** `best[f]` is the maximum of the scores of `proposals` on fold `f`. */
  ghost predicate IsFoldBest<P>(score: (P, nat) -> real, proposals: seq<P>, f: nat, best: Best) {
    && (best.NegativeInfinity? <==> proposals == [])
    && (best.Score? ==> forall p :: p in proposals ==> score(p, f) <= best.value)
    && (best.Score? ==> exists p :: p in proposals && score(p, f) == best.value)
  }

  /** `proposals[winner]` is the first proposal that attains the largest fold mean. */
  ghost predicate IsFirstArgmax<P>(score: (P, nat) -> real, proposals: seq<P>, folds: nat, winner: nat,
                                   aggregate: real) {
    && winner < |proposals|
    && FoldMean(score, proposals[winner], folds) == aggregate
    && (forall i :: 0 <= i < |proposals| ==> FoldMean(score, proposals[i], folds) <= aggregate)
    && (forall i :: 0 <= i < winner ==> FoldMean(score, proposals[i], folds) < aggregate)
  }

  lemma FoldBestStep<P>(score: (P, nat) -> real, proposals: seq<P>, p: P, f: nat, best: Best)
    requires IsFoldBest(score, proposals, f, best)
    ensures IsFoldBest(score, proposals + [p], f, if Improves(score(p, f), best) then Score(score(p, f)) else best)
  {}

  /** The winner so far; there is none before the first proposal. */
  ghost predicate Leads<P>(score: (P, nat) -> real, proposals: seq<P>, folds: nat, winner: nat, best: Best) {
    && (best.NegativeInfinity? <==> proposals == [])
    && (best.Score? ==> IsFirstArgmax(score, proposals, folds, winner, best.value))
  }

  lemma LeadStep<P>(score: (P, nat) -> real, proposals: seq<P>, p: P, folds: nat, winner: nat, best: Best)
    requires Leads(score, proposals, folds, winner, best)
    ensures var mean := FoldMean(score, p, folds);
            if Improves(mean, best) then Leads(score, proposals + [p], folds, |proposals|, Score(mean))
            else Leads(score, proposals + [p], folds, winner, best)
  {}

  /** The evaluation loop of `attempt_with_optimize`. `proposals` is not empty: the caller raises otherwise. */
  method Sweep<P>(score: (P, nat) -> real, proposals: seq<P>, folds: nat)
    returns (perFoldBest: seq<real>, winner: nat, aggregate: real, evaluations: nat)
    requires proposals != []
    ensures |perFoldBest| == folds
    ensures forall f :: 0 <= f < folds ==> IsFoldBest(score, proposals, f, Score(perFoldBest[f]))
    ensures IsFirstArgmax(score, proposals, folds, winner, aggregate)
    ensures evaluations == |proposals| * folds
  {
    var best := new Best[folds](_ => NegativeInfinity);
    var aggregateBest := NegativeInfinity;
    winner, evaluations := 0, 0;
    for i := 0 to |proposals|
      invariant evaluations == i * folds
      invariant forall f :: 0 <= f < folds ==> IsFoldBest(score, proposals[..i], f, best[f])
      invariant Leads(score, proposals[..i], folds, winner, aggregateBest)
    {
      var p := proposals[i];
      var foldScores: seq<real> := [];
      assert proposals[..i + 1] == proposals[..i] + [p];
      for f := 0 to folds
        invariant evaluations == i * folds + f
        invariant foldScores == FoldScores(score, p, folds)[..f]
        invariant forall g :: 0 <= g < f ==> IsFoldBest(score, proposals[..i + 1], g, best[g])
        invariant forall g :: f <= g < folds ==> IsFoldBest(score, proposals[..i], g, best[g])
      {
        var s := score(p, f);
        evaluations := evaluations + 1;
        foldScores := foldScores + [s];
        FoldBestStep(score, proposals[..i], p, f, best[f]);
        if Improves(s, best[f]) {
          best[f] := Score(s);
        }
      }
      var mean := Mean(foldScores);
      assert foldScores == FoldScores(score, p, folds);
      LeadStep(score, proposals[..i], p, folds, winner, aggregateBest);
      if Improves(mean, aggregateBest) {
        aggregateBest, winner := Score(mean), i;
      }
    }
    assert proposals[..|proposals|] == proposals;
    perFoldBest :=
        seq(folds, f requires 0 <= f < folds && IsFoldBest(score, proposals, f, best[f]) reads best => best[f].value);
    aggregate := aggregateBest.value;
  }

  /** A charge of `trials` times the folds is what a Sobol sweep really evaluates exactly when the request is a power
      of two (or nothing is swept), because the count is rounded up to one. */
  lemma ChargeIsExact<P>(dims: nat, trials: nat, draw: nat -> P, folds: nat)
    requires dims > 0
    ensures |SobolProposals(dims, trials, draw)| * folds == trials * folds <==>
            folds == 0 || exists k: nat :: trials == Pow2(k)
  {
    hide NextPowerOfTwo;
    NextPowerOfTwoIsLeast(trials, 0);
    if exists k: nat :: trials == Pow2(k) {
      var k: nat :| trials == Pow2(k);
      NextPowerOfTwoIsLeast(trials, k);
    }
    SameFactor(NextPowerOfTwo(trials), trials, folds);
  }

  lemma SameFactor(a: nat, b: nat, m: nat)
    ensures a * m == b * m <==> m == 0 || a == b
  {
    if a < b {
      assert b * m == a * m + (b - a) * m;
    } else if b < a {
      assert a * m == b * m + (a - b) * m;
    }
  }

  /** The workflow's default request of 64 is one. */
  lemma DefaultChargeIsExact<P>(dims: nat, draw: nat -> P, folds: nat)
    requires dims > 0
    ensures |SobolProposals(dims, 64, draw)| * folds == 64 * folds
  {}

  // ----- the aggregate against the mean the gate sees

  lemma {:induction false} SumOrder(xs: seq<real>, ys: seq<real>)
    requires |xs| == |ys| && forall i :: 0 <= i < |xs| ==> xs[i] <= ys[i]
    ensures Sum(xs) <= Sum(ys)
    ensures Sum(xs) == Sum(ys) ==> xs == ys
  {
    if xs != [] {
      SumOrder(xs[1..], ys[1..]);
      assert xs == [xs[0]] + xs[1..] && ys == [ys[0]] + ys[1..];
    }
  }

  lemma MeanOrder(xs: seq<real>, ys: seq<real>)
    requires |xs| == |ys| && forall i :: 0 <= i < |xs| ==> xs[i] <= ys[i]
    ensures Mean(xs) <= Mean(ys)
    ensures Mean(xs) == Mean(ys) ==> xs == ys
  {
    SumOrder(xs, ys);
    if xs != [] {
      var n := |xs| as real;
      assert Mean(xs) * n == Sum(xs) && Mean(ys) * n == Sum(ys);
    }
  }

  /** The best fold mean is never above the mean of the per-fold bests, which is what the gate receives; the two
      agree exactly when one proposal is the best on every fold at once. */
  lemma AggregateBelowGateMean<P>(
    score: (P, nat) -> real, proposals: seq<P>, folds: nat, perFoldBest: seq<real>, winner: nat, aggregate: real)
    requires |perFoldBest| == folds
    requires forall f :: 0 <= f < folds ==> IsFoldBest(score, proposals, f, Score(perFoldBest[f]))
    requires IsFirstArgmax(score, proposals, folds, winner, aggregate)
    ensures aggregate <= Mean(perFoldBest)
    ensures aggregate == Mean(perFoldBest) <==> exists p :: p in proposals && FoldScores(score, p, folds) == perFoldBest
  {
    forall p | p in proposals
      ensures FoldMean(score, p, folds) <= aggregate && FoldMean(score, p, folds) <= Mean(perFoldBest)
      ensures FoldMean(score, p, folds) == Mean(perFoldBest) ==> FoldScores(score, p, folds) == perFoldBest
    {
      MeanOrder(FoldScores(score, p, folds), perFoldBest);
    }
    assert proposals[winner] in proposals;
  }
}
