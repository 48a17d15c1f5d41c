/**
  The variance-aware accept floor (mechanical_gate.py), over the reals. `math.sqrt` is
  any function that returns the non-negative root of a non-negative number.
*/
module MechanicalGate {
  import opened Basics
  import opened Numbers
  import opened RejectTaxonomy

  datatype Config = Config(k: real, foldCvThreshold: real, borderlinePct: real)

  const DEFAULT_CONFIG := Config(1.0, 0.5, 0.2)

  /** The coefficient of variation; `math.inf` when the mean is zero. */
  datatype Variation = Infinite | Finite(cv: real)

  datatype Outcome = Outcome(
    accept: bool, kind: RejectKind, borderline: bool,
    candidateScore: real, baselineScore: real, delta: real,
    sigmaCandidate: real, sigmaBaseline: real, sigmaCombined: real, foldCv: Variation)

  datatype Error = NoCandidateScores | NoBaselineScores

  ghost predicate IsSquareRoot(sqrt: real -> real) {
    forall x: real :: x >= 0.0 ==> sqrt(x) >= 0.0 && sqrt(x) * sqrt(x) == x
  }

  function StdDev(sqrt: real -> real, xs: seq<real>): real {
    if |xs| < 2 then 0.0 else sqrt(Variance(xs))
  }

  function Abs(x: real): real {
    if x < 0.0 then -x else x
  }

  /** What the gate reads from one list of fold scores. */
  datatype Summary = Summary(mean: real, sigma: real)

  function Summarize(sqrt: real -> real, xs: seq<real>): Summary {
    Summary(Mean(xs), StdDev(sqrt, xs))
  }

  function SumOfSquares(a: real, b: real): real {
    a * a + b * b
  }

  function Combined(sqrt: real -> real, a: Summary, b: Summary): real {
    sqrt(SumOfSquares(a.sigma, b.sigma))
  }

  function FoldCv(s: Summary): Variation {
    if s.mean != 0.0 then Finite(s.sigma / Abs(s.mean)) else Infinite
  }

  predicate BelowFloor(cand: Summary, base: Summary, combined: real, k: real) {
    cand.mean - base.mean <= k * combined
  }

  predicate Borderline(cand: Summary, base: Summary, combined: real, cfg: Config) {
    var floor := cfg.k * combined;
    floor > 0.0 && cand.mean - base.mean - floor <= cfg.borderlinePct * floor
  }

  function Judge(cand: Summary, base: Summary, combined: real, cfg: Config): Outcome {
    var foldCv := FoldCv(cand);
    var stats := Outcome(true, OK, false, cand.mean, base.mean, cand.mean - base.mean, cand.sigma, base.sigma,
                         combined, foldCv);
    if foldCv.Infinite? || foldCv.cv > cfg.foldCvThreshold then stats.(accept := false, kind := RejectVariance)
    else if BelowFloor(cand, base, combined, cfg.k) then stats.(accept := false, kind := RejectNoise)
    else stats.(borderline := Borderline(cand, base, combined, cfg))
  }

  function JudgeScores(sqrt: real -> real, cand: Summary, base: Summary, cfg: Config): Outcome {
    Judge(cand, base, Combined(sqrt, cand, base), cfg)
  }

  function Gate(sqrt: real -> real, candidate: seq<real>, baseline: seq<real>, cfg: Config): Result<Outcome, Error> {
    if candidate == [] then Err(NoCandidateScores)
    else if baseline == [] then Err(NoBaselineScores)
    else Ok(JudgeScores(sqrt, Summarize(sqrt, candidate), Summarize(sqrt, baseline), cfg))
  }

  /** The part of an outcome that callers act on. */
  function Decision(o: Outcome): (bool, RejectKind, bool) {
    (o.accept, o.kind, o.borderline)
  }

  // ----- the statistics

  lemma SpreadNonNegative(xs: seq<real>, mu: real)
    ensures Spread(xs, mu) >= 0.0
  {}

  lemma VarianceNonNegative(xs: seq<real>)
    ensures Variance(xs) >= 0.0
  {
    SpreadNonNegative(xs, Mean(xs));
  }

  lemma StdDevSquared(sqrt: real -> real, xs: seq<real>)
    requires IsSquareRoot(sqrt)
    ensures StdDev(sqrt, xs) >= 0.0
    ensures StdDev(sqrt, xs) * StdDev(sqrt, xs) == Variance(xs)
  {
    VarianceNonNegative(xs);
    if |xs| == 1 {
      assert xs[1..] == [];
      assert Sum(xs) == xs[0];
      assert Mean(xs) == xs[0];
      assert Spread(xs, xs[0]) == 0.0;
    }
  }

  lemma SquareOrder(a: real, b: real)
    requires a >= 0.0 && b >= 0.0
    ensures a * a <= b * b <==> a <= b
  {
    Squares(a, b);
    Squares(b, a);
    if a < b {
      PositiveProduct(b - a, b + a);
    } else if b < a {
      PositiveProduct(a - b, a + b);
    }
  }

  lemma PositiveProduct(x: real, y: real)
    requires x > 0.0 && y > 0.0
    ensures x * y > 0.0
  {}

  lemma Squares(a: real, b: real)
    ensures (b - a) * (b + a) == b * b - a * a
  {}

  /** `delta > k * sigma`, read off the square of sigma: with a negative `k` a small deficit is allowed. */
  predicate Leads(delta: real, k: real, variance: real) {
    if k >= 0.0 then delta > 0.0 && delta * delta > (k * k) * variance
    else delta > 0.0 || delta * delta < (k * k) * variance
  }

  /** The gate without square roots: an accepted candidate has a non-zero mean, its fold variance is at most
      (threshold * mean) squared for a threshold that is not negative, and its lead over the baseline exceeds k
      standard errors. */
  ghost predicate ClearsGate(candidate: seq<real>, baseline: seq<real>, cfg: Config) {
    var delta := Mean(candidate) - Mean(baseline);
    var bound := cfg.foldCvThreshold * Abs(Mean(candidate));
    && Mean(candidate) != 0.0
    && cfg.foldCvThreshold >= 0.0 && Variance(candidate) <= bound * bound
    && Leads(delta, cfg.k, Variance(candidate) + Variance(baseline))
  }

  lemma CvWithin(sigma: real, mean: real, threshold: real)
    requires sigma >= 0.0 && mean > 0.0 && threshold >= 0.0
    ensures sigma / mean <= threshold <==> sigma * sigma <= (threshold * mean) * (threshold * mean)
  {
    assert threshold * mean >= 0.0;
    SquareOrder(sigma, threshold * mean);
    var q := sigma / mean;
    assert q * mean == sigma;
    if q <= threshold {
      assert (threshold - q) * mean >= 0.0;
    } else {
      assert (q - threshold) * mean > 0.0;
    }
  }

  lemma FloorCleared(delta: real, k: real, sigma: real)
    requires k >= 0.0 && sigma >= 0.0
    ensures delta > k * sigma <==> delta > 0.0 && delta * delta > (k * k) * (sigma * sigma)
  {
    var floor := k * sigma;
    assert floor >= 0.0;
    assert floor * floor == (k * k) * (sigma * sigma) by { SquareOfProduct(k, sigma); }
    if delta > 0.0 {
      SquareOrder(delta, floor);
    }
  }

  lemma FloorUndercut(delta: real, k: real, sigma: real)
    requires k < 0.0 && sigma >= 0.0
    ensures delta > k * sigma <==> delta > 0.0 || delta * delta < (k * k) * (sigma * sigma)
  {
    var depth := -(k * sigma);
    assert depth == (-k) * sigma >= 0.0;
    assert depth * depth == (k * k) * (sigma * sigma) by { SquareOfProduct(k, sigma); }
    if delta <= 0.0 {
      SquareOrder(depth, -delta);
    }
  }

  lemma NegativeThreshold(sigma: real, mean: real, threshold: real)
    requires sigma >= 0.0 && mean > 0.0 && threshold < 0.0
    ensures sigma / mean > threshold
  {}

  lemma SquareOfProduct(a: real, b: real)
    ensures (a * b) * (a * b) == (a * a) * (b * b)
  {}

  lemma CombinedSquared(sqrt: real -> real, xs: seq<real>, ys: seq<real>)
    requires IsSquareRoot(sqrt)
    ensures var c := Combined(sqrt, Summarize(sqrt, xs), Summarize(sqrt, ys));
            c >= 0.0 && c * c == Variance(xs) + Variance(ys)
  {
    hide Variance, StdDev, Mean;
    StdDevSquared(sqrt, xs);
    StdDevSquared(sqrt, ys);
    VarianceNonNegative(xs);
    VarianceNonNegative(ys);
  }

  /** The fold variation is within the threshold, without square roots: never for a mean of zero. */
  ghost predicate Steady(candidate: seq<real>, cfg: Config) {
    var bound := cfg.foldCvThreshold * Abs(Mean(candidate));
    Mean(candidate) != 0.0 && cfg.foldCvThreshold >= 0.0 && Variance(candidate) <= bound * bound
  }

  lemma SteadyExactly(cand: Summary, threshold: real)
    requires cand.sigma >= 0.0
    ensures (FoldCv(cand).Infinite? || FoldCv(cand).cv > threshold) <==>
            !(cand.mean != 0.0 && threshold >= 0.0
              && cand.sigma * cand.sigma <= (threshold * Abs(cand.mean)) * (threshold * Abs(cand.mean)))
  {
    if cand.mean != 0.0 && threshold >= 0.0 {
      CvWithin(cand.sigma, Abs(cand.mean), threshold);
    } else if cand.mean != 0.0 {
      NegativeThreshold(cand.sigma, Abs(cand.mean), threshold);
    }
  }

  lemma LeadsExactly(delta: real, k: real, sigma: real)
    requires sigma >= 0.0
    ensures delta > k * sigma <==> Leads(delta, k, sigma * sigma)
  {
    if k >= 0.0 {
      FloorCleared(delta, k, sigma);
    } else {
      FloorUndercut(delta, k, sigma);
    }
  }

  /** The multiple of the combined deviation at which the border ends. */
  function BorderK(cfg: Config): real {
    cfg.k * (1.0 + cfg.borderlinePct)
  }

  /** An accepted outcome is borderline, without square roots: there is a floor, and the lead does not exceed it by more
      than the margin. */
  ghost predicate OnTheBorder(candidate: seq<real>, baseline: seq<real>, cfg: Config) {
    var variance := Variance(candidate) + Variance(baseline);
    && cfg.k > 0.0 && variance > 0.0
    && !Leads(Mean(candidate) - Mean(baseline), BorderK(cfg), variance)
  }

  lemma BorderExactly(delta: real, sigma: real, cfg: Config)
    requires sigma >= 0.0
    ensures var floor := cfg.k * sigma;
            floor > 0.0 && delta - floor <= cfg.borderlinePct * floor <==>
            cfg.k > 0.0 && sigma * sigma > 0.0 && !Leads(delta, BorderK(cfg), sigma * sigma)
  {
    var floor := cfg.k * sigma;
    var k := BorderK(cfg);
    FloorSign(cfg.k, sigma);
    LeadsExactly(delta, k, sigma);
    assert k * sigma == floor + cfg.borderlinePct * floor by { Expand(cfg.k, cfg.borderlinePct, sigma); }
  }

  lemma Expand(k: real, pct: real, sigma: real)
    ensures (k * (1.0 + pct)) * sigma == k * sigma + pct * (k * sigma)
  {}

  lemma FloorSign(k: real, sigma: real)
    requires sigma >= 0.0
    ensures k * sigma > 0.0 <==> k > 0.0 && sigma * sigma > 0.0
  {
    if sigma > 0.0 {
      PositiveProduct(sigma, sigma);
      if k > 0.0 {
        PositiveProduct(k, sigma);
      }
    }
  }

  /** `spread` and `square` are the squares of the candidate's and of the combined deviation. */
  lemma JudgeExactly(cand: Summary, base: Summary, combined: real, cfg: Config, spread: real, square: real)
    requires cand.sigma >= 0.0 && combined >= 0.0
    requires spread == cand.sigma * cand.sigma && square == combined * combined
    ensures var o, delta, k := Judge(cand, base, combined, cfg), cand.mean - base.mean, cfg.k;
            var bound := cfg.foldCvThreshold * Abs(cand.mean);
            var steady := cand.mean != 0.0 && cfg.foldCvThreshold >= 0.0 && spread <= bound * bound;
            var lead := Leads(delta, k, square);
            && o.kind == (if !steady then RejectVariance else if !lead then RejectNoise else OK)
            && (o.accept <==> steady && lead)
            && (o.borderline <==>
                  steady && lead && k > 0.0 && square > 0.0 && !Leads(delta, BorderK(cfg), square))
            && o.candidateScore == cand.mean && o.baselineScore == base.mean && o.delta == delta
  {
    hide Leads, FoldCv;
    SteadyExactly(cand, cfg.foldCvThreshold);
    LeadsExactly(cand.mean - base.mean, cfg.k, combined);
    BorderExactly(cand.mean - base.mean, combined, cfg);
  }

  /** The whole verdict without square roots: the kind is the variance reject exactly when the variation is out of
      bounds, the noise reject exactly when it is not and the lead is too small, and an accepted candidate is
      borderline exactly when its lead exceeds the floor by no more than the margin. A rejected one never is. */
  lemma VerdictCharacterised(sqrt: real -> real, candidate: seq<real>, baseline: seq<real>, cfg: Config)
    requires IsSquareRoot(sqrt) && candidate != [] && baseline != []
    ensures var o := Gate(sqrt, candidate, baseline, cfg).value;
            var lead := Leads(Mean(candidate) - Mean(baseline), cfg.k, Variance(candidate) + Variance(baseline));
            && (o.kind == RejectVariance <==> !Steady(candidate, cfg))
            && (o.kind == RejectNoise <==> Steady(candidate, cfg) && !lead)
            && (o.kind == OK <==> Steady(candidate, cfg) && lead) && (o.accept <==> o.kind == OK)
            && (o.borderline <==> Steady(candidate, cfg) && lead && OnTheBorder(candidate, baseline, cfg))
            && o.candidateScore == Mean(candidate) && o.baselineScore == Mean(baseline)
            && o.delta == Mean(candidate) - Mean(baseline)
  {
    hide Judge, Combined, Mean, StdDev, Variance, Leads, BorderK;
    StdDevSquared(sqrt, candidate);
    CombinedSquared(sqrt, candidate, baseline);
    var cand, base := Summarize(sqrt, candidate), Summarize(sqrt, baseline);
    var combined := Combined(sqrt, cand, base);
    var o := Judge(cand, base, combined, cfg);
    JudgeExactly(cand, base, combined, cfg, Variance(candidate), Variance(candidate) + Variance(baseline));
    assert Gate(sqrt, candidate, baseline, cfg) == Ok(o);
  }

  lemma AcceptCharacterised(sqrt: real -> real, candidate: seq<real>, baseline: seq<real>, cfg: Config)
    requires IsSquareRoot(sqrt) && candidate != [] && baseline != []
    ensures Gate(sqrt, candidate, baseline, cfg).value.accept <==> ClearsGate(candidate, baseline, cfg)
  {
    hide Gate, Mean, Variance, Leads;
    VerdictCharacterised(sqrt, candidate, baseline, cfg);
  }

  /** The gate as it is configured: the deviation of the folds is at most half of a mean that is not zero, and the lead
      is more than one combined deviation; up to a fifth more is borderline. */
  lemma DefaultVerdict(sqrt: real -> real, candidate: seq<real>, baseline: seq<real>)
    requires IsSquareRoot(sqrt) && candidate != [] && baseline != []
    ensures var o := Gate(sqrt, candidate, baseline, DEFAULT_CONFIG).value;
            var mean, lead := Mean(candidate), Mean(candidate) - Mean(baseline);
            var variance := Variance(candidate) + Variance(baseline);
            && (o.kind != RejectVariance <==> mean != 0.0 && 4.0 * Variance(candidate) <= mean * mean)
            && (o.accept <==> o.kind != RejectVariance && lead > 0.0 && lead * lead > variance)
            && (o.borderline <==> o.accept && variance > 0.0 && 25.0 * (lead * lead) <= 36.0 * variance)
  {
    hide Gate, Mean, Variance;
    VerdictCharacterised(sqrt, candidate, baseline, DEFAULT_CONFIG);
    HalfSquared(Mean(candidate));
    DefaultBorder(Mean(candidate) - Mean(baseline), Variance(candidate) + Variance(baseline));
  }

  lemma HalfSquared(mean: real)
    ensures 4.0 * ((0.5 * Abs(mean)) * (0.5 * Abs(mean))) == mean * mean
  {}

  lemma DefaultBorder(lead: real, variance: real)
    ensures Leads(lead, 1.0, variance) <==> lead > 0.0 && lead * lead > variance
    ensures Leads(lead, BorderK(DEFAULT_CONFIG), variance) <==> lead > 0.0 && 25.0 * (lead * lead) > 36.0 * variance
  {}

  /** Accepting means a strictly better mean, whatever the thresholds, as soon as k is not negative. */
  lemma AcceptedBeatsBaseline(sqrt: real -> real, candidate: seq<real>, baseline: seq<real>, cfg: Config)
    requires IsSquareRoot(sqrt) && cfg.k >= 0.0
    ensures var r := Gate(sqrt, candidate, baseline, cfg);
            r.Ok? && r.value.accept ==> Mean(candidate) > Mean(baseline)
  {}

  // ----- invariance under reordering the folds

  lemma {:induction false} SumsIgnoreOrder(xs: seq<real>, ys: seq<real>, mu: real)
    requires multiset(xs) == multiset(ys)
    ensures Sum(xs) == Sum(ys) && Spread(xs, mu) == Spread(ys, mu) && |xs| == |ys|
  {
    SameSize(xs, ys);
    if xs != [] {
      hide Sum, Spread, SquaredDistance;
      var i := PairHead(xs, ys);
      SumsIgnoreOrder(xs[1..], ys[..i] + ys[i + 1..], mu);
      SumsPullOut(ys, i, mu);
      SumsPullOut(xs, 0, mu);
      assert xs[..0] + xs[1..] == xs[1..];
    }
  }

  lemma SameSize(xs: seq<real>, ys: seq<real>)
    requires multiset(xs) == multiset(ys)
    ensures |xs| == |ys|
  {
    assert |multiset(xs)| == |multiset(ys)|;
  }

  lemma PairHead<T>(xs: seq<T>, ys: seq<T>) returns (i: nat)
    requires multiset(xs) == multiset(ys) && xs != []
    ensures i < |ys| && ys[i] == xs[0]
    ensures multiset(xs[1..]) == multiset(ys[..i] + ys[i + 1..])
  {
    i := Locate(ys, xs[0]);
    PullOutMultiset(ys, i);
    assert xs == [xs[0]] + xs[1..];
    assert multiset(xs) == multiset{xs[0]} + multiset(xs[1..]);
  }

  lemma Locate<T>(ys: seq<T>, x: T) returns (i: nat)
    requires x in multiset(ys)
    ensures i < |ys| && ys[i] == x
  {
    i :| 0 <= i < |ys| && ys[i] == x;
  }

  lemma PullOutMultiset<T>(ys: seq<T>, i: nat)
    requires i < |ys|
    ensures multiset(ys[..i] + ys[i + 1..]) == multiset(ys) - multiset{ys[i]}
  {
    assert ys == ys[..i] + [ys[i]] + ys[i + 1..];
  }

  lemma {:induction false} SumsPullOut(ys: seq<real>, i: nat, mu: real)
    requires i < |ys|
    ensures Sum(ys) == ys[i] + Sum(ys[..i] + ys[i + 1..])
    ensures Spread(ys, mu) == SquaredDistance(ys[i], mu) + Spread(ys[..i] + ys[i + 1..], mu)
  {
    hide SquaredDistance;
    if i == 0 {
      assert ys[..0] + ys[1..] == ys[1..];
    } else {
      var rest := ys[..i] + ys[i + 1..];
      SumsPullOut(ys[1..], i - 1, mu);
      assert rest[1..] == ys[1..][..i - 1] + ys[1..][i..];
    }
  }

  lemma SummaryIgnoresOrder(sqrt: real -> real, xs: seq<real>, ys: seq<real>)
    requires multiset(xs) == multiset(ys)
    ensures Summarize(sqrt, xs) == Summarize(sqrt, ys)
    ensures xs == [] <==> ys == []
  {
    SumsIgnoreOrder(xs, ys, 0.0);
    SumsIgnoreOrder(xs, ys, Mean(xs));
  }

  lemma GateIgnoresFoldOrder(
    sqrt: real -> real, candidate: seq<real>, candidate': seq<real>, baseline: seq<real>, baseline': seq<real>,
    cfg: Config)
    requires multiset(candidate) == multiset(candidate') && multiset(baseline) == multiset(baseline')
    ensures Gate(sqrt, candidate, baseline, cfg) == Gate(sqrt, candidate', baseline', cfg)
  {
    hide JudgeScores, Summarize;
    SummaryIgnoresOrder(sqrt, candidate, candidate');
    SummaryIgnoresOrder(sqrt, baseline, baseline');
  }

  // ----- invariance under a change of unit

  function Scaled(c: real, xs: seq<real>): seq<real> {
    if xs == [] then [] else [c * xs[0]] + Scaled(c, xs[1..])
  }

  lemma {:induction false} ScaledSum(c: real, xs: seq<real>)
    ensures |Scaled(c, xs)| == |xs|
    ensures Sum(Scaled(c, xs)) == c * Sum(xs)
  {
    if xs != [] {
      ScaledSum(c, xs[1..]);
      assert Scaled(c, xs)[1..] == Scaled(c, xs[1..]);
      Distribute(c, xs[0], Sum(xs[1..]));
    }
  }

  lemma {:induction false} ScaledSpread(c: real, xs: seq<real>, mu: real)
    ensures Spread(Scaled(c, xs), c * mu) == (c * c) * Spread(xs, mu)
  {
    if xs != [] {
      ScaledSpread(c, xs[1..], mu);
      assert Scaled(c, xs)[1..] == Scaled(c, xs[1..]);
      ScaledDistance(c, xs[0], mu);
      hide SquaredDistance;
      Distribute(c * c, SquaredDistance(xs[0], mu), Spread(xs[1..], mu));
      assert Scaled(c, xs)[0] == c * xs[0];
    }
  }

  lemma ScaledDistance(c: real, x: real, mu: real)
    ensures SquaredDistance(c * x, c * mu) == (c * c) * SquaredDistance(x, mu)
  {}

  lemma Distribute(c: real, a: real, b: real)
    ensures c * (a + b) == c * a + c * b
  {}

  lemma ScaleDivision(c: real, a: real, n: real)
    requires n > 0.0
    ensures (c * a) / n == c * (a / n)
  {}

  lemma RootOfScaled(sqrt: real -> real, c: real, v: real, scaled: real)
    requires IsSquareRoot(sqrt) && c > 0.0 && v >= 0.0 && scaled == (c * c) * v
    ensures sqrt(scaled) == c * sqrt(v)
  {
    var root := sqrt(v);
    SquareOfProduct(c, root);
    assert scaled >= 0.0;
    var q := sqrt(scaled);
    RootsAgree(q, c * root);
  }

  lemma RootsAgree(a: real, b: real)
    requires a >= 0.0 && b >= 0.0 && a * a == b * b
    ensures a == b
  {
    SquareOrder(a, b);
    SquareOrder(b, a);
  }

  lemma ScaledMean(c: real, xs: seq<real>)
    ensures Mean(Scaled(c, xs)) == c * Mean(xs)
  {
    ScaledSum(c, xs);
    if xs != [] {
      ScaleDivision(c, Sum(xs), |xs| as real);
    }
  }

  lemma ScaledVariance(c: real, xs: seq<real>)
    ensures Variance(Scaled(c, xs)) == (c * c) * Variance(xs)
  {
    ScaledSum(c, xs);
    ScaledMean(c, xs);
    ScaledSpread(c, xs, Mean(xs));
    if xs != [] {
      ScaleDivision(c * c, Spread(xs, Mean(xs)), |xs| as real);
    }
  }

  function ScaledSummary(c: real, s: Summary): Summary {
    Summary(c * s.mean, c * s.sigma)
  }

  lemma SummaryScales(sqrt: real -> real, c: real, xs: seq<real>)
    requires IsSquareRoot(sqrt) && c > 0.0
    ensures |Scaled(c, xs)| == |xs|
    ensures Summarize(sqrt, Scaled(c, xs)) == ScaledSummary(c, Summarize(sqrt, xs))
  {
    hide Variance, Mean;
    ScaledSum(c, xs);
    ScaledMean(c, xs);
    ScaledVariance(c, xs);
    VarianceNonNegative(xs);
    RootOfScaled(sqrt, c, Variance(xs), Variance(Scaled(c, xs)));
  }

  lemma RatioUnchanged(c: real, a: real, m: real)
    requires c > 0.0 && m != 0.0
    ensures Abs(m) > 0.0 && Abs(c * m) == c * Abs(m) && c * m != 0.0
    ensures (c * a) / Abs(c * m) == a / Abs(m)
  {}

  /** Measuring every score in another unit changes neither the decision, nor the reject kind, nor the borderline
      flag. */
  lemma GateIgnoresScale(sqrt: real -> real, c: real, candidate: seq<real>, baseline: seq<real>, cfg: Config)
    requires IsSquareRoot(sqrt) && c > 0.0 && candidate != [] && baseline != []
    ensures Scaled(c, candidate) != [] && Scaled(c, baseline) != []
    ensures Decision(Gate(sqrt, Scaled(c, candidate), Scaled(c, baseline), cfg).value)
         == Decision(Gate(sqrt, candidate, baseline, cfg).value)
  {
    hide Judge, Combined, Summarize, ScaledSummary;
    SummaryScales(sqrt, c, candidate);
    SummaryScales(sqrt, c, baseline);
    var cand, base := Summarize(sqrt, candidate), Summarize(sqrt, baseline);
    CombinedScales(sqrt, c, cand, base);
    JudgeIgnoresScale(c, cand, base, Combined(sqrt, cand, base),
                      Combined(sqrt, ScaledSummary(c, cand), ScaledSummary(c, base)), cfg);
  }

  lemma JudgeIgnoresScale(c: real, cand: Summary, base: Summary, combined: real, scaled: real, cfg: Config)
    requires c > 0.0 && scaled == c * combined
    ensures Decision(Judge(ScaledSummary(c, cand), ScaledSummary(c, base), scaled, cfg))
         == Decision(Judge(cand, base, combined, cfg))
  {
    FoldCvScales(c, cand);
    ScaledThresholds(c, cfg, cand, base, combined, scaled);
    hide FoldCv, BelowFloor, Borderline, ScaledSummary;
  }

  lemma FoldCvScales(c: real, s: Summary)
    requires c > 0.0
    ensures FoldCv(ScaledSummary(c, s)) == FoldCv(s)
  {
    if s.mean != 0.0 {
      RatioUnchanged(c, s.sigma, s.mean);
    }
  }

  lemma CombinedScales(sqrt: real -> real, c: real, a: Summary, b: Summary)
    requires IsSquareRoot(sqrt) && c > 0.0
    ensures Combined(sqrt, ScaledSummary(c, a), ScaledSummary(c, b)) == c * Combined(sqrt, a, b)
  {
    var a', b' := ScaledSummary(c, a), ScaledSummary(c, b);
    SumOfScaledSquares(c, a, b, a', b');
    RootOfScaled(sqrt, c, SumOfSquares(a.sigma, b.sigma), SumOfSquares(a'.sigma, b'.sigma));
  }

  lemma SumOfScaledSquares(c: real, a: Summary, b: Summary, a': Summary, b': Summary)
    requires a' == ScaledSummary(c, a) && b' == ScaledSummary(c, b)
    ensures SumOfSquares(a.sigma, b.sigma) >= 0.0
    ensures SumOfSquares(a'.sigma, b'.sigma) == (c * c) * SumOfSquares(a.sigma, b.sigma)
  {}

  lemma ScaledThresholds(c: real, cfg: Config, cand: Summary, base: Summary, combined: real, scaled: real)
    requires c > 0.0 && scaled == c * combined
    ensures BelowFloor(ScaledSummary(c, cand), ScaledSummary(c, base), scaled, cfg.k) <==>
            BelowFloor(cand, base, combined, cfg.k)
    ensures Borderline(ScaledSummary(c, cand), ScaledSummary(c, base), scaled, cfg) <==>
            Borderline(cand, base, combined, cfg)
  {}
}
