/**
  What a run of the recursive grid is (optimizer.py), said of its rounds and trials from the outside: where the grid
  points of a cell lie and in which order candidates come, which metrics and outcome a trial carries, which cell comes
  next, how ties are broken, and when the run ends.
*/
module GridMeaning {
  import opened Basics
  import opened Numbers
  import opened Rounding
  import opened RecursiveGrid
  import opened GridSearch
  import opened GridDriver
  import opened GridGeometry
  import opened StableSort

  // ----- grid points and candidates

  /** The distance between neighbouring grid points. */
  function Gap(lo: real, hi: real, res: int): real
    requires res >= 2
  {
    (hi - lo) / (res - 1) as real
  }

  lemma GapTimes(lo: real, hi: real, res: int)
    requires res >= 2
    ensures Gap(lo, hi, res) * (res - 1) as real == hi - lo
  {}

  lemma PointsByGap(lo: real, hi: real, res: int, i: int)
    requires res >= 2
    ensures GridPoint(lo, hi, res, i) == lo + i as real * Gap(lo, hi, res)
    ensures 2.0 * HalfStep(lo, hi, res) == Gap(lo, hi, res)
  {
    QuotientScales(hi - lo, i as real, (res - 1) as real);
  }

  lemma QuotientScales(w: real, k: real, n: real)
    requires n > 0.0
    ensures w * k / n == k * (w / n)
  {
    var q := w / n;
    assert q * n == w;
    assert w * k == (k * q) * n by { Regroup(q, n, k); }
    QuotientOfProduct(k * q, n);
  }

  lemma Regroup(q: real, n: real, k: real)
    ensures (q * n) * k == (k * q) * n
  {}

  lemma StepUp(lo: real, gap: real, i: int)
    ensures lo + (i + 1) as real * gap == lo + i as real * gap + gap
  {}

  /** A continuous cell's grid: both ends, and equal steps in between; of a cell without width its one point. */
  lemma ContinuousGridExactly(param: Param, cell: Cell, res: int)
    requires res >= 2 && param.Continuous? && cell.Range?
    ensures var points := GridPoints(param, cell, res);
            if cell.lo >= cell.hi then points == [Num(cell.lo)]
            else
              && |points| == res && (forall i :: 0 <= i < res ==> points[i].Num?)
              && points[0].x == cell.lo && points[res - 1].x == cell.hi
              && Gap(cell.lo, cell.hi, res) * (res - 1) as real == cell.hi - cell.lo
              && forall i :: 0 <= i < res - 1 ==> points[i + 1].x - points[i].x == Gap(cell.lo, cell.hi, res)
  {
    hide GridPoint, Gap;
    var lo, hi := cell.lo, cell.hi;
    if lo < hi {
      var points := GridPoints(param, cell, res);
      GridPointWithin(lo, hi, res, 0);
      GridPointWithin(lo, hi, res, res - 1);
      GapTimes(lo, hi, res);
      forall i | 0 <= i < res - 1 ensures points[i + 1].x - points[i].x == Gap(lo, hi, res) {
        PointsByGap(lo, hi, res, i);
        PointsByGap(lo, hi, res, i + 1);
        StepUp(lo, Gap(lo, hi, res), i);
      }
    }
  }

  /** The integer that the `i`-th of `res` equally spaced points rounds to. */
  ghost predicate RoundsTo(lo: real, hi: real, res: int, i: int, n: int)
    requires res >= 2
  {
    IsRounding(lo + i as real * Gap(lo, hi, res), n)
  }

  lemma RoundsToExactly(lo: real, hi: real, res: int, i: int, n: int)
    requires res >= 2
    ensures RoundsTo(lo, hi, res, i, n) <==> RoundHalfEven(GridPoint(lo, hi, res, i)) == n
  {
    hide GridPoint, Gap, RoundHalfEven;
    PointsByGap(lo, hi, res, i);
    RoundIsTheRounding(GridPoint(lo, hi, res, i), n);
  }

  /** An integer cell's grid: the roundings of what a continuous one would have, or, below width one, of its middle. */
  lemma IntegerGridExactly(param: Param, cell: Cell, res: int, n: int)
    requires res >= 2 && param.Integer? && cell.Range?
    ensures cell.hi - cell.lo < 1.0 ==>
              |GridPoints(param, cell, res)| == 1
              && (GridPoints(param, cell, res) == [Int(n)] <==> IsRounding((cell.lo + cell.hi) / 2.0, n))
    ensures cell.hi - cell.lo >= 1.0 ==>
              (Int(n) in GridPoints(param, cell, res) <==>
                 exists i :: 0 <= i < res && RoundsTo(cell.lo, cell.hi, res, i, n))
  {
    hide RoundHalfEven, IsRounding, GridPoint, Gap;
    var lo, hi := cell.lo, cell.hi;
    RoundIsTheRounding((lo + hi) / 2.0, n);
    if hi - lo < 1.0 {
      assert GridPoints(param, cell, res) == [Int(RoundHalfEven((lo + hi) / 2.0))];
    } else {
      var raw := RoundedPoints(lo, hi, res);
      DistinctMembers(raw);
      IntsMemberExactly(Distinct(raw), n);
      forall i | 0 <= i < res ensures raw[i] == n <==> RoundsTo(lo, hi, res, i, n) {
        RoundsToExactly(lo, hi, res, i, n);
      }
      assert n in raw <==> exists i :: 0 <= i < res && raw[i] == n;
    }
  }

  lemma IntsMemberExactly(s: seq<int>, n: int)
    ensures Int(n) in Ints(s) <==> n in s
  {
    if n in s {
      IntsMember(s, n);
    }
  }

  lemma {:induction false} PrefixedAt(vs: seq<Value>, tails: seq<ParamSet>, i: nat, j: nat)
    ensures |Prefixed(vs, tails)| == |vs| * |tails|
    ensures i < |vs| && j < |tails| ==>
              i * |tails| + j < |Prefixed(vs, tails)| && Prefixed(vs, tails)[i * |tails| + j] == [vs[i]] + tails[j]
  {
    hide Prefixed;
    if vs == [] {
      NonePrefixed(tails);
    } else {
      PrefixedAt(vs[1..], tails, if i > 0 then i - 1 else 0, j);
      RowsCount(|vs|, |tails|);
      RowsCount(i, |tails|);
      PrefixedParts(vs, tails, i * |tails| + j);
    }
  }

  lemma NonePrefixed(tails: seq<ParamSet>)
    ensures Prefixed([], tails) == []
  {}

  lemma PrefixedParts(vs: seq<Value>, tails: seq<ParamSet>, k: nat)
    requires vs != []
    ensures |Prefixed(vs, tails)| == |tails| + |Prefixed(vs[1..], tails)|
    ensures k < |tails| ==> Prefixed(vs, tails)[k] == [vs[0]] + tails[k]
    ensures |tails| <= k < |tails| + |Prefixed(vs[1..], tails)| ==>
              Prefixed(vs, tails)[k] == Prefixed(vs[1..], tails)[k - |tails|]
  {}

  lemma RowsCount(m: nat, n: nat)
    ensures m > 0 ==> m * n == n + (m - 1) * n
  {}

  /** Candidates come in lexicographic order: the last dimension varies fastest, and each combination comes once. */
  lemma ProductInOrder(first: seq<Value>, rest: seq<seq<Value>>, i: nat, j: nat)
    ensures Product([]) == [[]]
    ensures var all, tails := Product([first] + rest), Product(rest);
            && |all| == |first| * |tails|
            && (i < |first| && j < |tails| ==> i * |tails| + j < |all| && all[i * |tails| + j] == [first[i]] + tails[j])
  {
    assert ([first] + rest)[1..] == rest;
    PrefixedAt(first, Product(rest), i, j);
  }

  /** A round's candidates are the product of the grids of its cells, each at its own resolution: an override if the
      parameter has one, else the searcher's. */
  lemma CandidatesAreProduct(s: Searcher, box: Box)
    requires Validate(s).None? && BoxFits(s.space, box)
    ensures exists points ::
              && IsGrid(s, box, points) && Candidates(s, box) == Product(points)
  {
    forall i | 0 <= i < |s.space| ensures ResolutionFor(s, s.space[i].name) >= 2 {
      ValidResolution(s, s.space[i].name);
    }
    assert IsGrid(s, box, PointsPerDim(s, box));
  }

  ghost predicate IsGrid(s: Searcher, box: Box, points: seq<seq<Value>>)
    requires BoxFits(s.space, box)
  {
    && |points| == |s.space|
    && forall i :: 0 <= i < |points| ==>
         var res := if s.space[i].name in s.overrides then s.overrides[s.space[i].name] else s.resolution;
         res >= 2 && points[i] == GridPoints(s.space[i].param, box[i], res)
  }

  // ----- what is refused

  ghost predicate HasDim(s: Searcher, name: string) {
    exists i :: 0 <= i < |s.space| && s.space[i].name == name
  }

  /** Every override is of a parameter that exists, and allows a grid of two points at least. */
  ghost predicate OverridesInOrder(s: Searcher) {
    forall name :: name in s.overrides ==>
      s.overrides[name] >= 2 && HasDim(s, name)
  }

  /** A searcher is refused for the first of these that is out of order: resolution, number of selected trials, depth,
      epsilon, overrides. */
  lemma RefusesExactly(s: Searcher)
    ensures Validate(s) == Some(BadResolution) <==> s.resolution < 2
    ensures Validate(s) == Some(BadTopK) <==> s.resolution >= 2 && s.topK < 1
    ensures Validate(s) == Some(BadDepth) <==> s.resolution >= 2 && s.topK >= 1 && s.depth < 1
    ensures Validate(s) == Some(BadEpsilon) <==>
            s.resolution >= 2 && s.topK >= 1 && s.depth >= 1 && s.epsilon <= 0.0
    ensures Validate(s) == Some(BadOverride) <==>
            s.resolution >= 2 && s.topK >= 1 && s.depth >= 1 && s.epsilon > 0.0 && !OverridesInOrder(s)
    ensures Validate(s) != Some(LengthMismatch)
  {
    forall name ensures (exists d :: d in s.space && d.name == name) <==> HasDim(s, name) {
      if d :| d in s.space && d.name == name {
        var i :| 0 <= i < |s.space| && s.space[i] == d;
        assert s.space[i].name == name;
      }
      if HasDim(s, name) {
        var i :| 0 <= i < |s.space| && s.space[i].name == name;
        assert s.space[i] in s.space;
      }
    }
    assert OverridesValid(s) <==> OverridesInOrder(s);
  }

  // ----- trials

  /** Every candidate has its own trial, with its own metrics and what the objective says of exactly those. */
  ghost predicate Answers(p: Problem, cells: seq<ParamSet>, trials: seq<Trial>) {
    && |trials| == |cells| == |p.evaluate(cells)|
    && forall k :: 0 <= k < |cells| ==>
         && trials[k].params == cells[k] && trials[k].metrics == p.evaluate(cells)[k]
         && trials[k].outcome == p.score(p.evaluate(cells)[k])
  }

  /** The flag of a trial of `search`: the objective accepts, and the score reaches the threshold if there is one. */
  predicate FlaggedBy(oosMinScore: Option<real>, t: Trial) {
    t.accepted <==> t.outcome.accepted && (oosMinScore.Some? ==> t.outcome.score >= oosMinScore.value)
  }

  lemma RoundAnswers(p: Problem, oosMinScore: Option<real>, round: Round)
    requires Validate(p.s).None? && IsRoundOf(p, AcceptBy(oosMinScore), round)
    ensures Answers(p, Candidates(p.s, round.box), round.trials)
    ensures forall t :: t in round.trials ==> FlaggedBy(oosMinScore, t)
  {
    hide Validate, Candidates, TopParams, ShrunkBox;
    forall t | t in round.trials ensures FlaggedBy(oosMinScore, t) {
      var k :| 0 <= k < |round.trials| && round.trials[k] == t;
    }
  }

  /** In every round of every search. */
  lemma SearchAnswers(p: Problem, oosMinScore: Option<real>, i: nat)
    ensures var rounds := Rounds(p, AcceptBy(oosMinScore));
            i < |rounds| ==>
              && Validate(p.s).None? && BoxFits(p.s.space, rounds[i].box)
              && Answers(p, Candidates(p.s, rounds[i].box), rounds[i].trials)
              && forall t :: t in rounds[i].trials ==> FlaggedBy(oosMinScore, t)
  {
    hide Validate, Rounds, RunRound, Answers, FlaggedBy, AllConverged, AcceptBy;
    if i < |Rounds(p, AcceptBy(oosMinScore))| {
      RoundsAreRun(p, AcceptBy(oosMinScore));
      RoundAnswers(p, oosMinScore, Rounds(p, AcceptBy(oosMinScore))[i]);
    }
  }

  lemma {:induction false} ConcatMembers<T>(parts: seq<seq<T>>, x: T)
    ensures x in Concat(parts) <==> exists i :: 0 <= i < |parts| && x in parts[i]
  {
    if parts != [] {
      ConcatMembers(parts[1..], x);
      assert forall i :: 1 <= i < |parts| ==> parts[i] == parts[1..][i - 1];
      if x in Concat(parts[1..]) {
        var i :| 0 <= i < |parts[1..]| && x in parts[1..][i];
        assert x in parts[i + 1];
      }
    }
  }

  /** What is counted as rejected are the trials that are not accepted. */
  lemma {:induction false} RejectedCounts(trials: seq<Trial>)
    ensures Rejected(trials) == |set i | 0 <= i < |trials| && !trials[i].accepted|
  {
    var all := set i | 0 <= i < |trials| && !trials[i].accepted;
    if trials != [] {
      var n := |trials| - 1;
      var before := set i | 0 <= i < |trials[..n]| && !trials[..n][i].accepted;
      RejectedCounts(trials[..n]);
      assert all == if trials[n].accepted then before else before + {n};
    }
  }

  /** The evaluator answers each candidate for itself. */
  ghost predicate Pointwise(p: Problem, e: ParamSet -> Metrics) {
    forall cells ::
      && |p.evaluate(cells)| == |cells|
      && forall k :: 0 <= k < |cells| ==> p.evaluate(cells)[k] == e(cells[k])
  }

  ghost predicate Measured(p: Problem, e: ParamSet -> Metrics, t: Trial) {
    t.metrics == e(t.params) && t.outcome == p.score(e(t.params))
  }

  /** With such an evaluator every trial of a search carries the metrics and the outcome of its own parameters. */
  lemma TrialsMeasured(p: Problem, oosMinScore: Option<real>, e: ParamSet -> Metrics)
    requires Pointwise(p, e) && Validate(p.s).None? && FullSearch(p, AcceptBy(oosMinScore)).Ok?
    ensures forall t :: t in AllTrials(FullSearch(p, AcceptBy(oosMinScore)).value) ==>
              Measured(p, e, t) && FlaggedBy(oosMinScore, t)
  {
    hide Validate, FullSearch, AcceptBy, FlaggedBy, Candidates;
    var rounds := FullSearch(p, AcceptBy(oosMinScore)).value;
    forall t | t in AllTrials(rounds) ensures Measured(p, e, t) && FlaggedBy(oosMinScore, t) {
      ConcatMembers(TrialLists(rounds), t);
      var i :| 0 <= i < |TrialLists(rounds)| && t in TrialLists(rounds)[i];
      SearchAnswers(p, oosMinScore, i);
      var k :| 0 <= k < |rounds[i].trials| && rounds[i].trials[k] == t;
    }
  }

  /** Hence the best trial of a search has the parameters that score highest of all accepted ones. */
  lemma BestIsBestMeasured(p: Problem, oosMinScore: Option<real>, e: ParamSet -> Metrics, best: Option<Trial>)
    requires Pointwise(p, e) && Validate(p.s).None? && FullSearch(p, AcceptBy(oosMinScore)).Ok?
    requires IsBest(AllTrials(FullSearch(p, AcceptBy(oosMinScore)).value), best)
    ensures var trials := AllTrials(FullSearch(p, AcceptBy(oosMinScore)).value);
            && (best.None? <==> forall t :: t in trials ==> !t.accepted)
            && (best.Some? ==>
                  && best.value in trials && best.value.accepted && best.value.metrics == e(best.value.params)
                  && forall t :: t in trials && t.accepted ==>
                       p.score(e(t.params)).score <= p.score(e(best.value.params)).score)
  {
    hide Validate, FullSearch, AcceptBy, FlaggedBy, AllTrials, Pointwise;
    TrialsMeasured(p, oosMinScore, e);
    var trials := AllTrials(FullSearch(p, AcceptBy(oosMinScore)).value);
    if best.Some? {
      var i :| 0 <= i < |trials| && IsFirstBest(trials, i, best.value);
      assert trials[i] in trials;
      forall t | t in trials && t.accepted ensures t.outcome.score <= best.value.outcome.score {
        var j :| 0 <= j < |trials| && trials[j] == t;
      }
    }
  }

  /** Each round that the step driver is taken through answers the candidates of one box; the first, of the box it is
      in. All its trials are flagged accepted. */
  lemma {:induction false} DriveAnswers(p: Problem, d: DriverState)
    requires Validate(p.s).None? && BoxFits(p.s.space, d.box)
    ensures var driven := DriveRounds(p, d);
            driven.Ok? ==>
              && (d.done <==> driven.value == [])
              && (driven.value != [] ==> Answers(p, Candidates(p.s, d.box), driven.value[0]))
              && forall i :: 0 <= i < |driven.value| ==>
                   && (exists box :: BoxFits(p.s.space, box) && Answers(p, Candidates(p.s, box), driven.value[i]))
                   && forall t :: t in driven.value[i] ==> t.accepted
    decreases if d.done then 0 else 1 + Max(0, p.s.depth - d.roundIndex)
  {
    hide Candidates, Observed, Validate, BoxFits;
    if !d.done {
      var cells := Candidates(p.s, d.box);
      var metrics := p.evaluate(cells);
      if |metrics| == |cells| {
        CandidatesComplete(p, d.box, metrics, ALWAYS);
        var trials := TrialsOf(p, cells, metrics, ALWAYS);
        ObserveProgress(p.s, p.rng, d, trials);
        var next := Observed(p.s, p.rng, d, trials);
        DriveAnswers(p, next);
        assert Answers(p, cells, trials);
      }
    }
  }

  /** The trials of the driver, round by round: the same candidates of the same boxes as the closed loop's, with the
      same metrics and outcomes. */
  lemma DriverAnswersAlike(p: Problem, accept: Outcome -> bool, i: nat)
    requires Validate(p.s).None? && NoEmptyChoice(p.s.space)
    ensures var driven, rounds := DriveRounds(p, Start(p.s, p.rng, 0)), Rounds(p, accept);
            driven.Ok? ==>
              && |driven.value| == |rounds|
              && (i < |rounds| ==>
                    BoxFits(p.s.space, rounds[i].box) && Answers(p, Candidates(p.s, rounds[i].box), driven.value[i]))
  {
    hide Validate, DriveRounds, FullSearch, Candidates, NoEmptyChoice, RunRound;
    DriverRefinesSearch(p, accept);
    if i < |Rounds(p, accept)| {
      RoundsAreRun(p, accept);
      OneRoundAnswers(p, accept, Rounds(p, accept)[i]);
    }
  }

  lemma OneRoundAnswers(p: Problem, accept: Outcome -> bool, round: Round)
    requires Validate(p.s).None? && IsRoundOf(p, accept, round)
    ensures Answers(p, Candidates(p.s, round.box), FlagAll(round.trials))
  {
    hide Validate, Candidates, TopParams, ShrunkBox;
  }

  // ----- ties

  /** The selected trials lead every stable descending arrangement of the shuffled round. */
  lemma TiesByShuffle(s: Searcher, rng: Shuffler, st: int, trials: seq<Trial>, mixed: seq<Trial>, sorted: seq<Trial>)
    requires s.topK >= 0 && |mixed| == |trials| && IsPermutation(rng.order(st, |trials|), |trials|)
    requires forall i :: 0 <= i < |trials| ==> mixed[i] == trials[rng.order(st, |trials|)[i]]
    requires StableSortOf(TRIAL_SCORE, mixed, sorted)
    ensures |sorted| == |trials| && SelectTop(s, rng, st, trials) == Take(sorted, s.topK)
  {
    assert mixed == Reordered(trials, Order(rng, st, |trials|));
    SortIsStable(TRIAL_SCORE, mixed);
    StableSortIsUnique(TRIAL_SCORE, sorted, Sort(TRIAL_SCORE, mixed));
    assert |multiset(Sort(TRIAL_SCORE, mixed))| == |multiset(mixed)|;
  }

  // ----- the next cell

  /** The middle between two neighbours is half a step away from both. */
  lemma HalfWay(lo: real, hi: real, res: int, i: int)
    requires res >= 2 && 0 <= i < res - 1 && lo <= hi
    ensures var half, here, next := HalfStep(lo, hi, res), GridPoint(lo, hi, res, i), GridPoint(lo, hi, res, i + 1);
            here + half == (here + next) / 2.0 == next - half && lo <= here && next <= hi
  {
    hide GridPoint, HalfStep, Gap;
    PointsByGap(lo, hi, res, i);
    PointsByGap(lo, hi, res, i + 1);
    StepUp(lo, Gap(lo, hi, res), i);
    GridPointWithin(lo, hi, res, i);
    GridPointWithin(lo, hi, res, i + 1);
  }

  /** Half a step beyond the extreme chosen points, but not beyond the cell. */
  function HullLow(cell: Cell, res: int, centres: seq<real>): real
    requires res >= 2 && cell.Range? && centres != []
  {
    var low := MinOf(centres) - Gap(cell.lo, cell.hi, res) / 2.0;
    if low > cell.lo then low else cell.lo
  }

  function HullHigh(cell: Cell, res: int, centres: seq<real>): real
    requires res >= 2 && cell.Range? && centres != []
  {
    var high := MaxOf(centres) + Gap(cell.lo, cell.hi, res) / 2.0;
    if high < cell.hi then high else cell.hi
  }

  lemma ShrinkIsHull(param: Param, cell: Cell, res: int, centres: seq<real>)
    requires res >= 2 && cell.Range? && Fits(param, cell) && centres != []
    ensures var lo, hi := HullLow(cell, res, centres), HullHigh(cell, res, centres);
            var n := RoundHalfEven((lo + hi) / 2.0);
            ShrinkCell(param, cell, res, centres) ==
            if param.Integer? && hi - lo < 1.0 then Range(n as real, n as real) else Range(lo, hi)
  {
    hide RoundHalfEven, MinOf, MaxOf, HalfStep, Gap;
    PointsByGap(cell.lo, cell.hi, res, 0);
    var half, least, most := HalfStep(cell.lo, cell.hi, res), MinOf(centres), MaxOf(centres);
    assert HullLow(cell, res, centres) == if cell.lo >= least - half then cell.lo else least - half;
    assert HullHigh(cell, res, centres) == if cell.hi <= most + half then cell.hi else most + half;
  }

  /** A cell shrinks to the hull of the chosen points, half a step wider and clipped; an integer one that is then less
      than one wide is frozen at the rounding of its middle. Choices, and cells without chosen points, stay. */
  lemma ShrinksToHull(param: Param, cell: Cell, res: int, centres: seq<real>)
    requires res >= 2 && Fits(param, cell)
    ensures param.Choice? || centres == [] ==> ShrinkCell(param, cell, res, centres) == cell
    ensures !param.Choice? && centres != [] ==>
              var lo, hi := HullLow(cell, res, centres), HullHigh(cell, res, centres);
              var r, middle := ShrinkCell(param, cell, res, centres), (lo + hi) / 2.0;
              if param.Integer? && hi - lo < 1.0 then exists n: int :: FrozenAt(r, middle, n)
              else r == Range(lo, hi)
  {
    if !param.Choice? && centres != [] {
      hide RoundHalfEven, HullLow, HullHigh, IsRounding, ShrinkCell;
      ShrinkIsHull(param, cell, res, centres);
      var middle := (HullLow(cell, res, centres) + HullHigh(cell, res, centres)) / 2.0;
      var n := RoundHalfEven(middle);
      RoundIsTheRounding(middle, n);
      if param.Integer? && HullHigh(cell, res, centres) - HullLow(cell, res, centres) < 1.0 {
        assert FrozenAt(ShrinkCell(param, cell, res, centres), middle, n);
      }
    }
  }

  ghost predicate FrozenAt(cell: Cell, middle: real, n: int) {
    IsRounding(middle, n) && cell == Range(n as real, n as real)
  }

  /** In the terms of the grid: a continuous cell shrinks to the middle between its least chosen grid point and the
      neighbour below, and between its greatest and the neighbour above, or keeps the end where there is none. */
  lemma ShrinksToMidpoints(param: Param, cell: Cell, res: int, centres: seq<real>, a: nat, b: nat)
    requires res >= 2 && param.Continuous? && cell.Range? && cell.lo < cell.hi && a <= b < res && centres != []
    requires var points := GridPoints(param, cell, res);
             MinOf(centres) == points[a].x && MaxOf(centres) == points[b].x
    ensures var points, r := GridPoints(param, cell, res), ShrinkCell(param, cell, res, centres);
            && r.Range?
            && r.lo == (if a == 0 then cell.lo else (points[a - 1].x + points[a].x) / 2.0)
            && r.hi == (if b == res - 1 then cell.hi else (points[b].x + points[b + 1].x) / 2.0)
  {
    hide MinOf, MaxOf, GridPoint, HalfStep;
    HalfStepSize(cell.lo, cell.hi, res);
    GridPointWithin(cell.lo, cell.hi, res, a);
    GridPointWithin(cell.lo, cell.hi, res, b);
    if a > 0 {
      HalfWay(cell.lo, cell.hi, res, a - 1);
    }
    if b < res - 1 {
      HalfWay(cell.lo, cell.hi, res, b);
    }
  }

  // ----- the run

  /** A dimension that no longer holds the search up: a choice, an integer frozen or without range, or a width below
      the epsilon's share of the whole range. */
  predicate Settled(param: Param, cell: Cell, epsilon: real) {
    match param
    case Choice(_) => true
    case Integer(first, last) =>
      cell.Range? ==> cell.hi - cell.lo < 1.0 || last <= first || (cell.hi - cell.lo) < epsilon * (last - first) as real
    case Continuous(low, high) =>
      cell.Range? ==> high <= low || cell.hi - cell.lo < epsilon * (high - low)
  }

  lemma SettledExactly(param: Param, cell: Cell, epsilon: real)
    requires Fits(param, cell)
    ensures CellConverged(param, cell, epsilon) <==> Settled(param, cell, epsilon)
  {
    if cell.Range? && OriginalWidth(param) > 0.0 {
      QuotientBelow(cell.hi - cell.lo, OriginalWidth(param), epsilon);
    }
  }

  lemma QuotientBelow(w: real, o: real, epsilon: real)
    requires o > 0.0
    ensures w / o < epsilon <==> w < epsilon * o
  {
    var q := w / o;
    assert q * o == w;
    if q < epsilon {
      assert (epsilon - q) * o > 0.0;
    } else {
      assert (q - epsilon) * o >= 0.0;
    }
  }

  ghost predicate AllSettled(p: Problem, box: Box)
    requires |box| == |p.s.space|
  {
    forall d :: 0 <= d < |box| ==> Settled(p.s.space[d].param, box[d], p.s.epsilon)
  }

  /** The whole run: it starts on the full ranges with the seeded generator, each round goes on from the box and the
      generator that the one before left, and it ends after `depth` rounds or with the first settled box. */
  ghost predicate RunsOut(p: Problem, rounds: seq<Round>) {
    && 1 <= |rounds| <= p.s.depth
    && (forall i :: 0 <= i < |rounds| ==> |rounds[i].box| == |rounds[i].next| == |p.s.space|)
    && rounds[0].rng == p.rng.seed(p.s.seed)
    && (forall d :: 0 <= d < |p.s.space| ==> IsFullRange(p.s.space[d].param, rounds[0].box[d]))
    && (forall i :: 0 <= i < |rounds| - 1 ==>
          && rounds[i + 1].box == rounds[i].next && !AllSettled(p, rounds[i].next)
          && rounds[i + 1].rng == p.rng.next(rounds[i].rng, |rounds[i].trials|))
    && (|rounds| == p.s.depth || AllSettled(p, rounds[|rounds| - 1].next))
  }

  predicate IsFullRange(param: Param, cell: Cell) {
    match param
    case Continuous(low, high) => cell.Range? && cell.lo == low && cell.hi == high
    case Integer(first, last) => cell.Range? && cell.lo == first as real && cell.hi == last as real
    case Choice(choices) => cell.Options? && cell.choices == choices
  }

  lemma SettledBox(p: Problem, box: Box)
    requires BoxFits(p.s.space, box)
    ensures AllConverged(p.s.space, box, p.s.epsilon) <==> AllSettled(p, box)
  {
    hide CellConverged, Settled;
    forall d | 0 <= d < |box|
      ensures CellConverged(p.s.space[d].param, box[d], p.s.epsilon)
              <==> Settled(p.s.space[d].param, box[d], p.s.epsilon)
    {
      SettledExactly(p.s.space[d].param, box[d], p.s.epsilon);
    }
  }

  /** The part of `RunsOut` that does not speak of the start, from any box with `left` rounds to go. */
  ghost predicate RunsFrom(p: Problem, rounds: seq<Round>, box: Box, rng: int, left: nat) {
    && |rounds| <= left && (left > 0 ==> rounds != [] && rounds[0].box == box && rounds[0].rng == rng)
    && (forall i :: 0 <= i < |rounds| ==> |rounds[i].box| == |rounds[i].next| == |p.s.space|)
    && (forall i :: 0 <= i < |rounds| - 1 ==>
          && rounds[i + 1].box == rounds[i].next && !AllSettled(p, rounds[i].next)
          && rounds[i + 1].rng == p.rng.next(rounds[i].rng, |rounds[i].trials|))
    && (|rounds| == left || AllSettled(p, rounds[|rounds| - 1].next))
  }

  lemma {:induction false} SearchRunsFrom(p: Problem, accept: Outcome -> bool, box: Box, rng: int, left: nat)
    requires Validate(p.s).None? && BoxFits(p.s.space, box)
    ensures var r := SearchRounds(p, accept, box, rng, left); r.Ok? ==> RunsFrom(p, r.value, box, rng, left)
    decreases left
  {
    hide RunRound, Validate, BoxFits, AllConverged, AllSettled;
    if left > 0 && RunRound(p, accept, box, rng).Ok? {
      var round := RunRound(p, accept, box, rng).value;
      RoundKeepsArguments(p, accept, box, rng);
      BoxSizes(p, round);
      SettledBox(p, round.next);
      if !AllConverged(p.s.space, round.next, p.s.epsilon) {
        var next := p.rng.next(rng, |round.trials|);
        SearchRunsFrom(p, accept, round.next, next, left - 1);
        var rest := SearchRounds(p, accept, round.next, next, left - 1);
        if rest.Ok? {
          RunsCons(p, round, rest.value, next, left - 1);
        }
      }
    }
  }

  lemma BoxSizes(p: Problem, round: Round)
    requires BoxFits(p.s.space, round.box) && BoxFits(p.s.space, round.next)
    ensures |round.box| == |round.next| == |p.s.space|
  {}

  lemma RunsCons(p: Problem, round: Round, rest: seq<Round>, rng: int, left: nat)
    requires |round.box| == |round.next| == |p.s.space| && !AllSettled(p, round.next)
    requires rng == p.rng.next(round.rng, |round.trials|) && RunsFrom(p, rest, round.next, rng, left)
    ensures RunsFrom(p, [round] + rest, round.box, round.rng, left + 1)
  {
    hide AllSettled;
    var all := [round] + rest;
    assert forall i :: 0 < i < |all| ==> all[i] == rest[i - 1];
  }

  lemma SearchRunsOut(p: Problem, accept: Outcome -> bool)
    requires Validate(p.s).None? && FullSearch(p, accept).Ok?
    ensures RunsOut(p, FullSearch(p, accept).value)
  {
    hide Validate, AllSettled, SearchRounds;
    ValidNumbers(p.s);
    SearchRunsFrom(p, accept, InitialBox(p.s.space), p.rng.seed(p.s.seed), p.s.depth);
  }
}
