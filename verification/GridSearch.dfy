/**
  The two forms of the recursive grid search (optimizer.py): the closed loop of
  `RecursiveGridSearcher.search` and the step driver `RecursiveGridDriver`. The evaluator, the
  objective and the shuffle of the random generator are arbitrary functions.
*/
module GridSearch {
  import opened Basics
  import opened RecursiveGrid
  import opened StableSort

  type Metrics = map<string, real>

  datatype Outcome = Outcome(accepted: bool, score: real)

  datatype Trial = Trial(params: ParamSet, metrics: Metrics, outcome: Outcome, accepted: bool)

  ghost predicate IsPermutation(order: seq<nat>, n: nat) {
    && |order| == n
    && (forall i :: 0 <= i < n ==> order[i] < n)
    && (forall i, j :: 0 <= i < j < n ==> order[i] != order[j])
  }

  /** `random.Random`: the state for a seed, the shuffled index list a state yields, and the state after it. */
  datatype Generator = Generator(seed: int -> int, order: (int, nat) -> seq<nat>, next: (int, nat) -> int)

  ghost predicate Shuffles(g: Generator) {
    forall st: int, n: nat :: IsPermutation(g.order(st, n), n)
  }

  type Shuffler = g: Generator | Shuffles(g)
    ghost witness Generator((s: int) => s, (st: int, n: nat) => seq(n, (i: nat) => i), (st: int, n: nat) => st)

  function Order(rng: Shuffler, st: int, n: nat): (order: seq<nat>)
    ensures IsPermutation(order, n)
  {
    assert Shuffles(rng);
    rng.order(st, n)
  }

  datatype Problem = Problem(s: Searcher, rng: Shuffler, evaluate: seq<ParamSet> -> seq<Metrics>,
                             score: Metrics -> Outcome)

  const TRIAL_SCORE: Trial -> real := (t: Trial) => t.outcome.score

  function Reordered<T>(xs: seq<T>, order: seq<nat>): seq<T>
    requires forall i :: 0 <= i < |order| ==> order[i] < |xs|
  {
    seq(|order|, i requires 0 <= i < |order| => xs[order[i]])
  }

  /** The `top_k` best trials of a round: a seeded shuffle, then a stable sort by score. */
  function SelectTop(s: Searcher, rng: Shuffler, st: int, trials: seq<Trial>): seq<Trial>
    requires s.topK >= 0
  {
    var order := Order(rng, st, |trials|);
    Take(Sort(TRIAL_SCORE, Reordered(trials, order)), s.topK)
  }

  function Without(order: seq<nat>, v: nat): seq<nat> {
    seq(|order|, i requires 0 <= i < |order| => if order[i] > v then order[i] - 1 else order[i])
  }

  lemma WithoutLast(order: seq<nat>, n: nat)
    requires n > 0 && IsPermutation(order, n)
    ensures IsPermutation(Without(order[..n - 1], order[n - 1]), n - 1)
  {}

  lemma ReorderedWithout<T>(xs: seq<T>, order: seq<nat>, v: nat)
    requires v < |xs| && forall i :: 0 <= i < |order| ==> order[i] < |xs| && order[i] != v
    ensures forall i :: 0 <= i < |order| ==> Without(order, v)[i] < |xs| - 1
    ensures Reordered(xs[..v] + xs[v + 1..], Without(order, v)) == Reordered(xs, order)
  {}

  /** A permutation rearranges, and loses nothing. */
  lemma {:induction false} ReorderedPermutes<T>(xs: seq<T>, order: seq<nat>)
    requires IsPermutation(order, |xs|)
    ensures multiset(Reordered(xs, order)) == multiset(xs)
  {
    if xs != [] {
      hide Reordered, Without;
      var n := |xs| - 1;
      var v := order[n];
      WithoutLast(order, n + 1);
      ReorderedWithout(xs, order[..n], v);
      ReorderedPermutes(xs[..v] + xs[v + 1..], Without(order[..n], v));
      ReorderedLast(xs, order);
      assert xs == xs[..v] + [xs[v]] + xs[v + 1..];
    }
  }

  lemma ReorderedLast<T>(xs: seq<T>, order: seq<nat>)
    requires order != [] && forall i :: 0 <= i < |order| ==> order[i] < |xs|
    ensures Reordered(xs, order) == Reordered(xs, order[..|order| - 1]) + [xs[order[|order| - 1]]]
  {}

  lemma SelectTopMembers(s: Searcher, rng: Shuffler, st: int, trials: seq<Trial>)
    requires s.topK >= 0
    ensures forall t :: t in SelectTop(s, rng, st, trials) ==> t in trials
    ensures |SelectTop(s, rng, st, trials)| == if s.topK <= |trials| then s.topK else |trials|
  {
    var order := Order(rng, st, |trials|);
    var mixed := Reordered(trials, order);
    SortKeepsMembers(TRIAL_SCORE, mixed);
    assert forall t :: t in mixed ==> t in trials;
    assert forall t :: t in SelectTop(s, rng, st, trials) ==> t in Sort(TRIAL_SCORE, mixed);
  }

  /** Best first. */
  predicate Descending(trials: seq<Trial>) {
    forall i, j :: 0 <= i < j < |trials| ==> trials[i].outcome.score >= trials[j].outcome.score
  }

  predicate NoneHigher(top: seq<Trial>, others: seq<Trial>) {
    forall t, u :: t in top && u in others ==> t.outcome.score >= u.outcome.score
  }

  lemma TopOfSorted(sorted: seq<Trial>, n: nat)
    requires n <= |sorted| && SortedDesc(TRIAL_SCORE, sorted)
    ensures Descending(sorted[..n]) && NoneHigher(sorted[..n], sorted[n..])
  {
    assert forall i, j :: 0 <= i < j < |sorted| ==> sorted[i].outcome.score >= sorted[j].outcome.score;
    forall t, u | t in sorted[..n] && u in sorted[n..] ensures t.outcome.score >= u.outcome.score {
      var i :| 0 <= i < n && sorted[i] == t;
      var j :| n <= j < |sorted| && sorted[j] == u;
    }
  }

  /** The trials of a round split into the selected ones, best first, and others that score no higher. */
  lemma SelectTopIsBest(s: Searcher, rng: Shuffler, st: int, trials: seq<Trial>) returns (others: seq<Trial>)
    requires s.topK >= 0
    ensures var top := SelectTop(s, rng, st, trials);
            && |top| == (if s.topK <= |trials| then s.topK else |trials|)
            && multiset(trials) == multiset(top) + multiset(others)
            && Descending(top) && NoneHigher(top, others)
  {
    hide Descending, NoneHigher, SortedDesc, SameClasses, Sort, Reordered;
    var mixed := Reordered(trials, Order(rng, st, |trials|));
    ReorderedPermutes(trials, Order(rng, st, |trials|));
    SelectTopMembers(s, rng, st, trials);
    SortIsStable(TRIAL_SCORE, mixed);
    var sorted := Sort(TRIAL_SCORE, mixed);
    var n := |SelectTop(s, rng, st, trials)|;
    others := sorted[n..];
    assert sorted == sorted[..n] + others;
    assert |sorted| == |multiset(sorted)| == |multiset(trials)| == |trials|;
    TopOfSorted(sorted, n);
    assert SelectTop(s, rng, st, trials) == sorted[..n];
  }

  function ParamsOf(trials: seq<Trial>): seq<ParamSet> {
    seq(|trials|, i requires 0 <= i < |trials| => trials[i].params)
  }

  function TrialsOf(p: Problem, cells: seq<ParamSet>, metrics: seq<Metrics>, accept: Outcome -> bool): seq<Trial>
    requires |cells| == |metrics|
  {
    seq(|cells|, i requires 0 <= i < |cells| =>
      Trial(cells[i], metrics[i], p.score(metrics[i]), accept(p.score(metrics[i]))))
  }

  /** The parameters of the top trials of a round; each of them is a candidate of the round's box. */
  function TopParams(s: Searcher, rng: Shuffler, st: int, trials: seq<Trial>): seq<ParamSet>
    requires s.topK >= 0
  {
    ParamsOf(SelectTop(s, rng, st, trials))
  }

  lemma TopParamsComplete(p: Problem, box: Box, st: int, cells: seq<ParamSet>, metrics: seq<Metrics>,
                          accept: Outcome -> bool)
    requires Validate(p.s).None? && BoxFits(p.s.space, box)
    requires cells == Candidates(p.s, box) && |cells| == |metrics| && p.s.topK >= 0
    ensures var top := TopParams(p.s, p.rng, st, TrialsOf(p, cells, metrics, accept));
            Complete(p.s.space, top) && forall t :: t in top ==> t in cells
  {
    var trials := TrialsOf(p, cells, metrics, accept);
    SelectTopMembers(p.s, p.rng, st, trials);
    var top := TopParams(p.s, p.rng, st, trials);
    forall t | t in top ensures t in cells && |t| == |p.s.space| {
      var i :| 0 <= i < |top| && top[i] == t;
      assert SelectTop(p.s, p.rng, st, trials)[i] in trials;
      CandidateEntries(p.s, box, t, 0);
    }
  }

  /** Box, generator state and trials of one round, and the box it shrinks to. */
  datatype Round = Round(box: Box, rng: int, trials: seq<Trial>, next: Box)

  /** Evaluate the grid of a box and shrink it; the evaluator must answer each candidate. */
  function RunRound(p: Problem, accept: Outcome -> bool, box: Box, rng: int): (r: Result<Round, Error>)
    requires Validate(p.s).None? && BoxFits(p.s.space, box)
    ensures r.Ok? ==> BoxFits(p.s.space, r.value.next)
  {
    var cells := Candidates(p.s, box);
    var metrics := p.evaluate(cells);
    if |metrics| != |cells| then Err(LengthMismatch)
    else
      ValidNumbers(p.s);
      TopParamsComplete(p, box, rng, cells, metrics, accept);
      var trials := TrialsOf(p, cells, metrics, accept);
      Ok(Round(box, rng, trials, ShrunkBox(p.s, box, TopParams(p.s, p.rng, rng, trials))))
  }

  // ----- the closed loop

  function Prepend(first: Round, rest: Result<seq<Round>, Error>): Result<seq<Round>, Error> {
    match rest
    case Err(e) => Err(e)
    case Ok(rounds) => Ok([first] + rounds)
  }

  /** The rounds that `search` runs from `box` when `left` remain. */
  function SearchRounds(p: Problem, accept: Outcome -> bool, box: Box, rng: int, left: nat): Result<seq<Round>, Error>
    requires Validate(p.s).None? && BoxFits(p.s.space, box)
    decreases left
  {
    if left == 0 then Ok([])
    else
      match RunRound(p, accept, box, rng)
      case Err(e) => Err(e)
      case Ok(round) =>
        if AllConverged(p.s.space, round.next, p.s.epsilon) then Ok([round])
        else Prepend(round, SearchRounds(p, accept, round.next, p.rng.next(rng, |round.trials|), left - 1))
  }

  function TrialLists(rounds: seq<Round>): seq<seq<Trial>> {
    seq(|rounds|, i requires 0 <= i < |rounds| => rounds[i].trials)
  }

  function AllTrials(rounds: seq<Round>): seq<Trial> {
    Concat(TrialLists(rounds))
  }

  predicate GateAccepts(oosMinScore: Option<real>, o: Outcome) {
    o.accepted && (oosMinScore.None? || o.score >= oosMinScore.value)
  }

  function AcceptBy(oosMinScore: Option<real>): Outcome -> bool {
    o => GateAccepts(oosMinScore, o)
  }

  function Rejected(trials: seq<Trial>): nat {
    if trials == [] then 0
    else Rejected(trials[..|trials| - 1]) + (if trials[|trials| - 1].accepted then 0 else 1)
  }

  /** The first accepted trial of the highest score. */
  ghost predicate IsBest(trials: seq<Trial>, best: Option<Trial>) {
    && (best.None? ==> forall t :: t in trials ==> !t.accepted)
    && (best.Some? ==> exists i :: 0 <= i < |trials| && IsFirstBest(trials, i, best.value))
  }

  ghost predicate IsFirstBest(trials: seq<Trial>, i: nat, best: Trial) {
    && i < |trials| && trials[i] == best && best.accepted
    && (forall j :: 0 <= j < |trials| && trials[j].accepted ==> trials[j].outcome.score <= best.outcome.score)
    && (forall j :: 0 <= j < i && trials[j].accepted ==> trials[j].outcome.score < best.outcome.score)
  }

  datatype OptimizerResult = OptimizerResult(trials: seq<Trial>, best: Option<Trial>, rejected: nat)

  /** `max(..., key=score, default=None)` over the accepted trials. */
  method BestAccepted(trials: seq<Trial>) returns (best: Option<Trial>)
    ensures IsBest(trials, best)
  {
    best := None;
    for i := 0 to |trials|
      invariant IsBest(trials[..i], best)
    {
      var t := trials[i];
      assert trials[..i + 1] == trials[..i] + [t];
      if t.accepted && (best.None? || t.outcome.score > best.value.outcome.score) {
        best := Some(t);
        assert IsFirstBest(trials[..i + 1], i, t);
      } else if best.Some? {
        ghost var j :| 0 <= j < i && IsFirstBest(trials[..i], j, best.value);
        assert IsFirstBest(trials[..i + 1], j, best.value);
      }
    }
    assert trials[..|trials|] == trials;
  }

  /** The trials of one round, and how many of them were not accepted. */
  method ScoreRound(p: Problem, oosMinScore: Option<real>, cells: seq<ParamSet>, metrics: seq<Metrics>)
    returns (trials: seq<Trial>, rejected: nat)
    requires |cells| == |metrics|
    ensures trials == TrialsOf(p, cells, metrics, AcceptBy(oosMinScore))
    ensures rejected == Rejected(trials)
  {
    trials, rejected := [], 0;
    for i := 0 to |cells|
      invariant |trials| == i && rejected == Rejected(trials)
      invariant forall j :: 0 <= j < i ==> trials[j] == TrialsOf(p, cells, metrics, AcceptBy(oosMinScore))[j]
    {
      var outcome := p.score(metrics[i]);
      var accepted := GateAccepts(oosMinScore, outcome);
      if !accepted {
        rejected := rejected + 1;
      }
      var trial := Trial(cells[i], metrics[i], outcome, accepted);
      assert (trials + [trial])[..i] == trials;
      trials := trials + [trial];
    }
  }

  /** One pass of the loop body: the round, and the rejections in it. */
  method PlayRound(p: Problem, oosMinScore: Option<real>, box: Box, rng: int)
    returns (r: Result<Round, Error>, rejected: nat)
    requires Validate(p.s).None? && BoxFits(p.s.space, box)
    ensures r == RunRound(p, AcceptBy(oosMinScore), box, rng)
    ensures r.Ok? ==> rejected == Rejected(r.value.trials)
  {
    rejected := 0;
    var cells := Candidates(p.s, box);
    var metrics := p.evaluate(cells);
    if |metrics| != |cells| {
      return Err(LengthMismatch), 0;
    }
    ValidNumbers(p.s);
    TopParamsComplete(p, box, rng, cells, metrics, AcceptBy(oosMinScore));
    hide Candidates, TrialsOf, TopParams, ShrunkBox, Validate, BoxFits, Rejected, AcceptBy;
    var trials;
    trials, rejected := ScoreRound(p, oosMinScore, cells, metrics);
    var newBox := ShrinkBox(p.s, box, TopParams(p.s, p.rng, rng, trials));
    r := Ok(Round(box, rng, trials, newBox));
  }

  /** The rounds of a whole search. */
  function FullSearch(p: Problem, accept: Outcome -> bool): Result<seq<Round>, Error>
    requires Validate(p.s).None?
  {
    SearchRounds(p, accept, InitialBox(p.s.space), p.rng.seed(p.s.seed), p.s.depth)
  }

  /** `done`, followed by the trials of the rounds to come. */
  function Followed(done: seq<Trial>, rest: Result<seq<Round>, Error>): Result<seq<Trial>, Error> {
    match rest
    case Err(e) => Err(e)
    case Ok(rounds) => Ok(done + AllTrials(rounds))
  }

  method SearchLoop(p: Problem, oosMinScore: Option<real>) returns (r: Result<seq<Trial>, Error>, rejected: nat)
    requires Validate(p.s).None?
    ensures r == Followed([], FullSearch(p, AcceptBy(oosMinScore)))
    ensures r.Ok? ==> rejected == Rejected(r.value)
  {
    hide AllConverged, RunRound, AcceptBy, SearchRounds, Validate, Followed, BoxFits, Rejected;
    ValidNumbers(p.s);
    var rng, box := p.rng.seed(p.s.seed), InitialBox(p.s.space);
    var trials: seq<Trial> := [];
    rejected := 0;
    var left := p.s.depth;
    NoneRejected(trials);
    while left > 0
      invariant 0 <= left && BoxFits(p.s.space, box)
      invariant rejected == Rejected(trials)
      invariant Followed([], FullSearch(p, AcceptBy(oosMinScore))) ==
                Followed(trials, SearchRounds(p, AcceptBy(oosMinScore), box, rng, left))
    {
      SearchStep(p, AcceptBy(oosMinScore), box, rng, left, trials);
      var result, roundRejected := PlayRound(p, oosMinScore, box, rng);
      if result.Err? {
        return Err(result.error), rejected;
      }
      var round := result.value;
      RejectedConcat(trials, round.trials);
      trials, rejected := trials + round.trials, rejected + roundRejected;
      rng := p.rng.next(rng, |round.trials|);
      if AllConverged(p.s.space, round.next, p.s.epsilon) {
        return Ok(trials), rejected;
      }
      box, left := round.next, left - 1;
    }
    SearchEnd(p, AcceptBy(oosMinScore), box, rng, trials);
    r := Ok(trials);
  }

  method Search(p: Problem, oosMinScore: Option<real>) returns (r: Result<OptimizerResult, Error>)
    ensures Validate(p.s).Some? ==> r == Err(Validate(p.s).value)
    ensures Validate(p.s).None? && FullSearch(p, AcceptBy(oosMinScore)).Err? ==>
      r == Err(FullSearch(p, AcceptBy(oosMinScore)).error)
    ensures Validate(p.s).None? && FullSearch(p, AcceptBy(oosMinScore)).Ok? ==>
      && r.Ok? && r.value.trials == AllTrials(FullSearch(p, AcceptBy(oosMinScore)).value)
      && r.value.rejected == Rejected(r.value.trials) && IsBest(r.value.trials, r.value.best)
  {
    hide FullSearch, AllTrials, Rejected, IsBest, AcceptBy;
    if Validate(p.s).Some? {
      return Err(Validate(p.s).value);
    }
    var trials, rejected := SearchLoop(p, oosMinScore);
    if trials.Err? {
      return Err(trials.error);
    }
    var best := BestAccepted(trials.value);
    r := Ok(OptimizerResult(trials.value, best, rejected));
  }

  /** One step of `SearchRounds`, after the trials already run. */
  lemma SearchStep(p: Problem, accept: Outcome -> bool, box: Box, rng: int, left: nat, done: seq<Trial>)
    requires Validate(p.s).None? && BoxFits(p.s.space, box) && left > 0
    ensures var result := RunRound(p, accept, box, rng);
            var total := Followed(done, SearchRounds(p, accept, box, rng, left));
            && (result.Err? ==> total == Err(result.error))
            && (result.Ok? ==>
                  var round, trials := result.value, done + result.value.trials;
                  total == if AllConverged(p.s.space, round.next, p.s.epsilon) then Ok(trials)
                           else
                             var after := p.rng.next(rng, |round.trials|);
                             Followed(trials, SearchRounds(p, accept, round.next, after, left - 1)))
  {
    hide RunRound, AllConverged, BoxFits;
    var result := RunRound(p, accept, box, rng);
    if result.Ok? {
      var round := result.value;
      var rest := SearchRounds(p, accept, round.next, p.rng.next(rng, |round.trials|), left - 1);
      AllTrialsCons(done, round, if rest.Ok? then rest.value else []);
      AllTrialsCons(done, round, []);
    }
  }

  lemma AllTrialsCons(done: seq<Trial>, first: Round, rest: seq<Round>)
    ensures done + AllTrials([first] + rest) == done + first.trials + AllTrials(rest)
    ensures rest == [] ==> AllTrials([first]) == first.trials
  {
    assert TrialLists([first] + rest) == [first.trials] + TrialLists(rest);
    assert rest == [] ==> [first] + rest == [first];
  }

  lemma SearchEnd(p: Problem, accept: Outcome -> bool, box: Box, rng: int, done: seq<Trial>)
    requires Validate(p.s).None? && BoxFits(p.s.space, box)
    ensures Followed(done, SearchRounds(p, accept, box, rng, 0)) == Ok(done)
  {
    assert done + [] == done;
  }

  lemma NoneRejected(trials: seq<Trial>)
    requires trials == []
    ensures Rejected(trials) == 0
  {}

  lemma {:induction false} RejectedConcat(xs: seq<Trial>, ys: seq<Trial>)
    ensures Rejected(xs + ys) == Rejected(xs) + Rejected(ys)
  {
    if ys == [] {
      assert xs + ys == xs;
    } else {
      var n := |ys| - 1;
      assert (xs + ys)[..|xs + ys| - 1] == xs + ys[..n];
      RejectedConcat(xs, ys[..n]);
    }
  }
}
