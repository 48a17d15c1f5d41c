/**
  `RecursiveGridDriver` (optimizer.py): the recursive grid one observed round at a time, and the
  proof that driving it by its documented loop replays `RecursiveGridSearcher.search`.
*/
module GridDriver {
  import opened Basics
  import opened RecursiveGrid
  import opened GridSearch
  import opened StableSort

  datatype DriverState = DriverState(box: Box, rng: int, roundIndex: nat, done: bool)

  function Start(s: Searcher, rng: Shuffler, salt: int): DriverState {
    DriverState(InitialBox(s.space), rng.seed(s.seed + salt), 0, false)
  }

  predicate CompleteTrials(space: seq<Dim>, trials: seq<Trial>) {
    forall i :: 0 <= i < |trials| ==> |trials[i].params| == |space|
  }

  lemma TopOfComplete(s: Searcher, rng: Shuffler, st: int, trials: seq<Trial>)
    requires s.topK >= 0 && CompleteTrials(s.space, trials)
    ensures Complete(s.space, TopParams(s, rng, st, trials))
  {
    SelectTopMembers(s, rng, st, trials);
    var top := SelectTop(s, rng, st, trials);
    forall i | 0 <= i < |top| ensures |top[i].params| == |s.space| {
      assert top[i] in trials;
    }
  }

  /** The state after a round's trials have been observed. */
  function Observed(s: Searcher, rng: Shuffler, d: DriverState, trials: seq<Trial>): (r: DriverState)
    requires Validate(s).None? && BoxFits(s.space, d.box) && CompleteTrials(s.space, trials)
    ensures BoxFits(s.space, r.box)
  {
    if d.done then d
    else if trials == [] then d.(done := true)
    else
      ValidNumbers(s);
      TopOfComplete(s, rng, d.rng, trials);
      var newBox := ShrunkBox(s, d.box, TopParams(s, rng, d.rng, trials));
      var index := d.roundIndex + 1;
      DriverState(newBox, rng.next(d.rng, |trials|), index,
                  index >= s.depth || AllConverged(s.space, newBox, s.epsilon))
  }

  class RecursiveGridDriver {
    const s: Searcher
    const random: Shuffler
    var box: Box
    var rng: int
    var roundIndex: nat
    var done: bool

    ghost predicate Valid()
      reads this
    {
      Validate(s).None? && BoxFits(s.space, box)
    }

    function State(): DriverState
      reads this
    {
      DriverState(box, rng, roundIndex, done)
    }

    /** For a searcher that `_validate` lets through. */
    constructor (searcher: Searcher, random: Shuffler, salt: int)
      requires Validate(searcher).None?
      ensures Valid() && s == searcher && this.random == random
      ensures State() == Start(searcher, random, salt)
      ensures rng == random.seed(searcher.seed + salt) && roundIndex == 0 && !done
    {
      s, this.random := searcher, random;
      box, rng := InitialBox(searcher.space), random.seed(searcher.seed + salt);
      roundIndex, done := 0, false;
    }

    static method Create(searcher: Searcher, random: Shuffler, salt: int)
      returns (r: Result<RecursiveGridDriver, Error>)
      ensures Validate(searcher).Some? ==> r == Err(Validate(searcher).value)
      ensures Validate(searcher).None? ==> r.Ok? && fresh(r.value) && r.value.Valid()
      ensures Validate(searcher).None? ==> r.value.s == searcher && r.value.random == random
      ensures Validate(searcher).None? ==> r.value.State() == Start(searcher, random, salt)
    {
      if Validate(searcher).Some? {
        return Err(Validate(searcher).value);
      }
      var driver := new RecursiveGridDriver(searcher, random, salt);
      r := Ok(driver);
    }

    method NextCandidates() returns (cells: seq<ParamSet>)
      requires Valid()
      ensures cells == if done then [] else Candidates(s, box)
    {
      if done {
        return [];
      }
      cells := Candidates(s, box);
    }

    method Observe(trials: seq<Trial>)
      requires Valid() && CompleteTrials(s.space, trials)
      modifies this
      ensures Valid() && State() == Observed(s, random, old(State()), trials)
    {
      if done {
        return;
      }
      if trials == [] {
        done := true;
        return;
      }
      ValidNumbers(s);
      TopOfComplete(s, random, rng, trials);
      var newBox := ShrinkBox(s, box, TopParams(s, random, rng, trials));
      rng := random.next(rng, |trials|);
      roundIndex := roundIndex + 1;
      if roundIndex >= s.depth || AllConverged(s.space, newBox, s.epsilon) {
        done := true;
      }
      box := newBox;
    }
  }

  // ----- the documented loop

  /** A driver's caller marks every trial accepted. */
  const ALWAYS: Outcome -> bool := (o: Outcome) => true

  lemma CandidatesComplete(p: Problem, box: Box, metrics: seq<Metrics>, accept: Outcome -> bool)
    requires Validate(p.s).None? && BoxFits(p.s.space, box) && |metrics| == |Candidates(p.s, box)|
    ensures CompleteTrials(p.s.space, TrialsOf(p, Candidates(p.s, box), metrics, accept))
  {
    var cells := Candidates(p.s, box);
    forall i | 0 <= i < |cells| ensures |cells[i]| == |p.s.space| {
      CandidateEntries(p.s, box, cells[i], 0);
    }
  }

  /** The trials of each round, from driver state `d` on. */
  function DriveRounds(p: Problem, d: DriverState): Result<seq<seq<Trial>>, Error>
    requires Validate(p.s).None? && BoxFits(p.s.space, d.box)
    decreases if d.done then 0 else 1 + Max(0, p.s.depth - d.roundIndex)
  {
    if d.done then Ok([])
    else
      var cells := Candidates(p.s, d.box);
      var metrics := p.evaluate(cells);
      if |metrics| != |cells| then Err(LengthMismatch)
      else
        CandidatesComplete(p, d.box, metrics, ALWAYS);
        var trials := TrialsOf(p, cells, metrics, ALWAYS);
        match DriveRounds(p, Observed(p.s, p.rng, d, trials))
        case Err(e) => Err(e)
        case Ok(rest) => Ok([trials] + rest)
  }

  /** `done`, followed by the rounds to come. */
  function After(done: seq<seq<Trial>>, rest: Result<seq<seq<Trial>>, Error>): Result<seq<seq<Trial>>, Error> {
    match rest
    case Err(e) => Err(e)
    case Ok(rounds) => Ok(done + rounds)
  }

  lemma DriveStep(p: Problem, d: DriverState, done: seq<seq<Trial>>)
    requires Validate(p.s).None? && BoxFits(p.s.space, d.box)
    ensures d.done ==> After(done, DriveRounds(p, d)) == Ok(done)
    ensures !d.done ==>
      var cells := Candidates(p.s, d.box);
      var metrics := p.evaluate(cells);
      if |metrics| != |cells| then After(done, DriveRounds(p, d)) == Err(LengthMismatch)
      else
        var trials := TrialsOf(p, cells, metrics, ALWAYS);
        && CompleteTrials(p.s.space, trials)
        && After(done, DriveRounds(p, d)) == After(done + [trials], DriveRounds(p, Observed(p.s, p.rng, d, trials)))
  {
    hide Candidates, Observed, TrialsOf, Validate;
    if d.done {
      assert done + [] == done;
    } else {
      var metrics := p.evaluate(Candidates(p.s, d.box));
      if |metrics| == |Candidates(p.s, d.box)| {
        CandidatesComplete(p, d.box, metrics, ALWAYS);
        var trials := TrialsOf(p, Candidates(p.s, d.box), metrics, ALWAYS);
        var rest := DriveRounds(p, Observed(p.s, p.rng, d, trials));
        assert rest.Ok? ==> done + ([trials] + rest.value) == done + [trials] + rest.value;
      }
    }
  }

  method Drive(p: Problem, driver: RecursiveGridDriver) returns (r: Result<seq<seq<Trial>>, Error>)
    requires driver.Valid() && driver.s == p.s && driver.random == p.rng
    modifies driver
    ensures r == After([], DriveRounds(p, old(driver.State())))
  {
    hide Candidates, Observed, TrialsOf, Validate, DriveRounds, After, BoxFits;
    var rounds: seq<seq<Trial>> := [];
    while !driver.done
      invariant driver.Valid()
      invariant After([], DriveRounds(p, old(driver.State()))) == After(rounds, DriveRounds(p, driver.State()))
      decreases !driver.done, p.s.depth - driver.roundIndex
    {
      DriveStep(p, driver.State(), rounds);
      var cells := driver.NextCandidates();
      var metrics := p.evaluate(cells);
      if |metrics| != |cells| {
        return Err(LengthMismatch);
      }
      var trials := TrialsOf(p, cells, metrics, ALWAYS);
      ObserveProgress(p.s, p.rng, driver.State(), trials);
      driver.Observe(trials);
      rounds := rounds + [trials];
    }
    DriveStep(p, driver.State(), rounds);
    r := Ok(rounds);
  }

  lemma ObserveProgress(s: Searcher, rng: Shuffler, d: DriverState, trials: seq<Trial>)
    requires Validate(s).None? && BoxFits(s.space, d.box) && CompleteTrials(s.space, trials) && !d.done
    ensures var r := Observed(s, rng, d, trials);
            r.done || d.roundIndex < r.roundIndex <= s.depth
  {}

  // ----- the driver refines the loop

  /** The accepted flag is the only thing in which the two forms' trials differ. */
  function Flagged(t: Trial): Trial {
    t.(accepted := true)
  }

  function FlagAll(trials: seq<Trial>): seq<Trial> {
    seq(|trials|, i requires 0 <= i < |trials| => Flagged(trials[i]))
  }

  function FlagRounds(rounds: seq<seq<Trial>>): seq<seq<Trial>> {
    seq(|rounds|, i requires 0 <= i < |rounds| => FlagAll(rounds[i]))
  }

  lemma {:induction false} InsertFlagged(t: Trial, trials: seq<Trial>)
    ensures Insert(TRIAL_SCORE, Flagged(t), FlagAll(trials)) == FlagAll(Insert(TRIAL_SCORE, t, trials))
  {
    if trials != [] && TRIAL_SCORE(trials[0]) > TRIAL_SCORE(t) {
      InsertFlagged(t, trials[1..]);
      assert FlagAll(trials)[1..] == FlagAll(trials[1..]);
    }
  }

  lemma {:induction false} SortFlagged(trials: seq<Trial>)
    ensures Sort(TRIAL_SCORE, FlagAll(trials)) == FlagAll(Sort(TRIAL_SCORE, trials))
  {
    if trials != [] {
      SortFlagged(trials[1..]);
      assert FlagAll(trials)[1..] == FlagAll(trials[1..]);
      InsertFlagged(trials[0], Sort(TRIAL_SCORE, trials[1..]));
    }
  }

  /** Hence the same candidates lead a round, with or without the flags. */
  lemma TopIgnoresFlags(s: Searcher, rng: Shuffler, st: int, trials: seq<Trial>)
    requires s.topK >= 0
    ensures TopParams(s, rng, st, FlagAll(trials)) == TopParams(s, rng, st, trials)
  {
    var order := Order(rng, st, |trials|);
    var mixed := Reordered(trials, order);
    assert Reordered(FlagAll(trials), order) == FlagAll(mixed);
    SortFlagged(mixed);
    SortKeepsMembers(TRIAL_SCORE, mixed);
  }

  /** What driving must yield, said in terms of the closed loop. */
  function Replayed(searched: Result<seq<Round>, Error>): Result<seq<seq<Trial>>, Error> {
    match searched
    case Err(e) => Err(e)
    case Ok(rounds) => Ok(FlagRounds(TrialLists(rounds)))
  }

  predicate NoEmptyChoice(space: seq<Dim>) {
    forall i :: 0 <= i < |space| && space[i].param.Choice? ==> space[i].param.choices != []
  }

  /** Choice cells never narrow. */
  predicate ChoicesKept(space: seq<Dim>, box: Box)
    requires BoxFits(space, box)
  {
    forall i :: 0 <= i < |space| && space[i].param.Choice? ==> box[i] == Options(space[i].param.choices)
  }

  lemma {:induction false} ProductNonEmpty(points: seq<seq<Value>>)
    ensures Product(points) != [] <==> forall i :: 0 <= i < |points| ==> points[i] != []
  {
    if points != [] {
      ProductNonEmpty(points[1..]);
      var tails := Product(points[1..]);
      if points[0] != [] && tails != [] {
        PrefixedMembers(points[0], tails, [points[0][0]] + tails[0]);
      }
      if Product(points) != [] {
        PrefixedMembers(points[0], tails, Product(points)[0]);
      }
      assert forall i :: 1 <= i < |points| ==> points[i] == points[1..][i - 1];
    }
  }

  lemma DistinctNonEmpty(s: seq<int>)
    requires s != []
    ensures Distinct(s) != []
  {}

  /** The grid is empty exactly when some choice parameter has nothing to choose from. */
  lemma GridNonEmpty(s: Searcher, box: Box)
    requires Validate(s).None? && BoxFits(s.space, box) && ChoicesKept(s.space, box)
    ensures Candidates(s, box) != [] <==> NoEmptyChoice(s.space)
  {
    var points := PointsPerDim(s, box);
    ProductNonEmpty(points);
    forall i | 0 <= i < |s.space|
      ensures points[i] == [] <==> s.space[i].param.Choice? && s.space[i].param.choices == []
    {
      ValidResolution(s, s.space[i].name);
      if box[i].Range? {
        DistinctNonEmpty(RoundedPoints(box[i].lo, box[i].hi, ResolutionFor(s, s.space[i].name)));
      }
    }
  }

  lemma ShrinkKeepsChoices(s: Searcher, box: Box, top: seq<ParamSet>)
    requires Validate(s).None? && BoxFits(s.space, box) && Complete(s.space, top) && ChoicesKept(s.space, box)
    ensures ChoicesKept(s.space, ShrunkBox(s, box, top))
  {}

  /** Round by round: same boxes, same generator states, same trials, same stopping round. */
  lemma {:induction false} DriverReplaysSearch(p: Problem, accept: Outcome -> bool, box: Box, rng: int, index: nat)
    requires Validate(p.s).None? && BoxFits(p.s.space, box) && ChoicesKept(p.s.space, box) && NoEmptyChoice(p.s.space)
    requires index < p.s.depth
    ensures DriveRounds(p, DriverState(box, rng, index, false))
            == Replayed(SearchRounds(p, accept, box, rng, p.s.depth - index))
    decreases p.s.depth - index
  {
    hide Validate, Candidates, NoEmptyChoice, ChoicesKept, AllConverged, ShrunkBox, TopParams, BoxFits;
    ValidNumbers(p.s);
    var d := DriverState(box, rng, index, false);
    var cells := Candidates(p.s, box);
    var metrics := p.evaluate(cells);
    if |metrics| == |cells| {
      GridNonEmpty(p.s, box);
      CandidatesComplete(p, box, metrics, ALWAYS);
      TopParamsComplete(p, box, rng, cells, metrics, accept);
      var trials, driven := TrialsOf(p, cells, metrics, accept), TrialsOf(p, cells, metrics, ALWAYS);
      assert driven == FlagAll(trials);
      TopIgnoresFlags(p.s, p.rng, rng, trials);
      var newBox := ShrunkBox(p.s, box, TopParams(p.s, p.rng, rng, trials));
      var round := Round(box, rng, trials, newBox);
      assert RunRound(p, accept, box, rng) == Ok(round);
      ShrinkKeepsChoices(p.s, box, TopParams(p.s, p.rng, rng, trials));
      var next := p.rng.next(rng, |trials|);
      var stop := index + 1 >= p.s.depth || AllConverged(p.s.space, newBox, p.s.epsilon);
      assert Observed(p.s, p.rng, d, driven) == DriverState(newBox, next, index + 1, stop);
      if !stop {
        DriverReplaysSearch(p, accept, newBox, next, index + 1);
        ReplayCons(round, SearchRounds(p, accept, newBox, next, p.s.depth - index - 1));
      } else {
        ReplayCons(round, Ok([]));
        assert [driven] + [] == [driven];
        assert FlagRounds(TrialLists([])) == [];
      }
    }
  }

  lemma ReplayCons(round: Round, rest: Result<seq<Round>, Error>)
    ensures Replayed(Prepend(round, rest)) ==
            match Replayed(rest)
            case Err(e) => Err(e)
            case Ok(lists) => Ok([FlagAll(round.trials)] + lists)
    ensures rest == Ok([]) ==> Prepend(round, rest) == Ok([round])
  {
    if rest.Ok? {
      assert FlagRounds(TrialLists([round] + rest.value))
          == [FlagAll(round.trials)] + FlagRounds(TrialLists(rest.value));
      assert rest.value == [] ==> [round] + rest.value == [round];
    }
  }

  /** With an empty choice the grid is empty for ever: the loop spins through rounds without trials. */
  lemma {:induction false} EmptyGridSearch(p: Problem, accept: Outcome -> bool, box: Box, rng: int, left: nat)
    requires Validate(p.s).None? && BoxFits(p.s.space, box) && ChoicesKept(p.s.space, box) && !NoEmptyChoice(p.s.space)
    ensures Followed([], SearchRounds(p, accept, box, rng, left)) ==
            if p.evaluate([]) == [] || left == 0 then Ok([]) else Err(LengthMismatch)
    decreases left
  {
    hide Validate, ChoicesKept, NoEmptyChoice, BoxFits, Followed, SearchRounds, AllConverged;
    if left == 0 {
      SearchEnd(p, accept, box, rng, []);
    } else {
      GridNonEmpty(p.s, box);
      SearchStep(p, accept, box, rng, left, []);
      EmptyRound(p, accept, box, rng);
      if p.evaluate([]) == [] {
        var round := RunRound(p, accept, box, rng).value;
        assert [] + round.trials == [];
        EmptyGridSearch(p, accept, round.next, p.rng.next(rng, 0), left - 1);
      }
    }
  }

  lemma EmptyRound(p: Problem, accept: Outcome -> bool, box: Box, rng: int)
    requires Validate(p.s).None? && BoxFits(p.s.space, box) && ChoicesKept(p.s.space, box) && Candidates(p.s, box) == []
    ensures p.evaluate([]) != [] ==> RunRound(p, accept, box, rng) == Err(LengthMismatch)
    ensures p.evaluate([]) == [] ==>
      var r := RunRound(p, accept, box, rng);
      r.Ok? && r.value.trials == [] && BoxFits(p.s.space, r.value.next) && ChoicesKept(p.s.space, r.value.next)
  {
    hide Validate, Candidates, BoxFits, ChoicesKept, TopParams, ShrunkBox;
    if p.evaluate([]) == [] {
      ValidNumbers(p.s);
      TopParamsComplete(p, box, rng, [], [], accept);
      assert TrialsOf(p, [], [], accept) == [];
      ShrinkKeepsChoices(p.s, box, TopParams(p.s, p.rng, rng, []));
    }
  }

  function Flattened(driven: Result<seq<seq<Trial>>, Error>): Result<seq<Trial>, Error> {
    match driven
    case Err(e) => Err(e)
    case Ok(rounds) => Ok(Concat(rounds))
  }

  lemma InitialChoices(space: seq<Dim>)
    ensures ChoicesKept(space, InitialBox(space))
  {}

  /** The whole run, for every valid searcher: a driver with salt 0 sees exactly the trials of `search`, round by
      round; only a grid that is empty makes the loop run more (and then trial-less) rounds than the driver. */
  lemma DriverRefinesSearch(p: Problem, accept: Outcome -> bool)
    requires Validate(p.s).None?
    ensures NoEmptyChoice(p.s.space) ==> DriveRounds(p, Start(p.s, p.rng, 0)) == Replayed(FullSearch(p, accept))
    ensures Flattened(DriveRounds(p, Start(p.s, p.rng, 0))) == Flattened(Replayed(FullSearch(p, accept)))
  {
    hide Validate, ChoicesKept, NoEmptyChoice, SearchRounds, DriveRounds, Candidates, Flattened, FlagRounds, AllTrials;
    ValidNumbers(p.s);
    InitialChoices(p.s.space);
    var box, rng := InitialBox(p.s.space), p.rng.seed(p.s.seed);
    if NoEmptyChoice(p.s.space) {
      DriverReplaysSearch(p, accept, box, rng, 0);
    } else {
      EmptyGridSearch(p, accept, box, rng, p.s.depth);
      GridNonEmpty(p.s, box);
      EmptyDrive(p, Start(p.s, p.rng, 0));
      FlattenNothing(FullSearch(p, accept));
    }
  }

  lemma FlattenNothing(searched: Result<seq<Round>, Error>)
    ensures Followed([], searched) == Ok([]) ==> Flattened(Replayed(searched)) == Ok([])
    ensures searched.Err? ==> Flattened(Replayed(searched)) == Followed([], searched)
  {
    if Followed([], searched) == Ok([]) {
      assert [] + AllTrials(searched.value) == AllTrials(searched.value);
      FlagNothing(TrialLists(searched.value));
    }
  }

  lemma EmptyDrive(p: Problem, d: DriverState)
    requires Validate(p.s).None? && BoxFits(p.s.space, d.box) && !d.done && Candidates(p.s, d.box) == []
    ensures Flattened(DriveRounds(p, d)) == if p.evaluate([]) == [] then Ok([]) else Err(LengthMismatch)
  {
    if p.evaluate([]) == [] {
      var trials := TrialsOf(p, [], [], ALWAYS);
      assert trials == [];
      assert DriveRounds(p, Observed(p.s, p.rng, d, trials)) == Ok([]);
      assert [trials] + [] == [trials];
      assert Concat([trials]) == trials + Concat([trials][1..]);
    }
  }

  lemma {:induction false} FlagNothing(rounds: seq<seq<Trial>>)
    requires Concat(rounds) == []
    ensures Concat(FlagRounds(rounds)) == []
  {
    if rounds != [] {
      assert FlagRounds(rounds)[1..] == FlagRounds(rounds[1..]);
      FlagNothing(rounds[1..]);
    }
  }
}
