/**
  The hypothesis workflow (workflow.py): the node functions, the graph's inner cycle, and what holds
  in every state reached after `rank`. Model replies, validators, builds, backtests and critics are
  arbitrary functions of the iteration number.
*/
module Workflow {
  import opened Basics
  import opened RejectTaxonomy
  import opened Ranking
  import opened StableSort
  import opened Repair
  import Gate = MechanicalGate
  import MiniSweep = MiniOptimize
  import Numbers

  datatype Idea = Idea(name: string, lift: real)
  datatype Commitments = Commitments(added: seq<string>, kept: seq<string>, removed: seq<string>)
  datatype Build = Build(files: seq<string>, library: Option<string>)

  /** Per-fold scores; the mini-optimizer refuses to run without folds. */
  type FoldScores = s: seq<real> | s != [] witness [0.0]

  datatype AttemptResult = AttemptResult(perFoldBest: FoldScores, baseline: FoldScores)
  datatype Verdict = Verdict(accept: bool, rationale: string)

  datatype Config = Config(
    iterationBudget: int, targetCandidates: int, maxBacktests: Option<int>, kRepair: nat, folds: nat, cites: nat)

  /** `mini_optimize_trials` is absent from the configuration, so its default applies. */
  const TRIALS := 64

  datatype Clients = Clients(
    sqrt: real -> real,
    idea: nat -> Stage<Idea>,
    commitments: (nat, Idea) -> Stage<Commitments>,
    build: (nat, Commitments) -> Stage<Build>,
    cheapCritique: (nat, Idea) -> Verdict,
    miniOptimize: (nat, Commitments, Option<string>) -> Option<AttemptResult>,
    verdict: (nat, AttemptResult, Gate.Outcome) -> Verdict)

  /** Validators never fail with kind "ok". */
  ghost predicate Honest(c: Clients) {
    && (forall i :: HonestStage(c.idea(i)))
    && (forall i, x :: HonestStage(c.commitments(i, x)))
    && (forall i, x :: HonestStage(c.build(i, x)))
  }

  /** The slots of the candidate in flight. */
  datatype Flight = Flight(
    idea: Option<Idea>, commitments: Option<Commitments>, build: Option<Build>,
    attempt: Option<AttemptResult>, gate: Option<Gate.Outcome>, verdict: Option<Verdict>,
    reject: Option<RejectKind>, rationale: string)

  const EMPTY_FLIGHT := Flight(None, None, None, None, None, None, None, "")

  datatype Accepted = Accepted(candidate: Candidate, rationale: string, attempt: Option<AttemptResult>,
                               gate: Option<Gate.Outcome>)
  datatype Rejected = Rejected(candidate: Candidate, reason: string, kind: Option<RejectKind>)

  /** What an observer counts beside the state: stage emissions, completed mini-optimizes, and acceptances
      in the order they were made. */
  datatype Trace = Trace(emissions: nat, completed: nat, submitted: seq<Accepted>)

  datatype State = State(
    accepted: seq<Accepted>, rejected: seq<Rejected>, history: seq<Candidate>,
    iteration: nat, backtests: int, flight: Flight, trace: Trace)

  const INITIAL := State([], [], [], 0, 0, EMPTY_FLIGHT, Trace(0, 0, []))

  const SCORE: Accepted -> real := (a: Accepted) => RankScore(DEFAULT_WEIGHTS, a.candidate)

  // ----- nodes

  function Emitted(s: State, n: nat): State {
    s.(trace := s.trace.(emissions := s.trace.emissions + n))
  }

  function Reject(s: State, kind: RejectKind, rationale: string): State {
    s.(flight := s.flight.(reject := Some(kind), rationale := rationale))
  }

  function GenerateStage1(c: Clients, cfg: Config, s: State): State {
    match EmitWithRepair(c.idea(s.iteration), cfg.kRepair)
    case Parsed(idea, n) => Emitted(s, n).(flight := s.flight.(idea := Some(idea), reject := None))
    case GaveUp(kind, feedback, n) => Reject(Emitted(s, n), kind, feedback)
  }

  function CheapCritique(c: Clients, s: State): State
    requires s.flight.reject.None? ==> s.flight.idea.Some?
  {
    if s.flight.reject.Some? then s
    else
      var outcome := c.cheapCritique(s.iteration, s.flight.idea.value);
      if outcome.accept then s else Reject(s, RejectVerdict, outcome.rationale)
  }

  function GenerateStage2(c: Clients, cfg: Config, s: State): State
    requires s.flight.reject.None? ==> s.flight.idea.Some?
  {
    if s.flight.reject.Some? then s
    else
      match EmitWithRepair(c.commitments(s.iteration, s.flight.idea.value), cfg.kRepair)
      case Parsed(x, n) => Emitted(s, n).(flight := s.flight.(commitments := Some(x)))
      case GaveUp(kind, feedback, n) => Reject(Emitted(s, n), kind, feedback)
  }

  function GenerateStage3(c: Clients, cfg: Config, s: State): State
    requires s.flight.reject.None? ==> s.flight.commitments.Some?
  {
    if s.flight.reject.Some? then s
    else
      match EmitWithRepair(c.build(s.iteration, s.flight.commitments.value), cfg.kRepair)
      case Parsed(x, n) => Emitted(s, n).(flight := s.flight.(build := Some(x)))
      case GaveUp(kind, feedback, n) => Reject(Emitted(s, n), kind, feedback)
  }

  function MiniOptimize(c: Clients, cfg: Config, s: State): State
    requires s.flight.reject.None? ==> s.flight.commitments.Some? && s.flight.build.Some?
  {
    if s.flight.reject.Some? then s
    else
      var cost := TRIALS * cfg.folds;
      if cfg.maxBacktests.Some? && s.backtests + cost > cfg.maxBacktests.value then
        Reject(s, RejectNoise, "mini-optimize would exceed the backtest budget")
      else
        match c.miniOptimize(s.iteration, s.flight.commitments.value, s.flight.build.value.library)
        case None => Reject(s, RejectSchema, "mini-optimize search-space construction failed")
        case Some(result) =>
          s.(flight := s.flight.(attempt := Some(result)), backtests := s.backtests + cost,
             trace := s.trace.(completed := s.trace.completed + 1))
  }

  function MechanicalGateStep(c: Clients, s: State): State {
    if s.flight.reject.Some? || s.flight.attempt.None? then s
    else
      var result := s.flight.attempt.value;
      var outcome := Gate.Gate(c.sqrt, result.perFoldBest, result.baseline, Gate.DEFAULT_CONFIG).value;
      var gated := s.(flight := s.flight.(gate := Some(outcome)));
      if outcome.accept then gated else Reject(gated, outcome.kind, "mechanical gate")
  }

  function VerdictCritique(c: Clients, s: State): State {
    if s.flight.reject.Some? || s.flight.gate.None? || !s.flight.gate.value.accept || s.flight.attempt.None? then s
    else
      var decision := c.verdict(s.iteration, s.flight.attempt.value, s.flight.gate.value);
      var judged := s.(flight := s.flight.(verdict := Some(decision)));
      if decision.accept then judged else Reject(judged, RejectVerdict, decision.rationale)
  }

  function CandidateOf(cfg: Config, f: Flight): Option<Candidate> {
    match f.idea
    case None => None
    case Some(idea) =>
      var intent := match f.commitments
        case None => ParamIntent(None, None)
        case Some(x) => ParamIntent(Some(x.added), Some(x.removed));
      var files := if f.build.Some? then f.build.value.files else [];
      Some(Candidate(idea.name, idea.lift, cfg.cites, Structured(Some(intent), Some(files), None)))
  }

  /** Commit the candidate in flight, re-sort the accepted list, clear the slots. */
  function RankStep(cfg: Config, s: State): State {
    var cleared := s.(iteration := s.iteration + 1, flight := EMPTY_FLIGHT);
    match CandidateOf(cfg, s.flight)
    case None => cleared.(accepted := Sort(SCORE, s.accepted))
    case Some(candidate) =>
      var recorded := cleared.(history := s.history + [candidate]);
      if s.flight.reject.None? || s.flight.reject.value == OK then
        var rationale := if s.flight.verdict.Some? then s.flight.verdict.value.rationale else "accepted";
        var entry := Accepted(candidate, rationale, s.flight.attempt, s.flight.gate);
        recorded.(accepted := Sort(SCORE, s.accepted + [entry]),
                  trace := s.trace.(submitted := s.trace.submitted + [entry]))
      else
        recorded.(accepted := Sort(SCORE, s.accepted),
                  rejected := s.rejected + [Rejected(candidate, s.flight.rationale, s.flight.reject)])
  }

  // ----- what each node keeps

  /** The parts of the state that no node before `rank` writes. */
  ghost predicate SameRecords(s0: State, s: State) {
    && s.accepted == s0.accepted && s.rejected == s0.rejected && s.history == s0.history
    && s.iteration == s0.iteration && s.trace.submitted == s0.trace.submitted
  }

  /** Backtests are charged for completed mini-optimizes only, and within the limit. */
  ghost predicate ChargedFairly(cfg: Config, s0: State, s: State) {
    && s.trace.completed - s0.trace.completed in {0, 1}
    && s.backtests - s0.backtests == TRIALS * cfg.folds * (s.trace.completed - s0.trace.completed)
    && (s.trace.completed != s0.trace.completed && cfg.maxBacktests.Some? ==> s.backtests <= cfg.maxBacktests.value)
  }

  /** An iteration that began in `s0` has reached `s` after at most `stages` generation stages. */
  ghost predicate Midway(cfg: Config, s0: State, s: State, stages: nat) {
    && SameRecords(s0, s)
    && ChargedFairly(cfg, s0, s)
    && s.trace.emissions <= s0.trace.emissions + stages * (cfg.kRepair + 1)
    && (s.flight.reject.Some? ==> s.flight.reject.value != OK)
  }

  lemma OneMoreStage(kRepair: nat)
    ensures 2 * (kRepair + 1) == 1 * (kRepair + 1) + (kRepair + 1)
    ensures 3 * (kRepair + 1) == 2 * (kRepair + 1) + (kRepair + 1)
  {}

  lemma Stage1Midway(c: Clients, cfg: Config, s: State)
    requires Honest(c) && s.flight == EMPTY_FLIGHT
    ensures var r := GenerateStage1(c, cfg, s);
            && Midway(cfg, s, r, 1) && r.trace.completed == s.trace.completed
            && (r.flight.reject.None? ==> r.flight.idea.Some?) && r.flight.gate.None? && r.flight.attempt.None?
  {
    hide EmitWithRepair, HonestStage;
    EmitWithRepairContract(c.idea(s.iteration), cfg.kRepair);
  }

  lemma Stage2Midway(c: Clients, cfg: Config, s0: State, s: State)
    requires Honest(c) && Midway(cfg, s0, s, 1) && s.trace.completed == s0.trace.completed
    requires s.flight.reject.None? ==> s.flight.idea.Some?
    ensures var r := GenerateStage2(c, cfg, s);
            && Midway(cfg, s0, r, 2) && r.trace.completed == s0.trace.completed
            && (r.flight.reject.None? ==> r.flight.idea.Some? && r.flight.commitments.Some?)
            && r.flight.gate == s.flight.gate && r.flight.attempt == s.flight.attempt
  {
    hide EmitWithRepair, HonestStage;
    OneMoreStage(cfg.kRepair);
    if s.flight.reject.None? {
      EmitWithRepairContract(c.commitments(s.iteration, s.flight.idea.value), cfg.kRepair);
    }
  }

  lemma Stage3Midway(c: Clients, cfg: Config, s0: State, s: State)
    requires Honest(c) && Midway(cfg, s0, s, 2) && s.trace.completed == s0.trace.completed
    requires s.flight.reject.None? ==> s.flight.idea.Some? && s.flight.commitments.Some?
    ensures var r := GenerateStage3(c, cfg, s);
            && Midway(cfg, s0, r, 3) && r.trace.completed == s0.trace.completed
            && (r.flight.reject.None? ==> r.flight.idea.Some? && r.flight.commitments.Some? && r.flight.build.Some?)
            && r.flight.gate == s.flight.gate && r.flight.attempt == s.flight.attempt
  {
    hide EmitWithRepair, HonestStage;
    OneMoreStage(cfg.kRepair);
    if s.flight.reject.None? {
      EmitWithRepairContract(c.build(s.iteration, s.flight.commitments.value), cfg.kRepair);
    }
  }

  /** A candidate that is still alive carries an attempt and the accepting gate outcome computed from it. */
  ghost predicate Proven(c: Clients, attempt: Option<AttemptResult>, gate: Option<Gate.Outcome>) {
    && attempt.Some? && gate.Some? && gate.value.accept
    && Gate.Gate(c.sqrt, attempt.value.perFoldBest, attempt.value.baseline, Gate.DEFAULT_CONFIG) == Ok(gate.value)
  }

  lemma MidwayIs(cfg: Config, s0: State, s: State, stages: nat)
    ensures Midway(cfg, s0, s, stages) <==>
            && SameRecords(s0, s) && ChargedFairly(cfg, s0, s)
            && s.trace.emissions <= s0.trace.emissions + stages * (cfg.kRepair + 1)
            && (s.flight.reject.Some? ==> s.flight.reject.value != OK)
  {}

  lemma MiniOptimizeMidway(c: Clients, cfg: Config, s0: State, s: State)
    requires Midway(cfg, s0, s, 3) && s.trace.completed == s0.trace.completed
    requires s.flight.reject.None? ==> s.flight.idea.Some? && s.flight.commitments.Some? && s.flight.build.Some?
    ensures var r := MiniOptimize(c, cfg, s);
            && Midway(cfg, s0, r, 3)
            && (r.flight.reject.None? ==> r.flight.idea.Some? && r.flight.attempt.Some?)
  {
    hide Midway;
    MidwayIs(cfg, s0, s, 3);
    var r := MiniOptimize(c, cfg, s);
    assert SameRecords(s0, r) && r.trace.emissions == s.trace.emissions;
    assert ChargedFairly(cfg, s0, r);
    MidwayIs(cfg, s0, r, 3);
  }

  lemma GateMidway(c: Clients, cfg: Config, s0: State, s: State)
    requires Midway(cfg, s0, s, 3)
    requires s.flight.reject.None? ==> s.flight.idea.Some? && s.flight.attempt.Some?
    ensures var r := MechanicalGateStep(c, s);
            && Midway(cfg, s0, r, 3)
            && (r.flight.reject.None? ==> r.flight.idea.Some? && Proven(c, r.flight.attempt, r.flight.gate))
  {
    if s.flight.reject.None? {
      var result := s.flight.attempt.value;
      var o := Gate.Gate(c.sqrt, result.perFoldBest, result.baseline, Gate.DEFAULT_CONFIG).value;
      assert !o.accept ==> o.kind != OK;
      hide Gate.JudgeScores;
    }
  }

  lemma VerdictMidway(c: Clients, cfg: Config, s0: State, s: State)
    requires Midway(cfg, s0, s, 3)
    requires s.flight.reject.None? ==> s.flight.idea.Some? && Proven(c, s.flight.attempt, s.flight.gate)
    ensures var r := VerdictCritique(c, s);
            && Midway(cfg, s0, r, 3)
            && (r.flight.reject.None? ==> r.flight.idea.Some? && Proven(c, r.flight.attempt, r.flight.gate))
  {}

  /** The generation stages of one iteration. */
  function Generate(c: Clients, cfg: Config, s: State): (r: State)
    requires Honest(c) && s.flight == EMPTY_FLIGHT
    ensures r.flight.reject.None? ==> r.flight.idea.Some? && r.flight.commitments.Some? && r.flight.build.Some?
  {
    Stage1Midway(c, cfg, s);
    GenerateStage3(c, cfg, GenerateStage2(c, cfg, CheapCritique(c, GenerateStage1(c, cfg, s))))
  }

  lemma GenerateMidway(c: Clients, cfg: Config, s: State)
    requires Honest(c) && s.flight == EMPTY_FLIGHT
    ensures Midway(cfg, s, Generate(c, cfg, s), 3)
    ensures Generate(c, cfg, s).trace.completed == s.trace.completed
  {
    Stage1Midway(c, cfg, s);
    var s0 := GenerateStage1(c, cfg, s);
    var s1 := CheapCritique(c, s0);
    assert Midway(cfg, s, s1, 1);
    Stage2Midway(c, cfg, s, s1);
    Stage3Midway(c, cfg, s, GenerateStage2(c, cfg, s1));
    hide GenerateStage1, CheapCritique, GenerateStage2, GenerateStage3;
  }

  /** The cycle of the graph up to `rank`. */
  function BeforeRank(c: Clients, cfg: Config, s: State): State
    requires Honest(c) && s.flight == EMPTY_FLIGHT
  {
    VerdictCritique(c, MechanicalGateStep(c, MiniOptimize(c, cfg, Generate(c, cfg, s))))
  }

  lemma BeforeRankMidway(c: Clients, cfg: Config, s: State)
    requires Honest(c) && s.flight == EMPTY_FLIGHT
    ensures var r := BeforeRank(c, cfg, s);
            && Midway(cfg, s, r, 3)
            && (r.flight.reject.None? ==> r.flight.idea.Some? && Proven(c, r.flight.attempt, r.flight.gate))
  {
    hide Generate, MiniOptimize, MechanicalGateStep, VerdictCritique, Midway, Proven;
    GenerateMidway(c, cfg, s);
    MiniOptimizeMidway(c, cfg, s, Generate(c, cfg, s));
    var s1 := MiniOptimize(c, cfg, Generate(c, cfg, s));
    GateMidway(c, cfg, s, s1);
    VerdictMidway(c, cfg, s, MechanicalGateStep(c, s1));
  }

  /** One iteration: from one state after `rank` to the next. */
  function Iterate(c: Clients, cfg: Config, s: State): State
    requires Honest(c) && s.flight == EMPTY_FLIGHT
  {
    RankStep(cfg, BeforeRank(c, cfg, s))
  }

  // ----- the conditional edge and the last node

  datatype Reason = Running | SufficientCandidates | BudgetExhausted

  /** `should_continue`: `Running` is the edge back into generation, anything else leads to `select`. */
  function ShouldContinue(cfg: Config, s: State): Reason {
    if |s.accepted| >= cfg.targetCandidates then SufficientCandidates
    else if s.iteration >= cfg.iterationBudget then BudgetExhausted
    else if cfg.maxBacktests.Some? && s.backtests >= cfg.maxBacktests.value then BudgetExhausted
    else Running
  }

  /** Python's `xs[:k]`, where a negative `k` drops from the end. */
  function Slice<T>(xs: seq<T>, k: int): seq<T> {
    if k >= 0 then (if k <= |xs| then xs[..k] else xs)
    else if |xs| + k >= 0 then xs[..|xs| + k]
    else []
  }

  datatype Selection = Selection(accepted: seq<Accepted>, reason: Reason)

  /** `select`, given the termination reason found in the state. */
  function Select(cfg: Config, s: State, reason: Reason): Selection {
    var kept := Slice(s.accepted, cfg.targetCandidates);
    Selection(kept,
              if reason != Running then reason
              else if |kept| >= cfg.targetCandidates then SufficientCandidates
              else BudgetExhausted)
  }

  // ----- every state reached after `rank`

  /** Exactly 64 backtests per fold and completed mini-optimize, never beyond the limit. */
  ghost predicate ChargedExactly(cfg: Config, s: State) {
    && s.backtests == TRIALS * cfg.folds * s.trace.completed
    && (cfg.maxBacktests.Some? ==> s.backtests <= Max(0, cfg.maxBacktests.value))
  }

  /** At most three stages per iteration, each within its repair budget. */
  ghost predicate EmissionsBounded(cfg: Config, s: State) {
    s.trace.emissions <= 3 * (cfg.kRepair + 1) * s.iteration
  }

  ghost predicate RecordsConsistent(c: Clients, s: State) {
    && |s.history| == |s.accepted| + |s.rejected| <= s.iteration
    && s.accepted == Sort(SCORE, s.trace.submitted)
    && (forall a :: a in s.accepted ==> Proven(c, a.attempt, a.gate))
    && (forall r :: r in s.rejected ==> r.kind.Some? && r.kind.value != OK)
  }

  ghost predicate Inv(c: Clients, cfg: Config, s: State) {
    s.flight == EMPTY_FLIGHT && ChargedExactly(cfg, s) && EmissionsBounded(cfg, s) && RecordsConsistent(c, s)
  }

  lemma ChargeStep(cfg: Config, s: State, m: State)
    requires ChargedExactly(cfg, s) && ChargedFairly(cfg, s, m)
    ensures ChargedExactly(cfg, m)
  {}

  lemma EmissionStep(cfg: Config, s: State, r: State)
    requires EmissionsBounded(cfg, s) && r.iteration == s.iteration + 1
    requires r.trace.emissions <= s.trace.emissions + 3 * (cfg.kRepair + 1)
    ensures EmissionsBounded(cfg, r)
  {}

  /** `rank` alone: it records the candidate once, keeps the accepted list sorted, and clears the slots. */
  lemma RankKeeps(c: Clients, cfg: Config, s: State)
    requires RecordsConsistent(c, s)
    requires s.flight.reject.Some? ==> s.flight.reject.value != OK
    requires s.flight.reject.None? ==> s.flight.idea.Some? && Proven(c, s.flight.attempt, s.flight.gate)
    ensures var r := RankStep(cfg, s);
            && RecordsConsistent(c, r)
            && |s.accepted| <= |r.accepted| <= |s.accepted| + 1
            && r.flight == EMPTY_FLIGHT && r.iteration == s.iteration + 1 && r.backtests == s.backtests
            && r.trace.emissions == s.trace.emissions && r.trace.completed == s.trace.completed
  {
    hide Proven, RankScore, Sort;
    SortedAgain(s.trace.submitted);
    if s.flight.reject.None? {
      var entry := RankStep(cfg, s).trace.submitted[|s.trace.submitted|];
      SortedWith(s.trace.submitted, entry);
    }
  }

  lemma SortedAgain(submitted: seq<Accepted>)
    ensures Sort(SCORE, Sort(SCORE, submitted)) == Sort(SCORE, submitted)
  {
    SortIsStable(SCORE, submitted);
    SortedIsFixed(SCORE, Sort(SCORE, submitted));
  }

  lemma SortedWith(submitted: seq<Accepted>, entry: Accepted)
    ensures var all := Sort(SCORE, submitted + [entry]);
            && Sort(SCORE, Sort(SCORE, submitted) + [entry]) == all
            && |all| == |Sort(SCORE, submitted)| + 1
            && forall a :: a in all ==> a == entry || a in Sort(SCORE, submitted)
  {
    ResortIsSortOnce(SCORE, submitted, [entry]);
    SortKeepsMembers(SCORE, submitted);
    SortKeepsMembers(SCORE, submitted + [entry]);
  }

  /** One whole iteration keeps the invariant, emits at most three budgets, and accepts at most one candidate. */
  lemma IterateKeeps(c: Clients, cfg: Config, s: State)
    requires Honest(c) && Inv(c, cfg, s)
    ensures var r := Iterate(c, cfg, s);
            && Inv(c, cfg, r) && r.iteration == s.iteration + 1
            && |r.accepted| <= |s.accepted| + 1
            && r.trace.emissions <= s.trace.emissions + 3 * (cfg.kRepair + 1)
  {
    hide BeforeRank, Proven, RankStep, RecordsConsistent, EmissionsBounded, ChargedExactly, ChargedFairly;
    BeforeRankMidway(c, cfg, s);
    var m := BeforeRank(c, cfg, s);
    ChargeStep(cfg, s, m);
    RecordsStay(c, s, m);
    RankKeeps(c, cfg, m);
    EmissionStep(cfg, s, RankStep(cfg, m));
    SameCharge(cfg, m, RankStep(cfg, m));
  }

  lemma RecordsStay(c: Clients, s: State, m: State)
    requires RecordsConsistent(c, s) && SameRecords(s, m)
    ensures RecordsConsistent(c, m)
  {}

  lemma SameCharge(cfg: Config, m: State, r: State)
    requires ChargedExactly(cfg, m) && r.backtests == m.backtests && r.trace.completed == m.trace.completed
    ensures ChargedExactly(cfg, r)
  {}

  // ----- one iteration, said without flags

  /** What an iteration decides, as a chain of early exits: everything the accepted candidate is made of, or the
      reject kind and reason of the first check that fails, with what was generated until then. */
  datatype Judgement =
    | Passed(idea: Idea, commitments: Commitments, build: Build, attempt: AttemptResult, gate: Gate.Outcome,
             verdict: Verdict)
    | Failed(kind: RejectKind, reason: string, generated: Option<Idea>)

  function JudgeIdea(c: Clients, cfg: Config, i: nat, backtests: int): Judgement {
    match EmitWithRepair(c.idea(i), cfg.kRepair)
    case GaveUp(kind, feedback, _) => Failed(kind, feedback, None)
    case Parsed(idea, _) =>
      var critique := c.cheapCritique(i, idea);
      if !critique.accept then Failed(RejectVerdict, critique.rationale, Some(idea))
      else JudgeCommitments(c, cfg, i, backtests, idea)
  }

  function JudgeCommitments(c: Clients, cfg: Config, i: nat, backtests: int, idea: Idea): Judgement {
    match EmitWithRepair(c.commitments(i, idea), cfg.kRepair)
    case GaveUp(kind, feedback, _) => Failed(kind, feedback, Some(idea))
    case Parsed(x, _) =>
      match EmitWithRepair(c.build(i, x), cfg.kRepair)
      case GaveUp(kind, feedback, _) => Failed(kind, feedback, Some(idea))
      case Parsed(build, _) => JudgeBuild(c, cfg, i, backtests, idea, x, build)
  }

  function JudgeBuild(c: Clients, cfg: Config, i: nat, backtests: int, idea: Idea, x: Commitments,
                      build: Build): Judgement
  {
    if cfg.maxBacktests.Some? && backtests + TRIALS * cfg.folds > cfg.maxBacktests.value
    then Failed(RejectNoise, "mini-optimize would exceed the backtest budget", Some(idea))
    else
      match c.miniOptimize(i, x, build.library)
      case None => Failed(RejectSchema, "mini-optimize search-space construction failed", Some(idea))
      case Some(result) =>
        var gate := Gate.Gate(c.sqrt, result.perFoldBest, result.baseline, Gate.DEFAULT_CONFIG).value;
        if !gate.accept then Failed(gate.kind, "mechanical gate", Some(idea))
        else
          var verdict := c.verdict(i, result, gate);
          if !verdict.accept then Failed(RejectVerdict, verdict.rationale, Some(idea))
          else Passed(idea, x, build, result, gate, verdict)
  }

  /** The slots that the flag-passing nodes leave for `rank` are those of the chain of early exits: after the first
      reject no later node changes anything that `rank` reads. */
  predicate Agrees(f: Flight, j: Judgement) {
    match j
    case Passed(idea, x, build, attempt, gate, verdict) =>
      f == Flight(Some(idea), Some(x), Some(build), Some(attempt), Some(gate), Some(verdict), None, "")
    case Failed(kind, reason, generated) => f.reject == Some(kind) && f.rationale == reason && f.idea == generated
  }

  lemma Stage1Agrees(c: Clients, cfg: Config, s: State)
    requires Honest(c) && s.flight == EMPTY_FLIGHT
    ensures var r := CheapCritique(c, GenerateStage1(c, cfg, s));
            && r.iteration == s.iteration && r.backtests == s.backtests
            && match r.flight.reject
               case Some(_) => Agrees(r.flight, JudgeIdea(c, cfg, s.iteration, s.backtests))
               case None =>
                 && r.flight.idea.Some? && r.flight == EMPTY_FLIGHT.(idea := r.flight.idea)
                 && JudgeIdea(c, cfg, s.iteration, s.backtests) ==
                    JudgeCommitments(c, cfg, s.iteration, s.backtests, r.flight.idea.value)
  {
    hide EmitWithRepair, JudgeCommitments;
  }

  lemma Stages23Agree(c: Clients, cfg: Config, s: State)
    requires s.flight.reject.None? && s.flight.idea.Some? && s.flight == EMPTY_FLIGHT.(idea := s.flight.idea)
    ensures GenerateStage2(c, cfg, s).flight.reject.None? ==> GenerateStage2(c, cfg, s).flight.commitments.Some?
    ensures var r := GenerateStage3(c, cfg, GenerateStage2(c, cfg, s));
            var idea := s.flight.idea.value;
            && r.iteration == s.iteration && r.backtests == s.backtests
            && match r.flight.reject
               case Some(_) => Agrees(r.flight, JudgeCommitments(c, cfg, s.iteration, s.backtests, idea))
               case None =>
                 && r.flight.commitments.Some? && r.flight.build.Some?
                 && r.flight
                    == EMPTY_FLIGHT.(idea := Some(idea), commitments := r.flight.commitments, build := r.flight.build)
                 && JudgeCommitments(c, cfg, s.iteration, s.backtests, idea) ==
                    JudgeBuild(c, cfg, s.iteration, s.backtests, idea, r.flight.commitments.value, r.flight.build.value)
  {
    hide EmitWithRepair, JudgeBuild;
  }

  lemma ChecksAgree(c: Clients, cfg: Config, s: State)
    requires s.flight.reject.None? && s.flight.idea.Some? && s.flight.commitments.Some? && s.flight.build.Some?
    requires s.flight
             == EMPTY_FLIGHT.(idea := s.flight.idea, commitments := s.flight.commitments, build := s.flight.build)
    ensures Agrees(VerdictCritique(c, MechanicalGateStep(c, MiniOptimize(c, cfg, s))).flight,
                   JudgeBuild(c, cfg, s.iteration, s.backtests, s.flight.idea.value, s.flight.commitments.value,
                              s.flight.build.value))
  {
    hide Gate.JudgeScores;
  }

  lemma RejectedStays(c: Clients, cfg: Config, s: State)
    requires s.flight.reject.Some?
    ensures GenerateStage2(c, cfg, s) == s && GenerateStage3(c, cfg, s) == s
    ensures MiniOptimize(c, cfg, s) == s && MechanicalGateStep(c, s) == s && VerdictCritique(c, s) == s
  {}

  lemma FlagsAreEarlyExits(c: Clients, cfg: Config, s: State)
    requires Honest(c) && s.flight == EMPTY_FLIGHT
    ensures Agrees(BeforeRank(c, cfg, s).flight, JudgeIdea(c, cfg, s.iteration, s.backtests))
  {
    hide GenerateStage1, CheapCritique, GenerateStage2, GenerateStage3, MiniOptimize, MechanicalGateStep;
    hide VerdictCritique;
    hide Agrees, JudgeIdea, JudgeCommitments, JudgeBuild;
    Stage1Midway(c, cfg, s);
    Stage1Agrees(c, cfg, s);
    var s1 := CheapCritique(c, GenerateStage1(c, cfg, s));
    if s1.flight.reject.Some? {
      RejectedStays(c, cfg, s1);
    } else {
      Stages23Agree(c, cfg, s1);
      var s3 := GenerateStage3(c, cfg, GenerateStage2(c, cfg, s1));
      if s3.flight.reject.Some? {
        RejectedStays(c, cfg, s3);
      } else {
        ChecksAgree(c, cfg, s3);
      }
    }
  }

  predicate IsCandidateOf(cfg: Config, candidate: Candidate, idea: Idea) {
    candidate.name == idea.name && candidate.lift == idea.lift && candidate.cites == cfg.cites
  }

  /** One iteration accepts its candidate exactly when every check passes; otherwise the candidate is rejected with
      the kind and reason of the first check that fails, and recorded only if its idea was parsed. */
  lemma IterationDecides(c: Clients, cfg: Config, s: State)
    requires Honest(c) && Inv(c, cfg, s)
    ensures var r, j := Iterate(c, cfg, s), JudgeIdea(c, cfg, s.iteration, s.backtests);
            match j
            case Passed(idea, x, build, attempt, gate, verdict) =>
              && r.rejected == s.rejected && |r.history| == |s.history| + 1
              && IsCandidateOf(cfg, r.history[|s.history|], idea)
              && NetAdditions(r.history[|s.history|]) == |x.added| - |x.removed| + |build.files|
              && r.trace.submitted ==
                 s.trace.submitted + [Accepted(r.history[|s.history|], verdict.rationale, Some(attempt), Some(gate))]
            case Failed(kind, reason, generated) =>
              && r.trace.submitted == s.trace.submitted && r.accepted == s.accepted
              && (generated.None? ==> r.rejected == s.rejected && r.history == s.history)
              && (generated.Some? ==>
                    && |r.history| == |s.history| + 1
                    && IsCandidateOf(cfg, r.history[|s.history|], generated.value)
                    && r.rejected == s.rejected + [Rejected(r.history[|s.history|], reason, Some(kind))])
  {
    hide BeforeRank, JudgeIdea, Sort, Proven, Midway, ChargedExactly, EmissionsBounded;
    FlagsAreEarlyExits(c, cfg, s);
    BeforeRankMidway(c, cfg, s);
    BeforeRankRecords(cfg, s, BeforeRank(c, cfg, s));
    SortedAgain(s.trace.submitted);
  }

  predicate Generates<T(==)>(stage: Stage<T>, kRepair: nat, x: T) {
    var e := EmitWithRepair(stage, kRepair);
    e.Parsed? && e.parsed == x
  }

  /** The idea, commitments and build of an iteration, if it gets as far as the sweep. */
  predicate ReachesSweep(c: Clients, cfg: Config, i: nat, idea: Idea, x: Commitments, build: Build) {
    && Generates(c.idea(i), cfg.kRepair, idea) && c.cheapCritique(i, idea).accept
    && Generates(c.commitments(i, idea), cfg.kRepair, x) && Generates(c.build(i, x), cfg.kRepair, build)
  }

  predicate GivesUp<T>(stage: Stage<T>, kRepair: nat, kind: RejectKind, reason: string) {
    var e := EmitWithRepair(stage, kRepair);
    e.GaveUp? && e.kind == kind && e.feedback == reason
  }

  /** The checks behind the generation stages pass. */
  predicate BuildPasses(c: Clients, cfg: Config, i: nat, backtests: int, x: Commitments, build: Build,
                        attempt: AttemptResult, gate: Gate.Outcome, verdict: Verdict)
  {
    && (cfg.maxBacktests.Some? ==> backtests + 64 * cfg.folds <= cfg.maxBacktests.value)
    && c.miniOptimize(i, x, build.library) == Some(attempt)
    && Gate.Gate(c.sqrt, attempt.perFoldBest, attempt.baseline, Gate.DEFAULT_CONFIG) == Ok(gate) && gate.accept
    && c.verdict(i, attempt, gate) == verdict && verdict.accept
  }

  /** The first of these checks to fail: there is no room for a sweep, none can be made, the gate says no, or the
      critic does. */
  predicate BuildFails(c: Clients, cfg: Config, i: nat, backtests: int, x: Commitments, build: Build,
                       kind: RejectKind, reason: string)
  {
    var sweep := c.miniOptimize(i, x, build.library);
    if cfg.maxBacktests.Some? && backtests + 64 * cfg.folds > cfg.maxBacktests.value then
      kind == RejectNoise && reason == "mini-optimize would exceed the backtest budget"
    else if sweep.None? then kind == RejectSchema && reason == "mini-optimize search-space construction failed"
    else
      var gate := Gate.Gate(c.sqrt, sweep.value.perFoldBest, sweep.value.baseline, Gate.DEFAULT_CONFIG).value;
      var verdict := c.verdict(i, sweep.value, gate);
      if gate.accept then !verdict.accept && kind == RejectVerdict && reason == verdict.rationale
      else kind == gate.kind && reason == "mechanical gate"
  }

  /** Where an iteration with a parsed idea fails: at the cheap critique, for want of commitments or of a build, or at
      a check of the build. */
  ghost predicate IdeaFails(c: Clients, cfg: Config, i: nat, backtests: int, idea: Idea, kind: RejectKind,
                            reason: string)
  {
    var critique := c.cheapCritique(i, idea);
    && Generates(c.idea(i), cfg.kRepair, idea)
    && if !critique.accept then kind == RejectVerdict && reason == critique.rationale
       else
         || GivesUp(c.commitments(i, idea), cfg.kRepair, kind, reason)
         || exists x :: && Generates(c.commitments(i, idea), cfg.kRepair, x)
                        && (|| GivesUp(c.build(i, x), cfg.kRepair, kind, reason)
                            || exists build :: && ReachesSweep(c, cfg, i, idea, x, build)
                                               && BuildFails(c, cfg, i, backtests, x, build, kind, reason))
  }

  /** What the chain of checks decides, said check by check. */
  lemma JudgedExactly(c: Clients, cfg: Config, i: nat, backtests: int, j: Judgement)
    ensures JudgeIdea(c, cfg, i, backtests) == j <==>
            match j
            case Passed(idea, x, build, attempt, gate, verdict) =>
              && ReachesSweep(c, cfg, i, idea, x, build)
              && BuildPasses(c, cfg, i, backtests, x, build, attempt, gate, verdict)
            case Failed(kind, reason, generated) =>
              if generated.None? then GivesUp(c.idea(i), cfg.kRepair, kind, reason)
              else IdeaFails(c, cfg, i, backtests, generated.value, kind, reason)
  {
    hide EmitWithRepair, BuildPasses, BuildFails, JudgeBuild;
    match EmitWithRepair(c.idea(i), cfg.kRepair)
    case GaveUp(_, _, _) =>
    case Parsed(idea, _) =>
      match EmitWithRepair(c.commitments(i, idea), cfg.kRepair)
      case GaveUp(_, _, _) =>
      case Parsed(x, _) =>
        match EmitWithRepair(c.build(i, x), cfg.kRepair)
        case GaveUp(_, _, _) => assert Generates(c.commitments(i, idea), cfg.kRepair, x);
        case Parsed(build, _) =>
          BuildJudged(c, cfg, i, backtests, idea, x, build, j);
          assert Generates(c.commitments(i, idea), cfg.kRepair, x) && Generates(c.build(i, x), cfg.kRepair, build);
  }

  lemma BuildJudged(c: Clients, cfg: Config, i: nat, backtests: int, idea: Idea, x: Commitments, build: Build,
                    j: Judgement)
    ensures JudgeBuild(c, cfg, i, backtests, idea, x, build) == j <==>
            match j
            case Passed(idea', x', build', attempt, gate, verdict) =>
              && idea' == idea && x' == x && build' == build
              && BuildPasses(c, cfg, i, backtests, x, build, attempt, gate, verdict)
            case Failed(kind, reason, generated) =>
              generated == Some(idea) && BuildFails(c, cfg, i, backtests, x, build, kind, reason)
  {
    hide Gate.JudgeScores, Gate.Summarize;
  }

  lemma GenerateReaches(c: Clients, cfg: Config, s: State, idea: Idea, x: Commitments, build: Build)
    requires Honest(c) && s.flight == EMPTY_FLIGHT
    ensures var g := Generate(c, cfg, s);
            && g.backtests == s.backtests && g.iteration == s.iteration
            && (ReachesSweep(c, cfg, s.iteration, idea, x, build) <==>
                  && g.flight.reject.None? && g.flight.idea == Some(idea) && g.flight.commitments == Some(x)
                  && g.flight.build == Some(build))
  {
    hide EmitWithRepair, HonestStage;
    EmitWithRepairContract(c.idea(s.iteration), cfg.kRepair);
    Stage1Midway(c, cfg, s);
    var s1 := CheapCritique(c, GenerateStage1(c, cfg, s));
    if s1.flight.reject.Some? {
      RejectedStays(c, cfg, s1);
    } else {
      EmitWithRepairContract(c.commitments(s.iteration, s1.flight.idea.value), cfg.kRepair);
      var s2 := GenerateStage2(c, cfg, s1);
      if s2.flight.reject.Some? {
        RejectedStays(c, cfg, s2);
      } else {
        EmitWithRepairContract(c.build(s.iteration, s2.flight.commitments.value), cfg.kRepair);
      }
    }
  }

  lemma GenerateUncharged(cfg: Config, s: State, g: State)
    requires Midway(cfg, s, g, 3) && g.trace.completed == s.trace.completed
    ensures g.backtests == s.backtests && g.iteration == s.iteration
  {}

  lemma LaterNodesKeepCharge(c: Clients, cfg: Config, s: State)
    ensures var r := RankStep(cfg, VerdictCritique(c, MechanicalGateStep(c, s)));
            r.backtests == s.backtests && r.trace.completed == s.trace.completed
  {
    hide Gate.JudgeScores, Sort, CandidateOf;
  }

  predicate Fits(cfg: Config, s: State) {
    cfg.maxBacktests.Some? ==> s.backtests + 64 * cfg.folds <= cfg.maxBacktests.value
  }

  /** An iteration completes a sweep, and pays for it, exactly when its candidate gets that far, 64 backtests a fold
      still fit into the limit, and the sweep runs on the library just built. */
  lemma SweepsExactly(c: Clients, cfg: Config, s: State)
    requires Honest(c) && s.flight == EMPTY_FLIGHT
    ensures var r := Iterate(c, cfg, s);
            && r.trace.completed - s.trace.completed in {0, 1}
            && r.backtests - s.backtests == 64 * cfg.folds * (r.trace.completed - s.trace.completed)
            && (r.trace.completed > s.trace.completed <==>
                  exists idea, x, build ::
                    && ReachesSweep(c, cfg, s.iteration, idea, x, build) && Fits(cfg, s)
                    && c.miniOptimize(s.iteration, x, build.library).Some?)
  {
    hide Generate, ReachesSweep, MechanicalGateStep, VerdictCritique, RankStep;
    var g := Generate(c, cfg, s);
    LaterNodesKeepCharge(c, cfg, MiniOptimize(c, cfg, g));
    if g.flight.reject.None? {
      GenerateReaches(c, cfg, s, g.flight.idea.value, g.flight.commitments.value, g.flight.build.value);
    }
    GenerateMidway(c, cfg, s);
    GenerateUncharged(cfg, s, g);
    forall idea, x, build | ReachesSweep(c, cfg, s.iteration, idea, x, build)
      ensures g.flight.reject.None? && g.flight.commitments == Some(x) && g.flight.build == Some(build)
    {
      GenerateReaches(c, cfg, s, idea, x, build);
    }
  }

  lemma BeforeRankRecords(cfg: Config, s: State, m: State)
    requires Midway(cfg, s, m, 3)
    ensures SameRecords(s, m) && (m.flight.reject.Some? ==> m.flight.reject.value != OK)
  {}

  /** The state after `n` iterations. */
  function AfterRank(c: Clients, cfg: Config, n: nat): (s: State)
    requires Honest(c)
    ensures s.flight == EMPTY_FLIGHT
  {
    if n == 0 then INITIAL else Iterate(c, cfg, AfterRank(c, cfg, n - 1))
  }

  /** The workflow really gets to its n-th `rank`: it took the edge back after every earlier one. */
  ghost predicate Reached(c: Clients, cfg: Config, n: nat)
    requires Honest(c)
  {
    n >= 1 && forall m :: 1 <= m < n ==> ShouldContinue(cfg, AfterRank(c, cfg, m)) == Running
  }

  lemma {:induction false} InvAfter(c: Clients, cfg: Config, n: nat)
    requires Honest(c)
    ensures Inv(c, cfg, AfterRank(c, cfg, n)) && AfterRank(c, cfg, n).iteration == n
    ensures n >= 1 ==> |AfterRank(c, cfg, n).accepted| <= |AfterRank(c, cfg, n - 1).accepted| + 1
  {
    hide Inv, Iterate, Honest;
    if n == 0 {
      InitialInv(c, cfg);
    } else {
      InvAfter(c, cfg, n - 1);
      IterateKeeps(c, cfg, AfterRank(c, cfg, n - 1));
    }
  }

  lemma InitialInv(c: Clients, cfg: Config)
    ensures Inv(c, cfg, INITIAL)
  {}

  /** Safety of the whole run: every reached state satisfies the invariant, the number of iterations is bounded
      by the budget, and there are never more acceptances than the target asks for. */
  lemma EveryReachedState(c: Clients, cfg: Config, n: nat)
    requires Honest(c) && Reached(c, cfg, n)
    ensures var s := AfterRank(c, cfg, n);
            && Inv(c, cfg, s)
            && s.iteration == n <= Max(1, cfg.iterationBudget)
            && |s.accepted| <= Max(1, cfg.targetCandidates)
  {
    InvAfter(c, cfg, n);
    InvAfter(c, cfg, n - 1);
    if n > 1 {
      assert ShouldContinue(cfg, AfterRank(c, cfg, n - 1)) == Running;
    }
  }

  /** The charge of every state, reached or not: what the sweeps of the completed mini-optimizes evaluate, proposal by
      proposal and fold by fold, over any space that is not empty; and it never exceeds the limit. */
  lemma ChargedAsEvaluated<P>(c: Clients, cfg: Config, n: nat, dims: nat, draw: nat -> P)
    requires Honest(c) && dims > 0
    ensures var s := AfterRank(c, cfg, n);
            && s.backtests == |MiniSweep.SobolProposals(dims, 64, draw)| * cfg.folds * s.trace.completed
            && |MiniSweep.SobolProposals(dims, 64, draw)| == 64
            && (cfg.maxBacktests.Some? ==> s.backtests <= Max(0, cfg.maxBacktests.value))
  {
    hide AfterRank, Honest, MiniSweep.NextPowerOfTwo;
    InvAfter(c, cfg, n);
    MiniSweep.NextPowerOfTwoIsLeast(64, 6);
    assert MiniSweep.Pow2(6) == 64 by { SixtyFour(); }
  }

  lemma SixtyFour()
    ensures MiniSweep.Pow2(6) == 64
  {
    assert MiniSweep.Pow2(3) == 8;
    assert MiniSweep.Pow2(5) == 32;
  }

  /** In every state the accepted list is in order of merit. */
  lemma AcceptedByMerit(c: Clients, cfg: Config, n: nat)
    requires Honest(c)
    ensures var accepted := AfterRank(c, cfg, n).accepted;
            forall i, j :: 0 <= i < j < |accepted| ==> !Dominates(accepted[j].candidate, accepted[i].candidate)
  {
    hide AfterRank, Honest, Proven, Dominates, RankScore;
    InvAfter(c, cfg, n);
    var s := AfterRank(c, cfg, n);
    SortIsStable(SCORE, s.trace.submitted);
    forall i, j | 0 <= i < j < |s.accepted| ensures !Dominates(s.accepted[j].candidate, s.accepted[i].candidate) {
      assert SCORE(s.accepted[i]) >= SCORE(s.accepted[j]);
      DominatingRanksHigher(s.accepted[j].candidate, s.accepted[i].candidate);
    }
  }

  /** Every accepted candidate's mean over the per-fold bests is strictly above the baseline's. */
  lemma AcceptedBeatBaseline(c: Clients, cfg: Config, n: nat, a: Accepted)
    requires Honest(c) && Gate.IsSquareRoot(c.sqrt)
    ensures a in AfterRank(c, cfg, n).accepted ==>
              a.attempt.Some? && Numbers.Mean(a.attempt.value.perFoldBest) > Numbers.Mean(a.attempt.value.baseline)
  {
    InvAfter(c, cfg, n);
    if a in AfterRank(c, cfg, n).accepted {
      Gate.AcceptedBeatsBaseline(c.sqrt, a.attempt.value.perFoldBest, a.attempt.value.baseline, Gate.DEFAULT_CONFIG);
    }
  }

  /** Fewer acceptances than wanted, and iterations and backtests left. */
  predicate GoesOn(cfg: Config, s: State) {
    && |s.accepted| < cfg.targetCandidates && s.iteration < cfg.iterationBudget
    && (cfg.maxBacktests.Some? ==> s.backtests < cfg.maxBacktests.value)
  }

  lemma RunningExactly(c: Clients, cfg: Config, n: nat)
    requires Honest(c) && Reached(c, cfg, n)
    ensures forall m :: 1 <= m < n ==> GoesOn(cfg, AfterRank(c, cfg, m))
    ensures ShouldContinue(cfg, AfterRank(c, cfg, n)) != Running ==> !GoesOn(cfg, AfterRank(c, cfg, n))
  {
    hide AfterRank;
    forall m | 1 <= m < n ensures GoesOn(cfg, AfterRank(c, cfg, m)) {
      assert ShouldContinue(cfg, AfterRank(c, cfg, m)) == Running;
    }
  }

  /** The run itself: the inner cycle of the graph, then `select`. It terminates for every configuration, in the first
      state after `rank` in which nothing is left to want or to spend. */
  method RunWorkflow(c: Clients, cfg: Config) returns (final: State, selection: Selection, ghost n: nat)
    requires Honest(c)
    ensures Reached(c, cfg, n) && final == AfterRank(c, cfg, n)
    ensures ShouldContinue(cfg, final) != Running
    ensures !GoesOn(cfg, final) && forall m :: 1 <= m < n ==> GoesOn(cfg, AfterRank(c, cfg, m))
    ensures selection == Select(cfg, final, ShouldContinue(cfg, final))
  {
    hide Honest, Iterate, Inv, Select, ShouldContinue;
    final := INITIAL;
    n := 0;
    var reason := Running;
    while reason == Running
      invariant final == AfterRank(c, cfg, n)
      invariant n == 0 ==> reason == Running
      invariant n > 0 ==> Reached(c, cfg, n) && reason == ShouldContinue(cfg, final)
      decreases Max(1, cfg.iterationBudget) - n, reason == Running
    {
      InvAfter(c, cfg, n);
      final := Iterate(c, cfg, final);
      n := n + 1;
      EveryReachedState(c, cfg, n);
      reason := ShouldContinue(cfg, final);
    }
    RunningExactly(c, cfg, n);
    selection := Select(cfg, final, reason);
  }

  /** What `select` keeps is the front of the accepted list: as much as the target, and with a negative target all but
      as many at the end. */
  lemma SelectKeeps(cfg: Config, s: State, reason: Reason)
    ensures var kept, all := Select(cfg, s, reason).accepted, s.accepted;
            && kept <= all
            && (cfg.targetCandidates >= |all| ==> kept == all)
            && (0 <= cfg.targetCandidates < |all| ==> |kept| == cfg.targetCandidates)
            && (cfg.targetCandidates < 0 ==> |kept| == Max(0, |all| + cfg.targetCandidates))
  {}

  /** `select` drops nothing exactly when the target is positive or there is nothing to drop. */
  lemma SelectDropsNothing(c: Clients, cfg: Config, n: nat, reason: Reason)
    requires Honest(c) && Reached(c, cfg, n)
    ensures var s := AfterRank(c, cfg, n);
            Select(cfg, s, reason).accepted == s.accepted <==> cfg.targetCandidates >= 1 || s.accepted == []
  {
    hide Inv, Reached, AfterRank, ShouldContinue;
    EveryReachedState(c, cfg, n);
  }

  /** The reported reason is right, whether or not the edge's write to the state survives: sufficient exactly
      when the target was met, otherwise a budget has run out. */
  lemma ReportedReason(c: Clients, cfg: Config, n: nat)
    requires Honest(c) && n >= 1
    ensures var s := AfterRank(c, cfg, n);
            var kept, lost := Select(cfg, s, ShouldContinue(cfg, s)), Select(cfg, s, Running);
            Reached(c, cfg, n) && ShouldContinue(cfg, s) != Running ==>
              && kept == lost
              && (kept.reason == SufficientCandidates <==> |s.accepted| >= cfg.targetCandidates)
              && (kept.reason == BudgetExhausted ==>
                    s.iteration >= cfg.iterationBudget
                    || (cfg.maxBacktests.Some? && s.backtests >= cfg.maxBacktests.value))
  {
    hide Inv, Reached, AfterRank;
    if Reached(c, cfg, n) {
      EveryReachedState(c, cfg, n);
    }
  }
}
