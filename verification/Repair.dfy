/** One generation stage with its repair budget (repair.py, and `_emit_with_repair` of workflow.py). */
module Repair {
  import opened Basics
  import opened RejectTaxonomy

  /** A validator's verdict; `kind` is only meaningful on failure. */
  datatype Validation<+T> = Valid(parsed: T) | Invalid(kind: string, feedback: string)

  datatype Attempt<+T> = Attempt(index: nat, response: string, outcome: Validation<T>)

  datatype StageResult<+T> = StageResult(
    accepted: bool, finalResponse: string, finalParsed: Option<T>, finalRejectKind: string, attempts: seq<Attempt<T>>)

  /** `attempts[-1]` of an empty list: the budget was negative. */
  datatype RepairError = IndexError

  /** The emitter, the validator and the feedback text, as functions of the attempt number. */
  datatype Stage<!T> = Stage(
    emit: (nat, string) -> string,
    validate: (nat, string) -> Validation<T>,
    synthesize: (Validation<T>, string) -> string)

  function AttemptAt<T>(stage: Stage<T>, index: nat, feedback: string): Attempt<T> {
    var response := stage.emit(index, feedback);
    Attempt(index, response, stage.validate(index, response))
  }

  function FeedbackOf<T>(stage: Stage<T>, a: Attempt<T>): string {
    stage.synthesize(a.outcome, a.response)
  }

  /** The attempts made from `index` on when `left` remain in the budget. */
  function AttemptsFrom<T>(stage: Stage<T>, index: nat, feedback: string, left: nat): seq<Attempt<T>>
    decreases left
  {
    if left == 0 then []
    else
      var a := AttemptAt(stage, index, feedback);
      if a.outcome.Valid? then [a]
      else [a] + AttemptsFrom(stage, index + 1, FeedbackOf(stage, a), left - 1)
  }

  function Conclude<T>(attempts: seq<Attempt<T>>): Result<StageResult<T>, RepairError> {
    if attempts == [] then Err(IndexError)
    else
      var last := attempts[|attempts| - 1];
      match last.outcome
      case Valid(parsed) => Ok(StageResult(true, last.response, Some(parsed), "ok", attempts))
      case Invalid(kind, _) =>
        Ok(StageResult(false, last.response, None, if kind == "" then "exhausted_repair_budget" else kind, attempts))
  }

  function StageOutcome<T>(stage: Stage<T>, kRepair: int): Result<StageResult<T>, RepairError> {
    Conclude(AttemptsFrom(stage, 0, "", Max(0, kRepair + 1)))
  }

  method RunStageWithRepair<T>(stage: Stage<T>, kRepair: int) returns (r: Result<StageResult<T>, RepairError>)
    ensures r == StageOutcome(stage, kRepair)
  {
    hide AttemptsFrom, AttemptAt, FeedbackOf;
    var attempts: seq<Attempt<T>> := [];
    var feedback := "";
    var i := 0;
    ghost var all := AttemptsFrom(stage, 0, "", Max(0, kRepair + 1));
    while i < kRepair + 1
      invariant 0 <= i <= Max(0, kRepair + 1)
      invariant |attempts| == i && forall j :: 0 <= j < i ==> attempts[j].outcome.Invalid?
      invariant attempts + AttemptsFrom(stage, i, feedback, Max(0, kRepair + 1) - i) == all
    {
      AttemptsStep(stage, attempts, i, feedback, Max(0, kRepair + 1) - i);
      var attempt := AttemptAt(stage, i, feedback);
      attempts := attempts + [attempt];
      if attempt.outcome.Valid? {
        return Ok(StageResult(true, attempt.response, Some(attempt.outcome.parsed), "ok", attempts));
      }
      feedback := FeedbackOf(stage, attempt);
      i := i + 1;
    }
    AttemptsEnd(stage, attempts, i, feedback);
    if attempts == [] {
      return Err(IndexError);
    }
    var last := attempts[|attempts| - 1];
    var kind := if last.outcome.kind == "" then "exhausted_repair_budget" else last.outcome.kind;
    r := Ok(StageResult(false, last.response, None, kind, attempts));
  }

  lemma AttemptsStep<T>(stage: Stage<T>, made: seq<Attempt<T>>, index: nat, feedback: string, left: nat)
    requires left > 0
    ensures var a := AttemptAt(stage, index, feedback);
            made + AttemptsFrom(stage, index, feedback, left) ==
            if a.outcome.Valid? then made + [a]
            else made + [a] + AttemptsFrom(stage, index + 1, FeedbackOf(stage, a), left - 1)
  {}

  lemma AttemptsEnd<T>(stage: Stage<T>, made: seq<Attempt<T>>, index: nat, feedback: string)
    ensures made + AttemptsFrom(stage, index, feedback, 0) == made
  {}

  /** Each attempt sees the feedback on the one before it, and nothing older. */
  ghost predicate FeedbackChain<T>(stage: Stage<T>, first: nat, feedback: string, attempts: seq<Attempt<T>>) {
    forall i :: 0 <= i < |attempts| ==>
      attempts[i] == AttemptAt(stage, first + i, if i == 0 then feedback else FeedbackOf(stage, attempts[i - 1]))
  }

  lemma {:induction false} AttemptsFromChain<T>(stage: Stage<T>, index: nat, feedback: string, left: nat)
    ensures var attempts := AttemptsFrom(stage, index, feedback, left);
            && FeedbackChain(stage, index, feedback, attempts)
            && |attempts| <= left && (left > 0 ==> attempts != [])
            && (forall i :: 0 <= i < |attempts| - 1 ==> attempts[i].outcome.Invalid?)
            && (|attempts| < left ==> attempts[|attempts| - 1].outcome.Valid?)
    decreases left
  {
    if left > 0 {
      var a := AttemptAt(stage, index, feedback);
      if a.outcome.Invalid? {
        AttemptsFromChain(stage, index + 1, FeedbackOf(stage, a), left - 1);
        var rest := AttemptsFrom(stage, index + 1, FeedbackOf(stage, a), left - 1);
        var attempts := [a] + rest;
        forall i | 0 <= i < |attempts|
          ensures attempts[i]
                  == AttemptAt(stage, index + i, if i == 0 then feedback else FeedbackOf(stage, attempts[i - 1]))
        {
          if i > 0 {
            assert attempts[i] == rest[i - 1];
            assert i > 1 ==> attempts[i - 1] == rest[i - 2];
          }
        }
      }
    }
  }

  /** What a stage reports is its last attempt: the response, and either the parsed value under the kind "ok", or the
      kind the validator gave, which counts as an exhausted budget when there is none. */
  ghost predicate Concludes<T>(r: StageResult<T>)
    requires r.attempts != []
  {
    var last := r.attempts[|r.attempts| - 1];
    && r.finalResponse == last.response
    && (r.accepted <==> last.outcome.Valid?)
    && (last.outcome.Valid? ==> r.finalParsed == Some(last.outcome.parsed) && r.finalRejectKind == "ok")
    && (last.outcome.Invalid? ==>
          && r.finalParsed == None
          && (last.outcome.kind != "" ==> r.finalRejectKind == last.outcome.kind)
          && (last.outcome.kind == "" ==> r.finalRejectKind == "exhausted_repair_budget"))
  }

  /** The whole contract of a stage: at most `kRepair + 1` emissions, all but the last one rejected,
      the stage stops early only on success, and it is accepted exactly when its last attempt is valid. */
  lemma StageContract<T>(stage: Stage<T>, kRepair: int)
    requires kRepair >= 0
    ensures StageOutcome(stage, kRepair).Ok?
    ensures var r := StageOutcome(stage, kRepair).value;
            && 1 <= |r.attempts| <= kRepair + 1
            && FeedbackChain(stage, 0, "", r.attempts)
            && (forall i :: 0 <= i < |r.attempts| - 1 ==> r.attempts[i].outcome.Invalid?)
            && (r.accepted <==> exists a :: a in r.attempts && a.outcome.Valid?)
            && (!r.accepted ==> |r.attempts| == kRepair + 1)
            && Concludes(r)
  {
    AttemptsFromChain(stage, 0, "", kRepair + 1);
    var attempts := AttemptsFrom(stage, 0, "", kRepair + 1);
    assert attempts[|attempts| - 1] in attempts;
  }

  /** What a workflow node learns from its stage: the parsed emission, or a reject kind. */
  datatype Emission<+T> = Parsed(parsed: T, emissions: nat) | GaveUp(kind: RejectKind, feedback: string, emissions: nat)

  function EmitWithRepair<T>(stage: Stage<T>, kRepair: nat): Emission<T> {
    match StageOutcome(stage, kRepair)
    case Err(_) => GaveUp(ExhaustedRepairBudget, "", 0)
    case Ok(r) =>
      match r.finalParsed
      case Some(parsed) => Parsed(parsed, |r.attempts|)
      case None =>
        var kind := match Parse(r.finalRejectKind)
          case Some(k) => k
          case None => ExhaustedRepairBudget;
        var last := r.attempts[|r.attempts| - 1].outcome;
        GaveUp(kind, if last.Invalid? then last.feedback else "", |r.attempts|)
  }

  /** A failing validator never reports the kind "ok". */
  ghost predicate HonestStage<T>(stage: Stage<T>) {
    forall i: nat, text: string :: stage.validate(i, text).Invalid? ==> stage.validate(i, text).kind != "ok"
  }

  /** What a node learns is what the last attempt showed: its parsed value, or the kind of its failure, which is an
      exhausted budget if there is no kind or none that is known, and its feedback. */
  lemma EmitsLastAttempt<T>(stage: Stage<T>, kRepair: nat)
    ensures StageOutcome(stage, kRepair).Ok? && StageOutcome(stage, kRepair).value.attempts != []
    ensures var attempts := StageOutcome(stage, kRepair).value.attempts;
            EmitWithRepair(stage, kRepair) ==
            match attempts[|attempts| - 1].outcome
            case Valid(parsed) => Parsed(parsed, |attempts|)
            case Invalid(kind, feedback) =>
              GaveUp(if Parse(kind).Some? then Parse(kind).value else ExhaustedRepairBudget, feedback, |attempts|)
  {
    hide StageOutcome, Parse;
    StageContract(stage, kRepair);
    ParseInvertsValue(ExhaustedRepairBudget);
    NoEmptyKind();
  }

  lemma NoEmptyKind()
    ensures Parse("") == None
    ensures Value(ExhaustedRepairBudget) == "exhausted_repair_budget"
  {
    assert forall k: RejectKind :: |Value(k)| > 0;
  }

  lemma EmitWithRepairContract<T>(stage: Stage<T>, kRepair: nat)
    ensures 1 <= EmitWithRepair(stage, kRepair).emissions <= kRepair + 1
    ensures HonestStage(stage) && EmitWithRepair(stage, kRepair).GaveUp? ==> EmitWithRepair(stage, kRepair).kind != OK
  {
    StageContract(stage, kRepair);
    var r := StageOutcome(stage, kRepair).value;
    var n := |r.attempts| - 1;
    var last := r.attempts[n];
    assert last == AttemptAt(stage, 0 + n, if n == 0 then "" else FeedbackOf(stage, r.attempts[n - 1]));
    if EmitWithRepair(stage, kRepair).GaveUp? && Parse(r.finalRejectKind) == Some(OK) {
      ParseInvertsValue(OK);
      assert stage.validate(last.index, last.response).Invalid?;
    }
  }
}
