/** The reject kinds and the two predicates that steer repair and persistence (reject_taxonomy.py). */
module RejectTaxonomy {
  import opened Basics

  datatype RejectKind =
    | OK | RejectFormat | RejectBuild | RejectLint | RejectSchema | RejectSmoke
    | RejectNoise | RejectVariance | RejectVerdict | RejectDeps | ExhaustedRepairBudget

  /** The string value that is stored in ledgers and compared by callers. */
  function Value(kind: RejectKind): string {
    match kind
    case OK => "ok"
    case RejectFormat => "reject_format"
    case RejectBuild => "reject_build"
    case RejectLint => "reject_lint"
    case RejectSchema => "reject_schema"
    case RejectSmoke => "reject_smoke"
    case RejectNoise => "reject_noise"
    case RejectVariance => "reject_variance"
    case RejectVerdict => "reject_verdict"
    case RejectDeps => "reject_deps"
    case ExhaustedRepairBudget => "exhausted_repair_budget"
  }

  const KINDS: seq<RejectKind> := [
    OK, RejectFormat, RejectBuild, RejectLint, RejectSchema, RejectSmoke,
    RejectNoise, RejectVariance, RejectVerdict, RejectDeps, ExhaustedRepairBudget]

  function Lookup(s: string, kinds: seq<RejectKind>): (r: Option<RejectKind>)
    ensures r.Some? ==> r.value in kinds && Value(r.value) == s
    ensures r.None? ==> forall k :: k in kinds ==> Value(k) != s
  {
    if kinds == [] then None
    else if Value(kinds[0]) == s then Some(kinds[0])
    else Lookup(s, kinds[1..])
  }

  /** `RejectKind(s)`: `None` stands for the ValueError of an unknown string. */
  function Parse(s: string): Option<RejectKind> {
    Lookup(s, KINDS)
  }

  lemma ValueDetermines(a: RejectKind, b: RejectKind)
    requires Value(a) == Value(b)
    ensures a == b
  {}

  /** Parsing inverts printing, for every kind and for every string that names one. */
  lemma ParseInvertsValue(kind: RejectKind)
    ensures Parse(Value(kind)) == Some(kind)
  {
    assert KINDS[0] == OK && KINDS[1] == RejectFormat && KINDS[2] == RejectBuild && KINDS[3] == RejectLint
        && KINDS[4] == RejectSchema && KINDS[5] == RejectSmoke && KINDS[6] == RejectNoise
        && KINDS[7] == RejectVariance && KINDS[8] == RejectVerdict && KINDS[9] == RejectDeps
        && KINDS[10] == ExhaustedRepairBudget;
    assert kind in KINDS;
    ValueDetermines(Parse(Value(kind)).value, kind);
  }

  predicate IsRepairable(s: string) {
    match Parse(s)
    case None => false
    case Some(k) => k in {RejectFormat, RejectBuild, RejectLint, RejectSchema, RejectSmoke, RejectDeps}
  }

  /** Code-emission failures, which say nothing about the idea. */
  predicate IsMechanical(s: string) {
    match Parse(s)
    case None => false
    case Some(k) => k in {RejectFormat, RejectBuild, RejectLint, RejectDeps, ExhaustedRepairBudget}
  }

  /** In terms of the stored strings: which of them a stage may retry, and which say nothing about the idea. No other
      string is either. */
  lemma KindsByString(s: string)
    ensures IsRepairable(s) <==>
            s in {"reject_format", "reject_build", "reject_lint", "reject_schema", "reject_smoke", "reject_deps"}
    ensures IsMechanical(s) <==>
            s in {"reject_format", "reject_build", "reject_lint", "reject_deps", "exhausted_repair_budget"}
    ensures Parse(s) == Some(OK) <==> s == "ok"
    ensures Parse(s) == Some(RejectNoise) <==> s == "reject_noise"
    ensures Parse(s) == Some(RejectVariance) <==> s == "reject_variance"
    ensures Parse(s) == Some(RejectVerdict) <==> s == "reject_verdict"
  {
    hide Lookup;
    if Parse(s).Some? {
      ParseInvertsValue(Parse(s).value);
    }
    forall k: RejectKind ensures Parse(Value(k)) == Some(k) {
      ParseInvertsValue(k);
    }
    assert Value(RejectFormat) == "reject_format" && Value(RejectBuild) == "reject_build";
    assert Value(RejectLint) == "reject_lint" && Value(RejectSchema) == "reject_schema";
    assert Value(RejectSmoke) == "reject_smoke" && Value(RejectDeps) == "reject_deps" && Value(OK) == "ok";
    assert Value(RejectNoise) == "reject_noise" && Value(RejectVariance) == "reject_variance";
    assert Value(RejectVerdict) == "reject_verdict" && Value(ExhaustedRepairBudget) == "exhausted_repair_budget";
  }

  /** A mechanical rejection is one the repair loop could retry, or the record that it gave up;
      gate and verdict rejections are neither repaired nor deferred. */
  lemma MechanicalKinds(kind: RejectKind)
    ensures IsMechanical(Value(kind)) <==>
            kind == ExhaustedRepairBudget || (IsRepairable(Value(kind)) && kind != RejectSchema && kind != RejectSmoke)
    ensures kind in {OK, RejectNoise, RejectVariance, RejectVerdict} ==>
            !IsMechanical(Value(kind)) && !IsRepairable(Value(kind))
  {
    ParseInvertsValue(kind);
  }
}
