/**
  Cross-fold validation of the fold winners, the final choice, and the replay of a recorded trial
  (optimization_runner.py, optimization_ledger.py). The engine is any function from a batch of runs to a
  terminal status, the objective any function of metrics; scores are real numbers or minus infinity.
*/
module CrossValidation {
  import opened Basics
  import opened Numbers
  import opened Text

  type Params = map<string, string>
  type Metrics = map<string, real>

  datatype Slice = Slice(start: string, end: string)

  datatype Fold = Fold(train: Slice, oos: Slice)

  datatype Template = Template(params: Params, modes: seq<string>, seed: int)

  /** One packed run, as the engine receives it. */
  datatype Run = Run(params: Params, modes: seq<string>, seed: int, slice: Slice)

  datatype Winner = Winner(foldIndex: nat, params: Params)

  /** One returned result. */
  datatype Returned = Succeeded(runIndex: int, metrics: Metrics) | Failed(runIndex: int, kind: string, message: string)

  datatype Status = Completed(results: seq<Returned>) | Ended(status: string, error: string)

  datatype Entry = Entry(metrics: Metrics, ok: bool, error: string)

  datatype Score = NegInf | Finite(value: real)

  datatype Evaluation = Evaluation(accepted: bool, score: Score, violations: seq<string>, softMisses: seq<string>)

  datatype Row = Row(trialId: nat, phase: string, foldIndex: nat, params: Params, seed: int, metrics: Metrics,
                     score: Score, accepted: bool, rejectReason: string)

  datatype Outcome = Outcome(foldIndex: nat, params: Params, oosMetrics: seq<Metrics>, score: Score, accepted: bool,
                             rejectReason: string, variance: real)

  // ----- collecting results

  predicate IsColonOrSpace(c: char) {
    c == ':' || c == ' '
  }

  /** `str.strip(": ")`. */
  function StripColon(s: string): string
    decreases |s|
  {
    if s != "" && IsColonOrSpace(s[0]) then StripColon(s[1..])
    else if s != "" && IsColonOrSpace(s[|s| - 1]) then StripColon(s[..|s| - 1])
    else s
  }

  function EntryOf(r: Returned): Entry {
    match r
    case Succeeded(_, metrics) => Entry(metrics, true, "")
    case Failed(_, kind, message) => Entry(map[], false, StripColon(kind + ": " + message))
  }

  /** The last result returned for a run. */
  function ResultAt(results: seq<Returned>, i: int): Option<Entry> {
    if results == [] then None
    else if results[|results| - 1].runIndex == i then Some(EntryOf(results[|results| - 1]))
    else ResultAt(results[..|results| - 1], i)
  }

  function EntryAt(results: seq<Returned>, i: int): Entry {
    match ResultAt(results, i)
    case None => Entry(map[], false, "missing_result")
    case Some(e) => e
  }

  function Collected(status: Status, n: nat): (entries: seq<Entry>)
    ensures |entries| == n
  {
    match status
    case Ended(name, error) =>
      seq(n, _ => Entry(map[], false, if error != "" then error else "batch terminated with status=" + name))
    case Completed(results) => seq(n, i => EntryAt(results, i))
  }

  method SubmitAndCollect(engine: seq<Run> -> Status, runs: seq<Run>) returns (entries: seq<Entry>)
    ensures entries == Collected(engine(runs), |runs|)
  {
    var status := engine(runs);
    entries := [];
    if status.Ended? {
      var failed := Entry(map[], false, if status.error != "" then status.error
                                        else "batch terminated with status=" + status.status);
      return seq(|runs|, _ => failed);
    }
    var byIndex: map<int, Entry> := map[];
    var raw := status.results;
    for k := 0 to |raw|
      invariant forall i :: (i in byIndex <==> ResultAt(raw[..k], i).Some?)
      invariant forall i :: i in byIndex ==> ResultAt(raw[..k], i) == Some(byIndex[i])
    {
      assert raw[..k + 1][..k] == raw[..k];
      byIndex := byIndex[raw[k].runIndex := EntryOf(raw[k])];
    }
    assert raw[..|raw|] == raw;
    for i := 0 to |runs|
      invariant entries == seq(i, j => EntryAt(raw, j))
    {
      entries := entries + [if i in byIndex then byIndex[i] else Entry(map[], false, "missing_result")];
    }
  }

  predicate DistinctIndices(results: seq<Returned>) {
    forall i, j :: 0 <= i < j < |results| ==> results[i].runIndex != results[j].runIndex
  }

  lemma {:induction false} ResultFound(results: seq<Returned>, i: int)
    ensures ResultAt(results, i).None? <==> forall r :: r in results ==> r.runIndex != i
    ensures DistinctIndices(results) ==> forall r :: r in results && r.runIndex == i ==>
            ResultAt(results, i) == Some(EntryOf(r))
  {
    if results != [] {
      var n := |results| - 1;
      ResultFound(results[..n], i);
      assert results == results[..n] + [results[n]];
      assert forall r :: r in results <==> r in results[..n] || r == results[n];
    }
  }

  /** With distinct run indices the order in which results come back does not matter. */
  lemma AnyCompletionOrder(a: seq<Returned>, b: seq<Returned>, n: nat)
    requires DistinctIndices(a) && DistinctIndices(b) && forall r :: r in a <==> r in b
    ensures Collected(Completed(a), n) == Collected(Completed(b), n)
  {
    forall i | 0 <= i < n ensures EntryAt(a, i) == EntryAt(b, i) {
      ResultFound(a, i);
      ResultFound(b, i);
      if ResultAt(a, i).Some? {
        var r :| r in a && r.runIndex == i;
        assert r in b;
      }
    }
  }

  /** What an entry carries over from its result: the metrics of a success, or the kind and message of a failure. */
  lemma EntryCarries(r: Returned)
    ensures var e := EntryOf(r);
            match r
            case Succeeded(_, metrics) => e == Entry(metrics, true, "")
            case Failed(_, kind, message) =>
              && !e.ok && e.metrics == map[] && IsStripped(kind + ": " + message, e.error)
  {
    if r.Failed? {
      StripsColons(r.kind + ": " + r.message);
    }
  }

  /** `t` is `s` without the colons and spaces at its ends. */
  ghost predicate IsStripped(s: string, t: string) {
    && (t != "" ==> t[0] !in ": " && t[|t| - 1] !in ": ")
    && exists i: nat, j: nat :: Strips(s, t, i, j)
  }

  predicate Strips(s: string, t: string, i: nat, j: nat) {
    && i <= j <= |s| && t == s[i..j]
    && (forall k :: 0 <= k < i ==> s[k] in ": ") && forall k :: j <= k < |s| ==> s[k] in ": "
  }

  lemma {:induction false} StripsColons(s: string)
    ensures IsStripped(s, StripColon(s))
    decreases |s|
  {
    var t := StripColon(s);
    if s != "" && IsColonOrSpace(s[0]) {
      StripsColons(s[1..]);
      var i: nat, j: nat :| Strips(s[1..], t, i, j);
      assert forall k :: 0 < k < |s| ==> s[k] == s[1..][k - 1];
      assert Strips(s, t, i + 1, j + 1);
    } else if s != "" && IsColonOrSpace(s[|s| - 1]) {
      var n := |s| - 1;
      StripsColons(s[..n]);
      var i: nat, j: nat :| Strips(s[..n], t, i, j);
      assert forall k :: 0 <= k < n ==> s[k] == s[..n][k];
      assert Strips(s, t, i, j);
    } else {
      assert Strips(s, t, 0, |s|);
    }
  }

  /** A batch that ends otherwise fails every run of it, with its error, or with its status if it gives none. */
  lemma EndedFailsAll(name: string, error: string, n: nat)
    ensures forall e :: e in Collected(Ended(name, error), n) ==>
              && !e.ok && e.metrics == map[] && e.error != ""
              && (error != "" ==> e.error == error)
              && (error == "" ==> e.error == "batch terminated with status=" + name)
  {}

  /** A completed run has the entry of its own result; a run without a result has failed. */
  lemma EntryBelongs(results: seq<Returned>, n: nat, r: Returned)
    requires DistinctIndices(results) && 0 <= r.runIndex < n
    ensures r in results ==> Collected(Completed(results), n)[r.runIndex] == EntryOf(r)
    ensures (forall q :: q in results ==> q.runIndex != r.runIndex) ==>
              !Collected(Completed(results), n)[r.runIndex].ok
              && Collected(Completed(results), n)[r.runIndex].error == "missing_result"
  {
    ResultFound(results, r.runIndex);
  }

  // ----- the plan

  function PlanRow(w: nat, folds: nat): seq<(nat, nat)> {
    seq(folds, f => (w, f))
  }

  /** Winner and fold of every packed run. */
  function Plan(winners: nat, folds: nat): seq<(nat, nat)> {
    if winners == 0 then [] else Plan(winners - 1, folds) + PlanRow(winners - 1, folds)
  }

  function RunOf(t: Template, params: Params, slice: Slice): Run {
    Run(t.params + params, t.modes, t.seed, slice)
  }

  predicate PlanFits(plan: seq<(nat, nat)>, winners: seq<Winner>, folds: seq<Fold>) {
    forall p :: p in plan ==> p.0 < |winners| && p.1 < |folds|
  }

  function PlannedRuns(t: Template, winners: seq<Winner>, folds: seq<Fold>, plan: seq<(nat, nat)>): seq<Run>
    requires PlanFits(plan, winners, folds)
  {
    seq(|plan|, k requires 0 <= k < |plan| =>
      assert plan[k] in plan;
      RunOf(t, winners[plan[k].0].params, folds[plan[k].1].oos))
  }

  lemma {:induction false} PlanBounds(winners: nat, folds: nat)
    ensures forall p :: p in Plan(winners, folds) ==> p.0 < winners && p.1 < folds
    ensures |Plan(winners, folds)| == winners * folds
  {
    if winners > 0 {
      PlanBounds(winners - 1, folds);
    }
  }

  /** Run `w * folds + f` is winner `w` on fold `f`. */
  lemma {:induction false} PlanAt(winners: nat, folds: nat, w: nat, f: nat)
    requires w < winners && f < folds
    ensures w * folds + f < |Plan(winners, folds)| && Plan(winners, folds)[w * folds + f] == (w, f)
  {
    PlanBounds(winners - 1, folds);
    PlanBounds(winners, folds);
    if w < winners - 1 {
      PlanAt(winners - 1, folds, w, f);
    }
  }

  // ----- judging

  function FailedEvaluation(error: string): Evaluation {
    Evaluation(false, NegInf, [if error != "" then "engine_error: " + error else "engine_error"], [])
  }

  function Evaluate(score: Metrics -> Evaluation, e: Entry): Evaluation {
    if e.ok then score(e.metrics) else FailedEvaluation(e.error)
  }

  function JoinWith(parts: seq<string>): string {
    if parts == [] then "" else if |parts| == 1 then parts[0] else parts[0] + "," + JoinWith(parts[1..])
  }

  function RejectReason(e: Entry, o: Evaluation): string {
    if !e.ok then (if e.error != "" then e.error else "engine_error")
    else if o.violations != [] then JoinWith(o.violations)
    else if o.softMisses != [] then JoinWith(o.softMisses)
    else "below_gate"
  }

  /** Joining with commas: nothing for no part, and one more part behind a comma. */
  lemma {:induction false} JoinedWithCommas(parts: seq<string>, last: string)
    ensures JoinWith([]) == "" && JoinWith([last]) == last
    ensures parts != [] ==> JoinWith(parts + [last]) == JoinWith(parts) + "," + last
  {
    if |parts| == 1 {
      assert (parts + [last])[1..] == [last];
    } else if parts != [] {
      JoinedWithCommas(parts[1..], last);
      assert (parts + [last])[1..] == parts[1..] + [last];
    }
  }

  /** Why a run was rejected: its own error comes first, then violations, then soft misses. */
  lemma ReasonsInOrder(e: Entry, o: Evaluation)
    ensures var reason := RejectReason(e, o);
            && (!e.ok ==> reason == if e.error == "" then "engine_error" else e.error)
            && (e.ok && o.violations != [] ==> reason == JoinWith(o.violations))
            && (e.ok && o.violations == [] && o.softMisses != [] ==> reason == JoinWith(o.softMisses))
            && (e.ok && o.violations == [] && o.softMisses == [] ==> reason == "below_gate")
  {}

  /** A run that failed counts as an evaluation that says so: not accepted, minus infinity, one violation. */
  lemma FailuresEvaluated(score: Metrics -> Evaluation, e: Entry)
    ensures e.ok ==> Evaluate(score, e) == score(e.metrics)
    ensures !e.ok ==>
              var o := Evaluate(score, e);
              && !o.accepted && o.score == NegInf && o.softMisses == []
              && o.violations == [if e.error == "" then "engine_error" else "engine_error: " + e.error]
  {}

  function RowOf(t: Template, score: Metrics -> Evaluation, id: nat, winner: Winner, f: nat, e: Entry): Row {
    var o := Evaluate(score, e);
    Row(id, "final_cross_" + Digits(f), f, winner.params, t.seed, e.metrics, o.score, o.accepted,
        if o.accepted then "" else RejectReason(e, o))
  }

  function FiniteScores(os: seq<Evaluation>): seq<real> {
    if os == [] then []
    else
      FiniteScores(os[..|os| - 1]) + (if os[|os| - 1].score.Finite? then [os[|os| - 1].score.value] else [])
  }

  function Prefixed(f: nat, violations: seq<string>): seq<string> {
    seq(|violations|, i requires 0 <= i < |violations| => "fold_" + Digits(f) + ":" + violations[i])
  }

  function FoldViolations(os: seq<Evaluation>): seq<string> {
    if os == [] then []
    else
      var n := |os| - 1;
      FoldViolations(os[..n]) + (if os[n].accepted then [] else Prefixed(n, os[n].violations))
  }

  predicate FoldViolation(os: seq<Evaluation>, f: int, u: string, v: string) {
    0 <= f < |os| && !os[f].accepted && u in os[f].violations && v == "fold_" + Digits(f) + ":" + u
  }

  /** What counts against a winner are the violations of the folds that rejected it, each under its fold's number. */
  lemma {:induction false} ViolationsOfRejectedFolds(os: seq<Evaluation>, v: string)
    ensures v in FoldViolations(os) <==> exists f, u :: FoldViolation(os, f, u, v)
  {
    hide Digits;
    if os != [] {
      var n := |os| - 1;
      ViolationsOfRejectedFolds(os[..n], v);
      assert forall f, u :: f < n ==> (FoldViolation(os, f, u, v) <==> FoldViolation(os[..n], f, u, v));
      PrefixedMembers(n, os[n].violations, v);
      if !os[n].accepted && v in Prefixed(n, os[n].violations) {
        var u :| u in os[n].violations && v == "fold_" + Digits(n) + ":" + u;
        assert FoldViolation(os, n, u, v);
      }
      if v in FoldViolations(os[..n]) {
        var f, u :| FoldViolation(os[..n], f, u, v);
        assert FoldViolation(os, f, u, v);
      }
    }
  }

  lemma PrefixedMembers(f: nat, violations: seq<string>, v: string)
    ensures v in Prefixed(f, violations) <==> exists u :: u in violations && v == "fold_" + Digits(f) + ":" + u
  {
    if u :| u in violations && v == "fold_" + Digits(f) + ":" + u {
      var i :| 0 <= i < |violations| && violations[i] == u;
      assert Prefixed(f, violations)[i] == v;
    }
  }

  predicate AllAccepted(os: seq<Evaluation>) {
    forall o :: o in os ==> o.accepted
  }

  function OutcomeOf(winner: Winner, metrics: seq<Metrics>, os: seq<Evaluation>): Outcome {
    var scores := FiniteScores(os);
    var accepted := os != [] && AllAccepted(os);
    var reasons := JoinWith(FoldViolations(os));
    Outcome(winner.foldIndex, winner.params, metrics,
            if scores != [] && |scores| == |os| then Finite(Mean(scores)) else NegInf,
            accepted, if accepted then "" else if reasons != "" then reasons else "below_gate",
            if |scores| >= 2 then Variance(scores) else 0.0)
  }

  /** What `zip(plan, entries)` gives to one winner, in order. */
  function Picked<T>(plan: seq<(nat, nat)>, entries: seq<T>, w: int): seq<T>
    requires |plan| <= |entries|
  {
    if plan == [] then []
    else
      var n := |plan| - 1;
      Picked(plan[..n], entries, w) + (if plan[n].0 == w then [entries[n]] else [])
  }

  function MetricsOf(entries: seq<Entry>): seq<Metrics> {
    seq(|entries|, i requires 0 <= i < |entries| => entries[i].metrics)
  }

  function Evaluations(score: Metrics -> Evaluation, entries: seq<Entry>): seq<Evaluation> {
    seq(|entries|, i requires 0 <= i < |entries| => Evaluate(score, entries[i]))
  }

  function RowsOf(t: Template, score: Metrics -> Evaluation, firstId: nat, winners: seq<Winner>, folds: seq<Fold>,
                  plan: seq<(nat, nat)>, entries: seq<Entry>): seq<Row>
    requires PlanFits(plan, winners, folds) && |plan| <= |entries|
  {
    seq(|plan|, k requires 0 <= k < |plan| =>
      assert plan[k] in plan;
      RowOf(t, score, firstId + k, winners[plan[k].0], plan[k].1, entries[k]))
  }

  function OutcomesOf(score: Metrics -> Evaluation, winners: seq<Winner>, plan: seq<(nat, nat)>,
                      entries: seq<Entry>): seq<Outcome>
    requires |plan| <= |entries|
  {
    seq(|winners|, w requires 0 <= w < |winners| =>
      OutcomeOf(winners[w], MetricsOf(Picked(plan, entries, w)), Evaluations(score, Picked(plan, entries, w))))
  }

  function CrossEntries(engine: seq<Run> -> Status, t: Template, folds: seq<Fold>,
                        winners: seq<Winner>): (entries: seq<Entry>)
    ensures |entries| == |Plan(|winners|, |folds|)|
  {
    PlanBounds(|winners|, |folds|);
    var plan := Plan(|winners|, |folds|);
    Collected(engine(PlannedRuns(t, winners, folds, plan)), |plan|)
  }

  function CrossRows(engine: seq<Run> -> Status, t: Template, score: Metrics -> Evaluation, firstId: nat,
                     folds: seq<Fold>, winners: seq<Winner>): seq<Row> {
    PlanBounds(|winners|, |folds|);
    RowsOf(t, score, firstId, winners, folds, Plan(|winners|, |folds|), CrossEntries(engine, t, folds, winners))
  }

  function CrossOutcomes(engine: seq<Run> -> Status, t: Template, score: Metrics -> Evaluation, folds: seq<Fold>,
                         winners: seq<Winner>): seq<Outcome> {
    if winners == [] || folds == [] then []
    else
      OutcomesOf(score, winners, Plan(|winners|, |folds|), CrossEntries(engine, t, folds, winners))
  }

  /** Pack every winner on every fold into one batch. */
  method PackRuns(t: Template, folds: seq<Fold>, winners: seq<Winner>) returns (runs: seq<Run>, plan: seq<(nat, nat)>)
    ensures plan == Plan(|winners|, |folds|) && PlanFits(plan, winners, folds)
    ensures runs == PlannedRuns(t, winners, folds, plan)
  {
    runs, plan := [], [];
    for w := 0 to |winners|
      invariant plan == Plan(w, |folds|) && PlanFits(plan, winners, folds)
      invariant runs == PlannedRuns(t, winners, folds, plan)
    {
      for f := 0 to |folds|
        invariant plan == Plan(w, |folds|) + PlanRow(w, |folds|)[..f] && PlanFits(plan, winners, folds)
        invariant runs == PlannedRuns(t, winners, folds, plan)
      {
        assert PlanRow(w, |folds|)[..f + 1] == PlanRow(w, |folds|)[..f] + [(w, f)];
        runs := runs + [RunOf(t, winners[w].params, folds[f].oos)];
        plan := plan + [(w, f)];
      }
      assert PlanRow(w, |folds|)[..|folds|] == PlanRow(w, |folds|);
    }
  }

  lemma PickedStep(score: Metrics -> Evaluation, plan: seq<(nat, nat)>, entries: seq<Entry>, k: nat, w: nat)
    requires k < |plan| <= |entries|
    ensures var before, after := Picked(plan[..k], entries, w), Picked(plan[..k + 1], entries, w);
            if plan[k].0 == w
            then
              && MetricsOf(after) == MetricsOf(before) + [entries[k].metrics]
              && Evaluations(score, after) == Evaluations(score, before) + [Evaluate(score, entries[k])]
            else after == before
  {
    hide Evaluate;
    assert plan[..k + 1][..k] == plan[..k];
  }

  /** The loop over plan and entries: one row each, and each winner's metrics and evaluations in its own lists. */
  method JudgeEntries(t: Template, score: Metrics -> Evaluation, firstId: nat, folds: seq<Fold>, winners: seq<Winner>,
                      plan: seq<(nat, nat)>, entries: seq<Entry>)
    returns (rows: seq<Row>, metrics: seq<seq<Metrics>>, evaluations: seq<seq<Evaluation>>)
    requires PlanFits(plan, winners, folds) && |plan| == |entries|
    ensures rows == RowsOf(t, score, firstId, winners, folds, plan, entries)
    ensures |metrics| == |winners| == |evaluations|
    ensures forall w :: 0 <= w < |winners| ==> metrics[w] == MetricsOf(Picked(plan, entries, w))
    ensures forall w :: 0 <= w < |winners| ==> evaluations[w] == Evaluations(score, Picked(plan, entries, w))
  {
    hide Evaluate, RejectReason, Digits, Picked, MetricsOf, Evaluations;
    rows := [];
    metrics := seq(|winners|, _ => []);
    evaluations := seq(|winners|, _ => []);
    NothingPicked(score, plan, entries);
    for k := 0 to |plan|
      invariant |metrics| == |winners| == |evaluations|
      invariant rows == RowsOf(t, score, firstId, winners, folds, plan, entries)[..k]
      invariant forall w :: 0 <= w < |winners| ==> metrics[w] == MetricsOf(Picked(plan[..k], entries, w))
      invariant forall w :: 0 <= w < |winners| ==> evaluations[w] == Evaluations(score, Picked(plan[..k], entries, w))
    {
      assert plan[k] in plan;
      var w, f := plan[k].0, plan[k].1;
      var o := Evaluate(score, entries[k]);
      forall v: nat | v < |winners| {
        PickedStep(score, plan, entries, k, v);
      }
      metrics := metrics[w := metrics[w] + [entries[k].metrics]];
      evaluations := evaluations[w := evaluations[w] + [o]];
      rows := rows + [Row(firstId + k, "final_cross_" + Digits(f), f, winners[w].params, t.seed, entries[k].metrics,
                          o.score, o.accepted, if o.accepted then "" else RejectReason(entries[k], o))];
    }
    assert plan[..|plan|] == plan;
  }

  lemma NothingPicked(score: Metrics -> Evaluation, plan: seq<(nat, nat)>, entries: seq<Entry>)
    ensures forall w: int ::
              && MetricsOf(Picked(plan[..0], entries, w)) == []
              && Evaluations(score, Picked(plan[..0], entries, w)) == []
  {}

  method CrossValidate(engine: seq<Run> -> Status, t: Template, score: Metrics -> Evaluation, firstId: nat,
                       folds: seq<Fold>, winners: seq<Winner>) returns (rows: seq<Row>, outcomes: seq<Outcome>)
    ensures rows == CrossRows(engine, t, score, firstId, folds, winners)
    ensures outcomes == CrossOutcomes(engine, t, score, folds, winners)
  {
    hide Plan, Picked, RowOf, OutcomeOf, Collected;
    rows, outcomes := [], [];
    var runs, plan := PackRuns(t, folds, winners);
    PlanBounds(|winners|, |folds|);
    if runs == [] {
      EmptyPlan(|winners|, |folds|);
      return;
    }
    var entries := SubmitAndCollect(engine, runs);
    var metrics, evaluations;
    rows, metrics, evaluations := JudgeEntries(t, score, firstId, folds, winners, plan, entries);
    for w := 0 to |winners|
      invariant outcomes == OutcomesOf(score, winners, plan, entries)[..w]
    {
      outcomes := outcomes + [OutcomeOf(winners[w], metrics[w], evaluations[w])];
    }
    NoPlan(|winners|, |folds|);
  }

  lemma NoPlan(winners: nat, folds: nat)
    requires Plan(winners, folds) != []
    ensures winners > 0 && folds > 0
  {}

  lemma EmptyPlan(winners: nat, folds: nat)
    requires Plan(winners, folds) == []
    ensures winners == 0 || folds == 0
  {}

  // ----- winner by winner, fold by fold

  lemma {:induction false} PickedConcat<T>(a: seq<(nat, nat)>, b: seq<(nat, nat)>, entries: seq<T>, w: int)
    requires |a + b| <= |entries|
    ensures Picked(a + b, entries, w) == Picked(a, entries, w) + Picked(b, entries[|a|..], w)
    decreases |b|
  {
    if b == [] {
      assert a + b == a;
    } else {
      var n := |b| - 1;
      assert (a + b)[..|a + b| - 1] == a + b[..n];
      PickedConcat(a, b[..n], entries, w);
      PickedPrefix(b[..n], entries[|a|..], entries[|a|..][..n], w);
    }
  }

  lemma {:induction false} PickedPrefix<T>(plan: seq<(nat, nat)>, x: seq<T>, y: seq<T>, w: int)
    requires |plan| <= |x| && |plan| <= |y| && x[..|plan|] == y[..|plan|]
    ensures Picked(plan, x, w) == Picked(plan, y, w)
  {
    if plan != [] {
      var n := |plan| - 1;
      assert x[..n] == x[..|plan|][..n] && y[..n] == y[..|plan|][..n];
      assert x[n] == x[..|plan|][n] && y[n] == y[..|plan|][n];
      PickedPrefix(plan[..n], x, y, w);
    }
  }

  lemma {:induction false} PickedRow<T>(v: nat, folds: nat, entries: seq<T>, w: int)
    requires folds <= |entries|
    ensures Picked(PlanRow(v, folds), entries, w) == if v == w then entries[..folds] else []
    decreases folds
  {
    if folds > 0 {
      assert PlanRow(v, folds)[..folds - 1] == PlanRow(v, folds - 1);
      PickedRow(v, folds - 1, entries, w);
      assert entries[..folds] == entries[..folds - 1] + [entries[folds - 1]];
    }
  }

  /** A winner's entries are one block of the batch: those of its runs `w * folds` onwards. */
  lemma {:induction false} PickedBlock<T>(winners: nat, folds: nat, entries: seq<T>, w: nat)
    requires |Plan(winners, folds)| <= |entries| && w < winners
    ensures w * folds + folds <= |entries|
    ensures Picked(Plan(winners, folds), entries, w) == entries[w * folds..w * folds + folds]
  {
    var v := winners - 1;
    PlanBounds(v, folds);
    PickedConcat(Plan(v, folds), PlanRow(v, folds), entries, w);
    PickedRow(v, folds, entries[v * folds..], w);
    if w < v {
      PickedBlock(v, folds, entries, w);
      assert Picked(PlanRow(v, folds), entries[v * folds..], w) == [];
    } else {
      PickedOther(v, folds, entries, w);
      assert entries[v * folds..][..folds] == entries[v * folds..v * folds + folds];
    }
  }

  lemma {:induction false} PickedOther<T>(winners: nat, folds: nat, entries: seq<T>, w: int)
    requires |Plan(winners, folds)| <= |entries| && w >= winners
    ensures Picked(Plan(winners, folds), entries, w) == []
  {
    if winners > 0 {
      var v := winners - 1;
      PickedConcat(Plan(v, folds), PlanRow(v, folds), entries, w);
      PickedRow(v, folds, entries[|Plan(v, folds)|..], w);
      PickedOther(v, folds, entries, w);
    }
  }

  /** The place of a winner's run on a fold in the batch. */
  function RunIndex(folds: nat, w: nat, f: nat): nat {
    w * folds + f
  }

  lemma BatchIndex(winners: nat, folds: nat, w: nat, f: nat)
    requires w < winners && f < folds
    ensures |Plan(winners, folds)| == winners * folds
    ensures RunIndex(folds, w, f) < |Plan(winners, folds)| && Plan(winners, folds)[RunIndex(folds, w, f)] == (w, f)
  {
    PlanAt(winners, folds, w, f);
    PlanBounds(winners, folds);
  }

  /** The batch that is submitted. */
  function Batch(t: Template, folds: seq<Fold>, winners: seq<Winner>): seq<Run> {
    PlanBounds(|winners|, |folds|);
    PlannedRuns(t, winners, folds, Plan(|winners|, |folds|))
  }

  /** A row records one winner's run on one fold: whose it was, what it measured and what the objective said of it. */
  predicate Records(row: Row, t: Template, score: Metrics -> Evaluation, winner: Winner, f: nat, e: Entry) {
    && row.phase == "final_cross_" + Digits(f) && row.foldIndex == f && row.params == winner.params
    && row.seed == t.seed && row.metrics == e.metrics
    && (row.accepted <==> e.ok && score(e.metrics).accepted)
    && row.score == (if e.ok then score(e.metrics).score else NegInf)
    && row.rejectReason == (if row.accepted then "" else RejectReason(e, Evaluate(score, e)))
  }

  /** Run `w * folds + f` of the batch has winner `w`'s parameters and fold `f`'s out-of-sample slice; the row
      recorded for it has that run's own result. */
  lemma CrossRun(engine: seq<Run> -> Status, t: Template, score: Metrics -> Evaluation, firstId: nat,
                 folds: seq<Fold>, winners: seq<Winner>, w: nat, f: nat)
    requires w < |winners| && f < |folds|
    ensures var runs, k := Batch(t, folds, winners), RunIndex(|folds|, w, f);
            var entries := CrossEntries(engine, t, folds, winners);
            var rows := CrossRows(engine, t, score, firstId, folds, winners);
            && k < |entries| == |runs| == |rows|
            && entries == Collected(engine(runs), |runs|)
            && runs[k] == RunOf(t, winners[w].params, folds[f].oos)
            && Records(rows[k], t, score, winners[w], f, entries[k]) && rows[k].trialId == firstId + k
  {
    hide RunIndex, Collected, RowOf, RunOf, Plan, Records;
    BatchIndex(|winners|, |folds|, w, f);
    PlanBounds(|winners|, |folds|);
    var k := RunIndex(|folds|, w, f);
    RowRecords(t, score, firstId + k, winners[w], f, CrossEntries(engine, t, folds, winners)[k]);
  }

  lemma RowRecords(t: Template, score: Metrics -> Evaluation, id: nat, winner: Winner, f: nat, e: Entry)
    ensures Records(RowOf(t, score, id, winner, f, e), t, score, winner, f, e)
    ensures RowOf(t, score, id, winner, f, e).trialId == id
  {}

  /** The entries that `zip(plan, entries)` gives to one winner. */
  function OwnEntries(engine: seq<Run> -> Status, t: Template, folds: seq<Fold>, winners: seq<Winner>,
                      w: nat): seq<Entry>
  {
    Picked(Plan(|winners|, |folds|), CrossEntries(engine, t, folds, winners), w)
  }

  /** A winner gets, fold by fold, the entries of its own runs. */
  lemma OwnEntriesAreOwn(engine: seq<Run> -> Status, t: Template, folds: seq<Fold>, winners: seq<Winner>, w: nat)
    requires w < |winners|
    ensures var own, entries := OwnEntries(engine, t, folds, winners, w), CrossEntries(engine, t, folds, winners);
            && |own| == |folds|
            && forall f: nat :: f < |folds| ==>
                 RunIndex(|folds|, w, f) < |entries| && own[f] == entries[RunIndex(|folds|, w, f)]
  {
    hide Plan, Picked, CrossEntries, RunIndex;
    var entries := CrossEntries(engine, t, folds, winners);
    PickedBlock(|winners|, |folds|, entries, w);
    forall f: nat | f < |folds|
      ensures RunIndex(|folds|, w, f) < |entries|
              && entries[w * |folds|..w * |folds| + |folds|][f] == entries[RunIndex(|folds|, w, f)]
    {
      BatchIndex(|winners|, |folds|, w, f);
      IndexIs(|folds|, w, f);
    }
  }

  lemma IndexIs(folds: nat, w: nat, f: nat)
    ensures RunIndex(folds, w, f) == w * folds + f
  {}

  /** A winner's outcome is made of its own entries, fold by fold, and it is accepted exactly when there is a fold
      and every fold's run succeeded and was accepted. */
  lemma CrossOutcome(engine: seq<Run> -> Status, t: Template, score: Metrics -> Evaluation, folds: seq<Fold>,
                     winners: seq<Winner>, w: nat)
    requires w < |winners| && folds != []
    ensures var outcomes := CrossOutcomes(engine, t, score, folds, winners);
            var own := OwnEntries(engine, t, folds, winners, w);
            && |outcomes| == |winners|
            && outcomes[w].params == winners[w].params && outcomes[w].foldIndex == winners[w].foldIndex
            && outcomes[w].oosMetrics == MetricsOf(own)
            && (outcomes[w].accepted <==>
                  forall f :: 0 <= f < |own| ==> own[f].ok && score(own[f].metrics).accepted)
  {
    hide Plan, Picked, Evaluate, CrossEntries, RunIndex;
    OwnEntriesAreOwn(engine, t, folds, winners, w);
    var own := OwnEntries(engine, t, folds, winners, w);
    AcceptedExactly(score, own);
    forall f | 0 <= f < |own|
      ensures Evaluate(score, own[f]).accepted <==> own[f].ok && score(own[f].metrics).accepted
    {
      AcceptedRan(score, own[f]);
    }
  }

  lemma AcceptedRan(score: Metrics -> Evaluation, e: Entry)
    ensures Evaluate(score, e).accepted <==> e.ok && score(e.metrics).accepted
  {}

  lemma AcceptedExactly(score: Metrics -> Evaluation, entries: seq<Entry>)
    ensures AllAccepted(Evaluations(score, entries)) <==>
            forall g :: 0 <= g < |entries| ==> Evaluate(score, entries[g]).accepted
  {
    hide Evaluate;
    var os := Evaluations(score, entries);
    assert forall g :: 0 <= g < |entries| ==> os[g] == Evaluate(score, entries[g]);
    if AllAccepted(os) {
      forall g | 0 <= g < |entries| ensures Evaluate(score, entries[g]).accepted {
        assert os[g] in os;
      }
    }
  }

  // ----- replay

  /** The run that a recorded trial is replayed as; the manifest holds the folds and the run template. */
  function ReplayRun(t: Template, folds: seq<Fold>, row: Row): Run
    requires row.foldIndex < |folds|
  {
    var fold := folds[row.foldIndex];
    Run(t.params + row.params, t.modes, row.seed, if StartsWith(row.phase, "train_fold_") then fold.train else fold.oos)
  }

  lemma CrossPhase(f: nat)
    ensures !StartsWith("final_cross_" + Digits(f), "train_fold_")
  {
    var phase := "final_cross_" + Digits(f);
    assert phase[0] == 'f' && phase[..|"train_fold_"|][0] == 'f';
  }

  /** Replaying any recorded cross-validation row rebuilds the very run that was submitted for it. */
  lemma ReplayRebuildsRun(engine: seq<Run> -> Status, t: Template, score: Metrics -> Evaluation, firstId: nat,
                          folds: seq<Fold>, winners: seq<Winner>, w: nat, f: nat)
    requires w < |winners| && f < |folds|
    ensures var rows, runs := CrossRows(engine, t, score, firstId, folds, winners), Batch(t, folds, winners);
            var k := RunIndex(|folds|, w, f);
            k < |rows| == |runs| && rows[k].foldIndex < |folds| && ReplayRun(t, folds, rows[k]) == runs[k]
  {
    hide CrossEntries, CrossRows, Batch, StartsWith, Evaluate, RunIndex;
    CrossRun(engine, t, score, firstId, folds, winners, w, f);
    CrossPhase(f);
  }

  // ----- the final choice

  datatype Choice = Chosen(outcome: Outcome) | NoneAccepted | Raises

  const TIE_EPSILON := 0.000001

  predicate AtLeast(a: Score, b: Score) {
    b == NegInf || (a.Finite? && a.value >= b.value)
  }

  function Accepted(cross: seq<Outcome>): seq<Outcome> {
    if cross == [] then []
    else (if cross[0].accepted then [cross[0]] else []) + Accepted(cross[1..])
  }

  function BestScore(cs: seq<Outcome>): (s: Score)
    requires cs != []
    ensures forall c :: c in cs ==> AtLeast(s, c.score)
    ensures exists c :: c in cs && c.score == s
  {
    if |cs| == 1 then
      assert cs[0] in cs;
      cs[0].score
    else
      var rest := BestScore(cs[1..]);
      assert cs == [cs[0]] + cs[1..] && cs[0] in cs;
      assert forall c :: c in cs <==> c == cs[0] || c in cs[1..];
      if AtLeast(cs[0].score, rest) then cs[0].score else rest
  }

  /** Within the tie margin of the best score. The difference of two infinities compares with nothing. */
  predicate Contends(c: Outcome, best: Score) {
    c.score.Finite? && best.Finite? && best.value - c.score.value <= TIE_EPSILON
    && c.score.value - best.value <= TIE_EPSILON
  }

  function Contenders(cs: seq<Outcome>, best: Score): seq<Outcome> {
    if cs == [] then []
    else (if Contends(cs[0], best) then [cs[0]] else []) + Contenders(cs[1..], best)
  }

  /** `min` by variance: the first of the least. */
  function Steadiest(cs: seq<Outcome>): (c: Outcome)
    requires cs != []
    ensures c in cs && forall d :: d in cs ==> c.variance <= d.variance
  {
    if |cs| == 1 then cs[0]
    else
      var rest := Steadiest(cs[1..]);
      assert cs == [cs[0]] + cs[1..];
      if cs[0].variance <= rest.variance then cs[0] else rest
  }

  function SelectFinal(cross: seq<Outcome>): Choice {
    var accepted := Accepted(cross);
    if accepted == [] then NoneAccepted
    else
      var contenders := Contenders(accepted, BestScore(accepted));
      if contenders == [] then Raises
      else if |contenders| == 1 then Chosen(contenders[0])
      else Chosen(Steadiest(contenders))
  }

  lemma {:induction false} AcceptedMembers(cross: seq<Outcome>)
    ensures forall c :: c in Accepted(cross) <==> c in cross && c.accepted
  {
    if cross != [] {
      AcceptedMembers(cross[1..]);
      assert forall c :: c in cross <==> c == cross[0] || c in cross[1..];
    }
  }

  lemma {:induction false} ContendersMembers(cs: seq<Outcome>, best: Score)
    ensures forall c :: c in Contenders(cs, best) <==> c in cs && Contends(c, best)
  {
    if cs != [] {
      ContendersMembers(cs[1..], best);
      assert forall c :: c in cs <==> c == cs[0] || c in cs[1..];
    }
  }

  /** The choice is an accepted candidate whose score no accepted one exceeds by more than the margin, and among
      all such candidates it has the least variance. There is none exactly when none was accepted; and the code
      fails on an empty `min` exactly when there are accepted candidates, all scored minus infinity. */
  lemma SelectFinalExactly(cross: seq<Outcome>)
    ensures SelectFinal(cross) == NoneAccepted <==> forall c :: c in cross ==> !c.accepted
    ensures SelectFinal(cross) == Raises <==>
            (exists c :: c in cross && c.accepted) && forall c :: c in cross && c.accepted ==> c.score == NegInf
    ensures SelectFinal(cross).Chosen? ==>
              var x := SelectFinal(cross).outcome;
              && x in cross && x.accepted && x.score.Finite?
              && (forall c :: c in cross && c.accepted && c.score.Finite? ==>
                  c.score.value <= x.score.value + TIE_EPSILON)
              && (forall c :: c in cross && c.accepted && Contends(c, BestScore(Accepted(cross))) ==>
                  x.variance <= c.variance)
  {
    var accepted := Accepted(cross);
    AcceptedMembers(cross);
    assert accepted != [] ==> accepted[0] in accepted;
    if accepted != [] {
      var best := BestScore(accepted);
      var contenders := Contenders(accepted, best);
      ContendersMembers(accepted, best);
      var c :| c in accepted && c.score == best;
      assert best.Finite? ==> c in contenders;
      assert contenders != [] ==> contenders[0] in contenders;
    }
  }

  /** Why a winner is not accepted: the violations of its rejecting folds, or that it is below the gate if there are
      none to name. */
  lemma OutcomeReason(engine: seq<Run> -> Status, t: Template, score: Metrics -> Evaluation, folds: seq<Fold>,
                      winners: seq<Winner>, w: nat)
    requires w < |winners| && folds != []
    ensures var cross, own := CrossOutcomes(engine, t, score, folds, winners), OwnEntries(engine, t, folds, winners, w);
            var named := JoinWith(FoldViolations(Evaluations(score, own)));
            && w < |cross|
            && cross[w].rejectReason == if cross[w].accepted then "" else if named == "" then "below_gate" else named
  {
    hide Plan, Picked, CrossEntries, FoldViolations, FiniteScores, Mean, Variance;
    CrossOutcome(engine, t, score, folds, winners, w);
  }

  // ----- when the final choice fails after cross-validation

  lemma {:induction false} AllFiniteExactly(os: seq<Evaluation>)
    ensures |FiniteScores(os)| <= |os|
    ensures |FiniteScores(os)| == |os| <==> forall o :: o in os ==> o.score.Finite?
  {
    if os != [] {
      var n := |os| - 1;
      AllFiniteExactly(os[..n]);
      assert os == os[..n] + [os[n]];
    }
  }

  /** Every run of a winner succeeded and was accepted. */
  predicate Passes(score: Metrics -> Evaluation, own: seq<Entry>) {
    forall f :: 0 <= f < |own| ==> own[f].ok && score(own[f].metrics).accepted
  }

  predicate SomeUnscored(score: Metrics -> Evaluation, own: seq<Entry>) {
    exists f :: 0 <= f < |own| && score(own[f].metrics).score == NegInf
  }

  lemma UnscoredExactly(score: Metrics -> Evaluation, winner: Winner, own: seq<Entry>)
    requires own != [] && Passes(score, own)
    ensures OutcomeOf(winner, MetricsOf(own), Evaluations(score, own)).score == NegInf <==> SomeUnscored(score, own)
  {
    hide FiniteScores, FoldViolations;
    var os := Evaluations(score, own);
    AllFiniteExactly(os);
    assert forall f :: 0 <= f < |own| ==> os[f] == score(own[f].metrics);
    if SomeUnscored(score, own) {
      var f :| 0 <= f < |own| && score(own[f].metrics).score == NegInf;
      assert os[f] in os;
    }
  }

  /** The final choice fails on what cross-validation hands it exactly when some winner passed every fold, and each
      winner that did has a fold whose accepted score is minus infinity. */
  lemma FinalChoiceFailsExactly(engine: seq<Run> -> Status, t: Template, score: Metrics -> Evaluation,
                                folds: seq<Fold>, winners: seq<Winner>)
    ensures SelectFinal(CrossOutcomes(engine, t, score, folds, winners)) == Raises <==>
            && folds != []
            && (exists w: nat :: w < |winners| && Passes(score, OwnEntries(engine, t, folds, winners, w)))
            && forall w: nat :: w < |winners| && Passes(score, OwnEntries(engine, t, folds, winners, w)) ==>
                 SomeUnscored(score, OwnEntries(engine, t, folds, winners, w))
  {
    hide OwnEntries, Evaluations, MetricsOf, Passes, SomeUnscored, SelectFinal, CrossOutcomes;
    var cross := CrossOutcomes(engine, t, score, folds, winners);
    SelectFinalExactly(cross);
    NoCross(engine, t, score, folds, winners);
    if folds != [] {
      forall w: nat | w < |winners|
        ensures |cross| == |winners| && (cross[w].accepted <==> Passes(score, OwnEntries(engine, t, folds, winners, w)))
        ensures cross[w].accepted ==>
                  (cross[w].score == NegInf <==> SomeUnscored(score, OwnEntries(engine, t, folds, winners, w)))
      {
        OutcomeScore(engine, t, score, folds, winners, w);
      }
      if exists w: nat :: w < |winners| && Passes(score, OwnEntries(engine, t, folds, winners, w)) {
        var w: nat :| w < |winners| && Passes(score, OwnEntries(engine, t, folds, winners, w));
        assert cross[w] in cross;
      }
      assert forall w: nat :: w < |cross| ==> cross[w] in cross;
    }
  }

  lemma NoCross(engine: seq<Run> -> Status, t: Template, score: Metrics -> Evaluation, folds: seq<Fold>,
                winners: seq<Winner>)
    ensures var cross := CrossOutcomes(engine, t, score, folds, winners);
            |cross| == if folds == [] then 0 else |winners|
  {}

  lemma OutcomeScore(engine: seq<Run> -> Status, t: Template, score: Metrics -> Evaluation, folds: seq<Fold>,
                     winners: seq<Winner>, w: nat)
    requires w < |winners| && folds != []
    ensures var cross, own := CrossOutcomes(engine, t, score, folds, winners), OwnEntries(engine, t, folds, winners, w);
            && |cross| == |winners| && (cross[w].accepted <==> Passes(score, own))
            && (Passes(score, own) ==> (cross[w].score == NegInf <==> SomeUnscored(score, own)))
  {
    hide Plan, Picked, Evaluations, MetricsOf, OutcomeOf, SomeUnscored, CrossEntries;
    CrossOutcome(engine, t, score, folds, winners, w);
    OwnEntriesAreOwn(engine, t, folds, winners, w);
    var own := OwnEntries(engine, t, folds, winners, w);
    assert CrossOutcomes(engine, t, score, folds, winners)[w]
        == OutcomeOf(winners[w], MetricsOf(own), Evaluations(score, own));
    if Passes(score, own) {
      UnscoredExactly(score, winners[w], own);
    }
  }

  /** An objective that accepts everything, at minus infinity. */
  function AcceptAll(m: Metrics): Evaluation {
    Evaluation(true, NegInf, [], [])
  }

  /** It does happen: whenever some winner's runs all succeed, under an objective that accepts at minus infinity. */
  lemma AcceptedAtMinusInfinity(engine: seq<Run> -> Status, t: Template, folds: seq<Fold>, winners: seq<Winner>, w: nat)
    requires w < |winners| && folds != []
    ensures (forall f :: 0 <= f < |OwnEntries(engine, t, folds, winners, w)| ==>
               OwnEntries(engine, t, folds, winners, w)[f].ok) ==>
              SelectFinal(CrossOutcomes(engine, t, AcceptAll, folds, winners)) == Raises
  {
    hide OwnEntries, SelectFinal, CrossOutcomes;
    FinalChoiceFailsExactly(engine, t, AcceptAll, folds, winners);
    var own := OwnEntries(engine, t, folds, winners, w);
    if forall f :: 0 <= f < |own| ==> own[f].ok {
      assert Passes(AcceptAll, own);
      forall v: nat | v < |winners| ensures SomeUnscored(AcceptAll, OwnEntries(engine, t, folds, winners, v)) {
        OwnEntriesAreOwn(engine, t, folds, winners, v);
        assert AcceptAll(OwnEntries(engine, t, folds, winners, v)[0].metrics).score == NegInf;
      }
    }
  }
}
