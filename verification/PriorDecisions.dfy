/**
  What one run leaves in the ledger and what later runs read back (hypothesize.py, per_strategy_ledger.py): final
  candidates are persisted as decisions with their hypotheses, mechanical failures as deferred, and the most
  recent decisions are projected for the next ideation. Identifiers and times are inputs.
*/
module PriorDecisions {
  import opened Basics
  import opened RejectTaxonomy
  import opened StableSort

  /** A final candidate of a run; `idea` stands for everything the hypothesis row stores of it. */
  datatype Candidate =
    | Accepted(idea: string, rationale: string, evidence: map<string, string>)
    | Rejected(idea: string, reason: string, rejectKind: Option<string>)

  datatype Stamp = Stamp(decisionId: string, hypothesisId: string, now: int, filesHash: string)

  /** A candidate together with the identifiers and the time it was persisted under. */
  datatype Persisted = Persisted(candidate: Candidate, stamp: Stamp)

  datatype DecisionKind = ACCEPTED | REJECTED | DEFERRED

  datatype Hypothesis = Hypothesis(id: string, idea: string)

  datatype Decision = Decision(id: string, hypothesisId: string, kind: DecisionKind, stage: Option<string>,
                               rationale: string, evidence: map<string, string>, decidedAt: int)

  datatype Prior = Prior(decisionId: string, kind: DecisionKind, rationale: string, evidence: map<string, string>,
                         decidedAt: int, hypothesis: Hypothesis)

  datatype Rows = Rows(hypotheses: seq<Hypothesis>, decisions: seq<Decision>)

  predicate MechanicallyRejected(c: Candidate) {
    c.Rejected? && c.rejectKind.Some? && IsMechanical(c.rejectKind.value)
  }

  function KindOf(c: Candidate): DecisionKind {
    if c.Accepted? then ACCEPTED else if MechanicallyRejected(c) then DEFERRED else REJECTED
  }

  /** The evidence a candidate is persisted with; an empty kind counts as none. */
  function EvidenceOf(c: Candidate): map<string, string> {
    match c
    case Accepted(_, _, evidence) => evidence
    case Rejected(_, _, kind) => if kind.Some? && kind.value != "" then map["reject_kind" := kind.value] else map[]
  }

  function RationaleOf(c: Candidate): string {
    if c.Accepted? then c.rationale else c.reason
  }

  function DecisionOf(p: Persisted): Decision {
    var evidence := EvidenceOf(p.candidate);
    Decision(p.stamp.decisionId, p.stamp.hypothesisId, KindOf(p.candidate),
             if KindOf(p.candidate) != ACCEPTED && "reject_kind" in evidence
             then Some(evidence["reject_kind"]) else None,
             RationaleOf(p.candidate), evidence["files_set_hash" := p.stamp.filesHash], p.stamp.now)
  }

  function HypothesisOf(p: Persisted): Hypothesis {
    Hypothesis(p.stamp.hypothesisId, p.candidate.idea)
  }

  /** The prior decision a later run should see of a persisted candidate. */
  function PriorOf(p: Persisted): Prior {
    var d := DecisionOf(p);
    Prior(d.id, d.kind, d.rationale, d.evidence, d.decidedAt, HypothesisOf(p))
  }

  /** What a persisted candidate's rows say of it: the idea under the hypothesis it was given, and a decision of its
      kind with its rationale, its time, the hash of its files, and for a rejection the kind it was rejected with, as
      stage and in the evidence, unless that is empty. */
  lemma PersistedAsItIs(p: Persisted)
    ensures var c, d := p.candidate, DecisionOf(p);
            && HypothesisOf(p) == Hypothesis(p.stamp.hypothesisId, c.idea)
            && d.id == p.stamp.decisionId && d.hypothesisId == p.stamp.hypothesisId && d.decidedAt == p.stamp.now
            && d.evidence.Keys == EvidenceOf(c).Keys + {"files_set_hash"}
            && d.evidence["files_set_hash"] == p.stamp.filesHash
            && match c
               case Accepted(_, rationale, evidence) =>
                 && d.kind == ACCEPTED && d.rationale == rationale && d.stage == None
                 && forall k :: k in evidence && k != "files_set_hash" ==>
                      k in d.evidence && d.evidence[k] == evidence[k]
               case Rejected(_, reason, kind) =>
                 && d.rationale == reason
                 && (d.kind == DEFERRED <==> kind.Some? && IsMechanical(kind.value)) && d.kind != ACCEPTED
                 && (kind.Some? && kind.value != "" ==>
                       d.stage == kind && "reject_kind" in d.evidence && d.evidence["reject_kind"] == kind.value)
                 && (kind.None? || kind.value == "" ==> d.stage == None && d.evidence.Keys == {"files_set_hash"})
  {}

  /** And a later run sees just that. */
  lemma SeenAsPersisted(p: Persisted)
    ensures var d, q := DecisionOf(p), PriorOf(p);
            && q.decisionId == d.id && q.kind == d.kind && q.rationale == d.rationale && q.evidence == d.evidence
            && q.decidedAt == d.decidedAt && q.hypothesis == HypothesisOf(p)
  {}

  // ----- the ledger

  function When(d: Decision): real {
    d.decidedAt as real
  }

  /** The most recent decisions first, at most `limit` of them. */
  function Recent(decisions: seq<Decision>, limit: nat): seq<Decision> {
    Take(Sort(When, decisions), limit)
  }

  function FindHypothesis(hypotheses: seq<Hypothesis>, id: string): Option<Hypothesis> {
    if hypotheses == [] then None
    else if hypotheses[0].id == id then Some(hypotheses[0])
    else FindHypothesis(hypotheses[1..], id)
  }

  function ProjectAll(hypotheses: seq<Hypothesis>, decisions: seq<Decision>): seq<Prior> {
    if decisions == [] then []
    else
      var n := |decisions| - 1;
      var d := decisions[n];
      var match_ := FindHypothesis(hypotheses, d.hypothesisId);
      ProjectAll(hypotheses, decisions[..n])
      + (if d.kind == DEFERRED || match_.None? then []
         else
           var kind := if d.kind == ACCEPTED then ACCEPTED else REJECTED;
           [Prior(d.id, kind, d.rationale, d.evidence, d.decidedAt, match_.value)])
  }

  function Project(rows: Rows, limit: nat): seq<Prior> {
    ProjectAll(rows.hypotheses, Recent(rows.decisions, limit))
  }

  class Ledger {
    var hypotheses: seq<Hypothesis>
    var decisions: seq<Decision>

    constructor ()
      ensures Contents() == Rows([], [])
    {
      hypotheses, decisions := [], [];
    }

    function Contents(): Rows
      reads this
    {
      Rows(hypotheses, decisions)
    }

    method PersistCandidate(c: Candidate, stamp: Stamp)
      modifies this
      ensures Contents() == Persist(old(Contents()), Persisted(c, stamp))
    {
      var kind := if c.Accepted? then ACCEPTED
                  else if c.rejectKind.Some? && IsMechanical(c.rejectKind.value) then DEFERRED else REJECTED;
      var evidence := EvidenceOf(c);
      hypotheses := hypotheses + [Hypothesis(stamp.hypothesisId, c.idea)];
      var stage := None;
      if kind != ACCEPTED && "reject_kind" in evidence {
        stage := Some(evidence["reject_kind"]);
      }
      decisions := decisions + [Decision(stamp.decisionId, stamp.hypothesisId, kind, stage, RationaleOf(c),
                                         evidence["files_set_hash" := stamp.filesHash], stamp.now)];
    }

    /** The end of a run: first the accepted candidates, then the rejected ones. */
    method PersistRun(accepted: seq<Persisted>, rejected: seq<Persisted>)
      modifies this
      ensures Contents() == PersistAll(old(Contents()), accepted + rejected)
    {
      hide Persist;
      for i := 0 to |accepted|
        invariant Contents() == PersistAll(old(Contents()), accepted[..i])
      {
        assert accepted[..i + 1][..i] == accepted[..i];
        PersistCandidate(accepted[i].candidate, accepted[i].stamp);
      }
      assert accepted[..|accepted|] == accepted && accepted + rejected[..0] == accepted;
      for i := 0 to |rejected|
        invariant Contents() == PersistAll(old(Contents()), accepted + rejected[..i])
      {
        assert (accepted + rejected[..i + 1])[..|accepted| + i] == accepted + rejected[..i];
        PersistCandidate(rejected[i].candidate, rejected[i].stamp);
      }
      assert rejected[..|rejected|] == rejected;
    }

    method ProjectPriorDecisions(limit: nat) returns (priors: seq<Prior>)
      ensures priors == Project(Contents(), limit)
    {
      priors := [];
      var recent := Recent(decisions, limit);
      for i := 0 to |recent|
        invariant priors == ProjectAll(hypotheses, recent[..i])
      {
        assert recent[..i + 1][..i] == recent[..i];
        var d := recent[i];
        if d.kind == DEFERRED {
          continue;
        }
        var found := FindHypothesis(hypotheses, d.hypothesisId);
        if found.None? {
          continue;
        }
        priors := priors + [Prior(d.id, if d.kind == ACCEPTED then ACCEPTED else REJECTED, d.rationale, d.evidence,
                                  d.decidedAt, found.value)];
      }
      assert recent[..|recent|] == recent;
    }
  }

  function Persist(rows: Rows, p: Persisted): Rows {
    Rows(rows.hypotheses + [HypothesisOf(p)], rows.decisions + [DecisionOf(p)])
  }

  function PersistAll(rows: Rows, ps: seq<Persisted>): Rows {
    if ps == [] then rows else Persist(PersistAll(rows, ps[..|ps| - 1]), ps[|ps| - 1])
  }

  // ----- what later runs see

  function Decisions(ps: seq<Persisted>): seq<Decision> {
    seq(|ps|, i requires 0 <= i < |ps| => DecisionOf(ps[i]))
  }

  function Hypotheses(ps: seq<Persisted>): seq<Hypothesis> {
    seq(|ps|, i requires 0 <= i < |ps| => HypothesisOf(ps[i]))
  }

  lemma {:induction false} AllPersisted(ps: seq<Persisted>)
    ensures PersistAll(Rows([], []), ps) == Rows(Hypotheses(ps), Decisions(ps))
  {
    hide DecisionOf, HypothesisOf;
    if ps != [] {
      AllPersisted(ps[..|ps| - 1]);
    }
  }

  function WhenPersisted(p: Persisted): real {
    p.stamp.now as real
  }

  lemma DecisionsCons(p: Persisted, ps: seq<Persisted>)
    ensures Decisions([p] + ps) == [DecisionOf(p)] + Decisions(ps)
  {}

  lemma {:induction false} InsertDecision(p: Persisted, ps: seq<Persisted>)
    ensures Insert(When, DecisionOf(p), Decisions(ps)) == Decisions(Insert(WhenPersisted, p, ps))
  {
    if ps == [] {
      DecisionsCons(p, ps);
    } else {
      assert ps == [ps[0]] + ps[1..];
      DecisionsCons(ps[0], ps[1..]);
      DecisionsCons(p, ps);
      if When(Decisions(ps)[0]) > When(DecisionOf(p)) {
        InsertDecision(p, ps[1..]);
        DecisionsCons(ps[0], Insert(WhenPersisted, p, ps[1..]));
        assert Decisions(ps)[1..] == Decisions(ps[1..]);
      }
    }
  }

  /** Sorting the decision rows is sorting the candidates they were made of. */
  lemma {:induction false} SortDecisions(ps: seq<Persisted>)
    ensures Sort(When, Decisions(ps)) == Decisions(Sort(WhenPersisted, ps))
  {
    if ps != [] {
      assert ps == [ps[0]] + ps[1..];
      DecisionsCons(ps[0], ps[1..]);
      assert Decisions(ps)[1..] == Decisions(ps[1..]);
      SortDecisions(ps[1..]);
      InsertDecision(ps[0], Sort(WhenPersisted, ps[1..]));
    }
  }

  /** Identifiers are fresh. */
  predicate FreshIds(ps: seq<Persisted>) {
    forall i, j :: 0 <= i < j < |ps| ==>
      ps[i].stamp.decisionId != ps[j].stamp.decisionId && ps[i].stamp.hypothesisId != ps[j].stamp.hypothesisId
  }

  lemma {:induction false} OwnHypothesis(ps: seq<Persisted>, p: Persisted)
    requires FreshIds(ps) && p in ps
    ensures FindHypothesis(Hypotheses(ps), p.stamp.hypothesisId) == Some(HypothesisOf(p))
  {
    assert Hypotheses(ps)[1..] == Hypotheses(ps[1..]);
    if p != ps[0] {
      var i :| 0 <= i < |ps| && ps[i] == p;
      assert ps[1..][i - 1] == p;
      OwnHypothesis(ps[1..], p);
    }
  }

  /** The candidates that count for later ideation, as later runs see them. */
  function Remembered(ps: seq<Persisted>): seq<Prior> {
    if ps == [] then []
    else
      var n := |ps| - 1;
      Remembered(ps[..n]) + (if MechanicallyRejected(ps[n].candidate) then [] else [PriorOf(ps[n])])
  }

  lemma {:induction false} ProjectsOwn(all: seq<Persisted>, ps: seq<Persisted>)
    requires FreshIds(all) && forall p :: p in ps ==> p in all
    ensures ProjectAll(Hypotheses(all), Decisions(ps)) == Remembered(ps)
  {
    if ps != [] {
      var n := |ps| - 1;
      assert Decisions(ps)[..n] == Decisions(ps[..n]);
      ProjectsOwn(all, ps[..n]);
      OwnHypothesis(all, ps[n]);
    }
  }

  /** After any sequence of runs, the prior decisions are exactly the candidates among the `limit` most recent ones
      that were not mechanically rejected: each once, in order of recency, with its own kind, rationale, evidence
      and hypothesis. */
  lemma PriorsExactly(ps: seq<Persisted>, limit: nat)
    requires FreshIds(ps)
    ensures Project(PersistAll(Rows([], []), ps), limit) == Remembered(Take(Sort(WhenPersisted, ps), limit))
  {
    hide FreshIds, Decisions, Hypotheses, ProjectAll, Remembered, Sort;
    AllPersisted(ps);
    SortDecisions(ps);
    var sorted := Sort(WhenPersisted, ps);
    TakeDecisions(sorted, limit);
    SortKeepsMembers(WhenPersisted, ps);
    ProjectsOwn(ps, Take(sorted, limit));
  }

  lemma TakeDecisions(ps: seq<Persisted>, n: nat)
    ensures Take(Decisions(ps), n) == Decisions(Take(ps, n))
  {}

  lemma {:induction false} RememberedMembers(ps: seq<Persisted>)
    ensures forall q :: q in Remembered(ps) <==>
            exists p :: p in ps && !MechanicallyRejected(p.candidate) && q == PriorOf(p)
  {
    hide PriorOf, MechanicallyRejected;
    if ps != [] {
      var n := |ps| - 1;
      RememberedMembers(ps[..n]);
      assert forall p :: p in ps <==> p in ps[..n] || p == ps[n];
    }
  }

  predicate DistinctDecisions(ps: seq<Persisted>) {
    forall i, j :: 0 <= i < j < |ps| ==> ps[i].stamp.decisionId != ps[j].stamp.decisionId
  }

  predicate ListedOnce(priors: seq<Prior>) {
    forall i, j :: 0 <= i < j < |priors| ==> priors[i].decisionId != priors[j].decisionId
  }

  lemma {:induction false} RememberedOnce(ps: seq<Persisted>)
    requires DistinctDecisions(ps)
    ensures ListedOnce(Remembered(ps))
  {
    hide MechanicallyRejected;
    if ps != [] {
      var n := |ps| - 1;
      var before := Remembered(ps[..n]);
      RememberedOnce(ps[..n]);
      RememberedMembers(ps[..n]);
      forall i | 0 <= i < |before| ensures before[i].decisionId != ps[n].stamp.decisionId {
        assert before[i] in before;
        var p :| p in ps[..n] && before[i] == PriorOf(p);
        var k :| 0 <= k < n && ps[k] == p;
      }
    }
  }

  /** The most recent candidates of all runs, deferred ones included. */
  function Window(ps: seq<Persisted>, limit: nat): seq<Persisted> {
    Take(Sort(WhenPersisted, ps), limit)
  }

  lemma {:induction false} InsertKeepsDistinct(p: Persisted, ps: seq<Persisted>)
    requires DistinctDecisions(ps) && forall q :: q in ps ==> q.stamp.decisionId != p.stamp.decisionId
    ensures DistinctDecisions(Insert(WhenPersisted, p, ps))
    ensures forall q :: q in Insert(WhenPersisted, p, ps) <==> q == p || q in ps
  {
    if ps != [] && WhenPersisted(ps[0]) > WhenPersisted(p) {
      assert ps == [ps[0]] + ps[1..];
      InsertKeepsDistinct(p, ps[1..]);
      var rest := Insert(WhenPersisted, p, ps[1..]);
      assert forall k :: 0 <= k < |rest| ==> rest[k] in rest;
      forall q | q in ps[1..] ensures q.stamp.decisionId != ps[0].stamp.decisionId {
        var k :| 0 <= k < |ps[1..]| && ps[1..][k] == q;
        assert ps[k + 1] == q;
      }
    }
  }

  lemma {:induction false} SortKeepsDistinct(ps: seq<Persisted>)
    requires DistinctDecisions(ps)
    ensures DistinctDecisions(Sort(WhenPersisted, ps))
  {
    if ps != [] {
      SortKeepsDistinct(ps[1..]);
      SortKeepsMembers(WhenPersisted, ps[1..]);
      forall q | q in Sort(WhenPersisted, ps[1..]) ensures q.stamp.decisionId != ps[0].stamp.decisionId {
        var k :| 0 <= k < |ps[1..]| && ps[1..][k] == q;
        assert ps[k + 1] == q;
      }
      InsertKeepsDistinct(ps[0], Sort(WhenPersisted, ps[1..]));
    }
  }

  /** The ledger after a sequence of runs, each given by its final candidates in the order they are persisted. */
  function AfterRuns(runs: seq<seq<Persisted>>): Rows {
    if runs == [] then Rows([], []) else PersistAll(AfterRuns(runs[..|runs| - 1]), runs[|runs| - 1])
  }

  lemma {:induction false} PersistMore(rows: Rows, ps: seq<Persisted>, more: seq<Persisted>)
    ensures PersistAll(PersistAll(rows, ps), more) == PersistAll(rows, ps + more)
    decreases |more|
  {
    hide Persist;
    if more == [] {
      assert ps + more == ps;
    } else {
      assert (ps + more)[..|ps + more| - 1] == ps + more[..|more| - 1];
      PersistMore(rows, ps, more[..|more| - 1]);
    }
  }

  /** Only the candidates of all runs together matter, not how they are spread over the runs. */
  lemma {:induction false} RunsPersistInOrder(runs: seq<seq<Persisted>>)
    ensures AfterRuns(runs) == PersistAll(Rows([], []), Concat(runs))
  {
    hide Persist;
    if runs != [] {
      var n := |runs| - 1;
      RunsPersistInOrder(runs[..n]);
      PersistMore(Rows([], []), Concat(runs[..n]), runs[n]);
      ConcatAppend(runs[..n], runs[n]);
      assert runs == runs[..n] + [runs[n]];
    }
  }

  /** After any sequence of runs no decision is listed twice, a mechanically rejected candidate never is, and any
      other candidate is listed exactly when it is among the `limit` most recent ones. */
  lemma ListedExactly(runs: seq<seq<Persisted>>, limit: nat)
    requires FreshIds(Concat(runs))
    ensures var ps, priors := Concat(runs), Project(AfterRuns(runs), limit);
            && ListedOnce(priors)
            && (forall p :: p in ps ==>
                  ((exists q :: q in priors && q.decisionId == p.stamp.decisionId) <==>
                     p in Window(ps, limit) && !MechanicallyRejected(p.candidate)))
            && (forall p :: p in Window(ps, limit) && !MechanicallyRejected(p.candidate) ==> PriorOf(p) in priors)
  {
    hide Project, PersistAll, Sort, Remembered, MechanicallyRejected, KindOf, EvidenceOf;
    hide Concat;
    var ps := Concat(runs);
    var window := Window(ps, limit);
    RunsPersistInOrder(runs);
    PriorsExactly(ps, limit);
    SortKeepsDistinct(ps);
    SortKeepsMembers(WhenPersisted, ps);
    RememberedOnce(window);
    RememberedMembers(window);
    forall p | p in ps
      ensures (exists q :: q in Remembered(window) && q.decisionId == p.stamp.decisionId) <==>
              p in window && !MechanicallyRejected(p.candidate)
    {
      if p in window && !MechanicallyRejected(p.candidate) {
        assert PriorOf(p) in Remembered(window) && PriorOf(p).decisionId == p.stamp.decisionId;
      }
      if exists q :: q in Remembered(window) && q.decisionId == p.stamp.decisionId {
        var q :| q in Remembered(window) && q.decisionId == p.stamp.decisionId;
        var o :| o in window && !MechanicallyRejected(o.candidate) && q == PriorOf(o);
        SameIdSame(ps, o, p);
      }
    }
  }

  lemma SameIdSame(ps: seq<Persisted>, o: Persisted, p: Persisted)
    requires FreshIds(ps) && o in ps && p in ps && o.stamp.decisionId == p.stamp.decisionId
    ensures o == p
  {}

  /** Deferred decisions are left out only after the limit has been applied, so each of the most recent ones takes
      a place: with `limit` newer mechanical failures, no older decision is seen at all. */
  lemma DeferredUseTheLimit(older: seq<Persisted>, failures: seq<Persisted>, limit: nat)
    requires FreshIds(older + failures) && limit <= |failures|
    requires forall f :: f in failures ==> MechanicallyRejected(f.candidate)
    requires AllNewer(older, failures)
    ensures Project(PersistAll(Rows([], []), older + failures), limit) == []
  {
    var ps := older + failures;
    hide Project, PersistAll, MechanicallyRejected, FreshIds;
    PriorsExactly(ps, limit);
    RememberedMembers(Window(ps, limit));
    NewestAreFailures(older, failures, limit);
    FirstIn(Remembered(Window(ps, limit)));
  }

  predicate AllNewer(older: seq<Persisted>, newer: seq<Persisted>) {
    forall o, f :: o in older && f in newer ==> o.stamp.now < f.stamp.now
  }

  lemma NewestAreFailures(older: seq<Persisted>, failures: seq<Persisted>, limit: nat)
    requires limit <= |failures| && AllNewer(older, failures)
    ensures forall p :: p in Window(older + failures, limit) ==> p in failures
  {
    hide Sort, AllNewer;
    var a := Sort(WhenPersisted, failures);
    SortSplits(older, failures);
    SortKeepsMembers(WhenPersisted, failures);
    assert (a + Sort(WhenPersisted, older))[..limit] == a[..limit];
  }

  lemma SortSplits(older: seq<Persisted>, newer: seq<Persisted>)
    requires AllNewer(older, newer)
    ensures Sort(WhenPersisted, older + newer) == Sort(WhenPersisted, newer) + Sort(WhenPersisted, older)
  {
    hide Sort, AllNewer, WithKey, SortedDesc;
    var ps := older + newer;
    var a, b := Sort(WhenPersisted, newer), Sort(WhenPersisted, older);
    SortIsStable(WhenPersisted, newer);
    SortIsStable(WhenPersisted, older);
    SortIsStable(WhenPersisted, ps);
    NewerFirst(older, newer);
    forall k: real ensures WithKey(WhenPersisted, a + b, k) == WithKey(WhenPersisted, Sort(WhenPersisted, ps), k) {
      ClassesConcat(WhenPersisted, a, b, k);
      ClassesConcat(WhenPersisted, older, newer, k);
      assert WithKey(WhenPersisted, ps, k) == WithKey(WhenPersisted, Sort(WhenPersisted, ps), k);
      assert WithKey(WhenPersisted, newer, k) == WithKey(WhenPersisted, a, k);
      assert WithKey(WhenPersisted, older, k) == WithKey(WhenPersisted, b, k);
      OneSideEmpty(older, newer, k);
    }
    StableSortIsUnique(WhenPersisted, a + b, Sort(WhenPersisted, ps));
  }

  lemma NewerFirst(older: seq<Persisted>, newer: seq<Persisted>)
    requires AllNewer(older, newer)
    ensures SortedDesc(WhenPersisted, Sort(WhenPersisted, newer) + Sort(WhenPersisted, older))
  {
    hide Sort;
    var a, b := Sort(WhenPersisted, newer), Sort(WhenPersisted, older);
    SortIsStable(WhenPersisted, newer);
    SortIsStable(WhenPersisted, older);
    SortKeepsMembers(WhenPersisted, newer);
    SortKeepsMembers(WhenPersisted, older);
    assert forall i :: 0 <= i < |a| ==> a[i] in newer;
    assert forall i :: 0 <= i < |b| ==> b[i] in older;
  }

  lemma OneSideEmpty(older: seq<Persisted>, newer: seq<Persisted>, k: real)
    requires AllNewer(older, newer)
    ensures WithKey(WhenPersisted, older, k) == [] || WithKey(WhenPersisted, newer, k) == []
  {
    hide WithKey;
    ClassMembers(WhenPersisted, older, k);
    ClassMembers(WhenPersisted, newer, k);
    var a, b := WithKey(WhenPersisted, older, k), WithKey(WhenPersisted, newer, k);
    FirstIn(a);
    FirstIn(b);
  }
}
