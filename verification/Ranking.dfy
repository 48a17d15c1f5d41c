/** Hypothesis candidates and their composite rank score (nodes.py). */
module Ranking {
  import opened Basics

  /** `param_intent` of a proposed change; a list that is absent or not a list is `None`. */
  datatype ParamIntent = ParamIntent(added: Option<seq<string>>, removed: Option<seq<string>>)

  datatype Change =
    | Unstructured
    | Structured(paramIntent: Option<ParamIntent>, filesManifest: Option<seq<string>>,
                 deletedFiles: Option<seq<string>>)

  datatype Candidate = Candidate(name: string, lift: real, cites: nat, change: Change)

  datatype Weights = Weights(lift: real, evidence: real, complexityPenalty: real, simplicityBonus: real)

  const DEFAULT_WEIGHTS := Weights(0.55, 0.25, 0.15, 0.05)

  function Count(items: Option<seq<string>>): nat {
    match items
    case None => 0
    case Some(s) => |s|
  }

  function EvidenceStrength(c: Candidate): real {
    if c.cites == 0 then 0.0
    else if 0.4 + 0.2 * c.cites as real < 1.0 then 0.4 + 0.2 * c.cites as real
    else 1.0
  }

  /** Net additions: parameters added minus removed, plus files written minus files deleted. */
  function ComplexityDelta(change: Change): int {
    match change
    case Unstructured => 0
    case Structured(intent, files, deleted) =>
      var params := match intent
        case None => 0
        case Some(pi) => Count(pi.added) - Count(pi.removed);
      var components := if files.None? then 0 else Count(files) - Count(deleted);
      params + components
  }

  function RankScore(w: Weights, c: Candidate): real {
    var delta := ComplexityDelta(c.change);
    w.lift * c.lift + w.evidence * EvidenceStrength(c)
    - w.complexityPenalty * Max(0, delta) as real
    + w.simplicityBonus * Max(0, -delta) as real
  }

  // ----- what the score prefers

  /** Beyond three citations a further one adds nothing. */
  function CountedCites(c: Candidate): nat {
    if c.cites < 3 then c.cites else 3
  }

  function NetAdditions(c: Candidate): int {
    ComplexityDelta(c.change)
  }

  /** No worse in lift, in counted citations and in net additions, and better in one of them. */
  predicate Dominates(a: Candidate, b: Candidate) {
    && a.lift >= b.lift && CountedCites(a) >= CountedCites(b) && NetAdditions(a) <= NetAdditions(b)
    && (a.lift > b.lift || CountedCites(a) > CountedCites(b) || NetAdditions(a) < NetAdditions(b))
  }

  /** One citation, or a second, or a third: fifths of the full evidence. */
  function EvidenceFifths(cites: nat): int {
    match cites
    case 0 => 0
    case 1 => 3
    case 2 => 4
    case _ => 5
  }

  /** The default trade-off in whole numbers: eleven points a unit of lift, one a fifth of the evidence; a net addition
      costs three, and a net removal earns one. */
  lemma RanksAboveExactly(a: Candidate, b: Candidate)
    ensures RankScore(DEFAULT_WEIGHTS, a) > RankScore(DEFAULT_WEIGHTS, b) <==>
            11.0 * (a.lift - b.lift) + (EvidenceFifths(a.cites) - EvidenceFifths(b.cites)) as real
            > (Burden(NetAdditions(a)) - Burden(NetAdditions(b))) as real
  {
    EvidenceInFifths(a);
    EvidenceInFifths(b);
  }

  function Burden(net: int): int {
    if net > 0 then 3 * net else net
  }

  lemma EvidenceInFifths(c: Candidate)
    ensures 5.0 * EvidenceStrength(c) == EvidenceFifths(c.cites) as real
  {}

  /** What dominates ranks strictly higher. */
  lemma DominatingRanksHigher(a: Candidate, b: Candidate)
    ensures Dominates(a, b) ==> RankScore(DEFAULT_WEIGHTS, a) > RankScore(DEFAULT_WEIGHTS, b)
  {
    RanksAboveExactly(a, b);
  }

  /** Equal but for one of the three, the better one ranks strictly higher, and only it: the more promising, the more
      often cited up to the cap, the simpler change. */
  lemma BetterRanksHigher(a: Candidate, b: Candidate)
    ensures a.cites == b.cites && NetAdditions(a) == NetAdditions(b) ==>
              (RankScore(DEFAULT_WEIGHTS, a) > RankScore(DEFAULT_WEIGHTS, b) <==> a.lift > b.lift)
    ensures a.lift == b.lift && NetAdditions(a) == NetAdditions(b) ==>
              (RankScore(DEFAULT_WEIGHTS, a) > RankScore(DEFAULT_WEIGHTS, b) <==> CountedCites(a) > CountedCites(b))
    ensures a.lift == b.lift && a.cites == b.cites ==>
              (RankScore(DEFAULT_WEIGHTS, a) > RankScore(DEFAULT_WEIGHTS, b) <==> NetAdditions(a) < NetAdditions(b))
  {
    RanksAboveExactly(a, b);
  }

  /** Every added parameter and every file counts one up, every removed parameter and every deleted file one down, the
      deleted ones only beside a list of files; lists that are missing count nothing. */
  lemma NetAdditionsCount(intent: Option<ParamIntent>, files: Option<seq<string>>, deleted: Option<seq<string>>,
                          added: seq<string>, removed: seq<string>, more: string)
    ensures ComplexityDelta(Unstructured) == ComplexityDelta(Structured(None, None, deleted)) == 0
    ensures ComplexityDelta(Structured(Some(ParamIntent(None, None)), files, deleted))
            == ComplexityDelta(Structured(Some(ParamIntent(Some([]), Some([]))), files, deleted))
            == ComplexityDelta(Structured(None, files, deleted))
    ensures ComplexityDelta(Structured(intent, Some([]), Some([])))
            == ComplexityDelta(Structured(intent, Some([]), None))
            == ComplexityDelta(Structured(intent, None, deleted))
    ensures ComplexityDelta(Structured(Some(ParamIntent(Some(added + [more]), Some(removed))), files, deleted))
            == ComplexityDelta(Structured(Some(ParamIntent(Some(added), Some(removed))), files, deleted)) + 1
    ensures ComplexityDelta(Structured(Some(ParamIntent(Some(added), Some(removed + [more]))), files, deleted))
            == ComplexityDelta(Structured(Some(ParamIntent(Some(added), Some(removed))), files, deleted)) - 1
    ensures ComplexityDelta(Structured(intent, Some(added + [more]), Some(removed)))
            == ComplexityDelta(Structured(intent, Some(added), Some(removed))) + 1
    ensures ComplexityDelta(Structured(intent, Some(added), Some(removed + [more])))
            == ComplexityDelta(Structured(intent, Some(added), Some(removed))) - 1
  {}
}
