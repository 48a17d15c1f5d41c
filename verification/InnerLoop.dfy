/**
  The generate / critique / rank loop of nodes.py. The reasoning client is an arbitrary function of the pass number
  and of the place of the candidate in it, so every statement holds for every sequence of replies.
*/
module InnerLoop {
  import opened Basics
  import opened Ranking
  import opened StableSort

  datatype Reason = SufficientCandidates | SimilaritySaturation | BudgetExhausted

  datatype Critique = Critique(accept: bool, rationale: string)

  /** An accepted or rejected record: the candidate and the critic's reasoning. */
  datatype Entry = Entry(candidate: Candidate, rationale: string)

  datatype Prior = Prior(rejected: bool, candidate: Candidate)

  datatype Config = Config(iterationBudget: int, targetCandidates: int, similarityThreshold: real)

  datatype Client = Client(
    generate: (nat, int) -> seq<Candidate>,
    critique: (nat, nat, Candidate) -> Critique,
    similarity: (Candidate, seq<Candidate>) -> real)

  datatype State = State(
    diagnosed: bool, open: seq<Candidate>, accepted: seq<Entry>, rejected: seq<Entry>,
    prior: seq<Prior>, iteration: int)

  datatype Error = NoDiagnosis | NegativeTarget

  datatype Finished = Finished(state: State, reason: Reason, passes: nat)

  const SCORE: Entry -> real := (e: Entry) => RankScore(DEFAULT_WEIGHTS, e.candidate)

  // ----- nodes

  function GenerateNode(client: Client, cfg: Config, pass: nat, st: State): State {
    var n := Max(1, cfg.targetCandidates - |st.accepted|);
    st.(open := st.open + client.generate(pass, n))
  }

  /** The critiqued candidates whose verdict is `accept`, in submission order. */
  function Judged(client: Client, pass: nat, candidates: seq<Candidate>, accept: bool): seq<Entry> {
    if candidates == [] then []
    else
      var last := candidates[|candidates| - 1];
      var verdict := client.critique(pass, |candidates| - 1, last);
      Judged(client, pass, candidates[..|candidates| - 1], accept)
      + (if verdict.accept == accept then [Entry(last, verdict.rationale)] else [])
  }

  function Critiqued(client: Client, pass: nat, st: State): State {
    st.(open := [],
        accepted := st.accepted + Judged(client, pass, st.open, true),
        rejected := st.rejected + Judged(client, pass, st.open, false))
  }

  method CritiqueNode(client: Client, pass: nat, st: State) returns (r: State)
    ensures r == Critiqued(client, pass, st)
  {
    var accepted, rejected := st.accepted, st.rejected;
    for i := 0 to |st.open|
      invariant accepted == st.accepted + Judged(client, pass, st.open[..i], true)
      invariant rejected == st.rejected + Judged(client, pass, st.open[..i], false)
    {
      assert st.open[..i + 1][..i] == st.open[..i];
      var outcome := client.critique(pass, i, st.open[i]);
      if outcome.accept {
        accepted := accepted + [Entry(st.open[i], outcome.rationale)];
      } else {
        rejected := rejected + [Entry(st.open[i], outcome.rationale)];
      }
    }
    assert st.open[..|st.open|] == st.open;
    r := st.(open := [], accepted := accepted, rejected := rejected);
  }

  function RankNode(st: State): State {
    st.(accepted := Sort(SCORE, st.accepted))
  }

  function PriorRejectedCandidates(st: State): seq<Candidate> {
    seq(|st.rejected|, i requires 0 <= i < |st.rejected| => st.rejected[i].candidate) + RejectedPriors(st.prior)
  }

  function RejectedPriors(prior: seq<Prior>): seq<Candidate> {
    if prior == [] then []
    else (if prior[0].rejected then [prior[0].candidate] else []) + RejectedPriors(prior[1..])
  }

  /** A pass asks for as many drafts as are still missing, and for one at least. */
  lemma AsksForMissing(client: Client, cfg: Config, pass: nat, st: State)
    ensures var missing := cfg.targetCandidates - |st.accepted|;
            var drafts := GenerateNode(client, cfg, pass, st).open[|st.open|..];
            && GenerateNode(client, cfg, pass, st) == st.(open := st.open + drafts)
            && (missing >= 1 ==> drafts == client.generate(pass, missing))
            && (missing < 1 ==> drafts == client.generate(pass, 1))
  {}

  /** What new drafts are compared with: everything the critic has rejected in this run, and every prior that was
      rejected. */
  lemma ComparedWith(st: State, c: Candidate)
    ensures c in PriorRejectedCandidates(st) <==>
            || (exists e :: e in st.rejected && e.candidate == c)
            || (exists q :: q in st.prior && q.rejected && q.candidate == c)
    ensures |st.rejected| <= |PriorRejectedCandidates(st)|
    ensures forall i :: 0 <= i < |st.rejected| ==> PriorRejectedCandidates(st)[i] == st.rejected[i].candidate
  {
    RejectedPriorsMembers(st.prior, c);
    var own := seq(|st.rejected|, i requires 0 <= i < |st.rejected| => st.rejected[i].candidate);
    if c in own {
      var i :| 0 <= i < |own| && own[i] == c;
      assert st.rejected[i] in st.rejected;
    }
    if e :| e in st.rejected && e.candidate == c {
      var i :| 0 <= i < |st.rejected| && st.rejected[i] == e;
      assert own[i] == c;
    }
  }

  lemma {:induction false} RejectedPriorsMembers(prior: seq<Prior>, c: Candidate)
    ensures c in RejectedPriors(prior) <==> exists q :: q in prior && q.rejected && q.candidate == c
  {
    if prior != [] {
      RejectedPriorsMembers(prior[1..], c);
      assert prior == [prior[0]] + prior[1..];
    }
  }

  predicate Saturated(client: Client, cfg: Config, generated: seq<Candidate>, refs: seq<Candidate>) {
    generated != [] && forall c :: c in generated ==> client.similarity(c, refs) >= cfg.similarityThreshold
  }

  /** The termination checks, in the priority order of the loop; `None` means another pass. */
  function StopReason(client: Client, cfg: Config, generated: seq<Candidate>, refs: seq<Candidate>, st: State)
    : Option<Reason>
  {
    if |st.accepted| >= cfg.targetCandidates then Some(SufficientCandidates)
    else if Saturated(client, cfg, generated, refs) then Some(SimilaritySaturation)
    else if st.iteration >= cfg.iterationBudget then Some(BudgetExhausted)
    else None
  }

  // ----- the loop

  function Pass(client: Client, cfg: Config, pass: nat, st: State): State {
    var ranked := RankNode(Critiqued(client, pass, GenerateNode(client, cfg, pass, st)));
    ranked.(iteration := st.iteration + 1)
  }

  function StopAfter(client: Client, cfg: Config, pass: nat, st: State, next: State): Option<Reason> {
    StopReason(client, cfg, GenerateNode(client, cfg, pass, st).open, PriorRejectedCandidates(st), next)
  }

  function Loop(client: Client, cfg: Config, pass: nat, st: State): Finished
    decreases cfg.iterationBudget - st.iteration
  {
    var next := Pass(client, cfg, pass, st);
    match StopAfter(client, cfg, pass, st, next)
    case Some(reason) => Finished(next, reason, pass + 1)
    case None => Loop(client, cfg, pass + 1, next)
  }

  /** `select_node`: the first `k` ranked entries; a negative `k` is a ValueError. */
  function SelectNode(st: State, k: int): Result<State, Error> {
    if k < 0 then Err(NegativeTarget)
    else Ok(st.(accepted := if k <= |st.accepted| then st.accepted[..k] else st.accepted))
  }

  function InnerLoopResult(client: Client, cfg: Config, st: State): Result<Finished, Error> {
    if !st.diagnosed then Err(NoDiagnosis)
    else
      var done := Loop(client, cfg, 0, st);
      match SelectNode(done.state, cfg.targetCandidates)
      case Err(e) => Err(e)
      case Ok(selected) => Ok(done.(state := selected))
  }

  /** Nobody stands behind an entry that it is no worse than in lift, counted citations and net additions, and better
      than in one of them. */
  ghost predicate InOrderOfMerit(entries: seq<Entry>) {
    forall i, j :: 0 <= i < j < |entries| ==> !Dominates(entries[j].candidate, entries[i].candidate)
  }

  lemma SortedByMerit(entries: seq<Entry>)
    ensures InOrderOfMerit(Sort(SCORE, entries))
  {
    var sorted := Sort(SCORE, entries);
    SortIsStable(SCORE, entries);
    forall i, j | 0 <= i < j < |sorted| ensures !Dominates(sorted[j].candidate, sorted[i].candidate) {
      assert SCORE(sorted[i]) >= SCORE(sorted[j]);
      DominatingRanksHigher(sorted[j].candidate, sorted[i].candidate);
    }
  }

  /** The loop's list is in order of merit. */
  lemma {:induction false} LoopInOrder(client: Client, cfg: Config, pass: nat, st: State)
    ensures InOrderOfMerit(Loop(client, cfg, pass, st).state.accepted)
    decreases cfg.iterationBudget - st.iteration
  {
    hide GenerateNode, InOrderOfMerit, Critiqued, Saturated;
    var next := Pass(client, cfg, pass, st);
    SortedByMerit(Critiqued(client, pass, GenerateNode(client, cfg, pass, st)).accepted);
    if StopAfter(client, cfg, pass, st, next).None? {
      LoopInOrder(client, cfg, pass + 1, next);
    }
  }

  method RunInnerLoop(client: Client, cfg: Config, st: State) returns (r: Result<Finished, Error>)
    ensures r == InnerLoopResult(client, cfg, st)
    ensures r.Ok? ==> InOrderOfMerit(r.value.state.accepted)
  {
    LoopInOrder(client, cfg, 0, st);
    if !st.diagnosed {
      return Err(NoDiagnosis);
    }
    var current, pass := st, 0;
    var reason;
    while true
      invariant Loop(client, cfg, pass, current) == Loop(client, cfg, 0, st)
      decreases cfg.iterationBudget - current.iteration
    {
      var refsBefore := PriorRejectedCandidates(current);
      var generated := GenerateNode(client, cfg, pass, current);
      var critiqued := CritiqueNode(client, pass, generated);
      var ranked := RankNode(critiqued);
      var next := ranked.(iteration := ranked.iteration + 1);
      assert next == Pass(client, cfg, pass, current);
      var stop := StopReason(client, cfg, generated.open, refsBefore, next);
      pass, current := pass + 1, next;
      if stop.Some? {
        reason := stop.value;
        break;
      }
    }
    r := match SelectNode(current, cfg.targetCandidates)
      case Err(e) => Err(e)
      case Ok(selected) => Ok(Finished(selected, reason, pass));
  }

  // ----- the reference: the same loop without any ranking

  function UnrankedPass(client: Client, cfg: Config, pass: nat, st: State): State {
    Critiqued(client, pass, GenerateNode(client, cfg, pass, st)).(iteration := st.iteration + 1)
  }

  function UnrankedLoop(client: Client, cfg: Config, pass: nat, st: State): Finished
    decreases cfg.iterationBudget - st.iteration
  {
    var next := UnrankedPass(client, cfg, pass, st);
    match StopAfter(client, cfg, pass, st, next)
    case Some(reason) => Finished(next, reason, pass + 1)
    case None => UnrankedLoop(client, cfg, pass + 1, next)
  }

  /** `st` and `raw` differ at most in the order of `accepted`, and sort to the same list. */
  ghost predicate SameUpToRank(st: State, raw: State) {
    st.(accepted := raw.accepted) == raw && Sort(SCORE, st.accepted) == Sort(SCORE, raw.accepted)
  }

  lemma PassKeepsRank(client: Client, cfg: Config, pass: nat, st: State, raw: State)
    requires SameUpToRank(st, raw)
    ensures SameUpToRank(Pass(client, cfg, pass, st), UnrankedPass(client, cfg, pass, raw))
    ensures Pass(client, cfg, pass, st).accepted == Sort(SCORE, UnrankedPass(client, cfg, pass, raw).accepted)
    ensures |Pass(client, cfg, pass, st).accepted| == |UnrankedPass(client, cfg, pass, raw).accepted|
    ensures GenerateNode(client, cfg, pass, st).open == GenerateNode(client, cfg, pass, raw).open
  {
    SortAlikeAppend(SCORE, st.accepted, raw.accepted, []);
    var drafted := GenerateNode(client, cfg, pass, st);
    assert drafted.open == GenerateNode(client, cfg, pass, raw).open;
    var more := Judged(client, pass, drafted.open, true);
    SortAlikeAppend(SCORE, st.accepted, raw.accepted, more);
    assert Pass(client, cfg, pass, st).accepted == Sort(SCORE, st.accepted + more);
    assert UnrankedPass(client, cfg, pass, raw).accepted == raw.accepted + more;
    SortKeepsMembers(SCORE, raw.accepted + more);
  }

  /** Ranking after every pass is ranking once, after the last one: the two loops stop at the same
      pass for the same reason, and the ranked loop's list is the stable sort of all acceptances in
      submission order. */
  lemma {:induction false} RankingEveryPassIsRankingOnce(client: Client, cfg: Config, pass: nat, st: State,
                                                         raw: State)
    requires SameUpToRank(st, raw)
    ensures var done, plain := Loop(client, cfg, pass, st), UnrankedLoop(client, cfg, pass, raw);
            && done.reason == plain.reason && done.passes == plain.passes
            && done.state == RankNode(plain.state)
    decreases cfg.iterationBudget - st.iteration
  {
    PassKeepsRank(client, cfg, pass, st, raw);
    var next, nextRaw := Pass(client, cfg, pass, st), UnrankedPass(client, cfg, pass, raw);
    assert PriorRejectedCandidates(st) == PriorRejectedCandidates(raw);
    if StopAfter(client, cfg, pass, st, next).None? {
      RankingEveryPassIsRankingOnce(client, cfg, pass + 1, next, nextRaw);
    }
  }

  /** What `run_inner_loop` selects, by merit: no acceptance of any pass that is left out dominates one that is kept,
      and none that is kept stands behind one it dominates. */
  lemma SelectedByMerit(client: Client, cfg: Config, st: State) returns (others: seq<Entry>)
    requires st.diagnosed && cfg.targetCandidates >= 0
    ensures var all := UnrankedLoop(client, cfg, 0, st).state.accepted;
            var r := InnerLoopResult(client, cfg, st);
            && r.Ok? && multiset(all) == multiset(r.value.state.accepted) + multiset(others)
            && InOrderOfMerit(r.value.state.accepted + others)
  {
    hide Sort, InOrderOfMerit, StableSortOf, UnrankedLoop, InnerLoopResult;
    var all := UnrankedLoop(client, cfg, 0, st).state.accepted;
    InnerLoopReturnsTopOfOneSort(client, cfg, st);
    SortIsStable(SCORE, all);
    SortedByMerit(all);
    var sorted := Sort(SCORE, all);
    var kept := InnerLoopResult(client, cfg, st).value.state.accepted;
    others := sorted[|kept|..];
    assert sorted == kept + others;
  }

  /** What `run_inner_loop` returns: the first K of one global stable sort. */
  lemma InnerLoopReturnsTopOfOneSort(client: Client, cfg: Config, st: State)
    requires st.diagnosed
    ensures var all := UnrankedLoop(client, cfg, 0, st);
            InnerLoopResult(client, cfg, st) ==
            if cfg.targetCandidates < 0 then Err(NegativeTarget)
            else
              var sorted := Sort(SCORE, all.state.accepted);
              var top := if cfg.targetCandidates <= |sorted| then sorted[..cfg.targetCandidates] else sorted;
              Ok(Finished(all.state.(accepted := top), all.reason, all.passes))
  {
    RankingEveryPassIsRankingOnce(client, cfg, 0, st, st);
  }

  /** The state after `n` passes, whether or not one of them would have stopped the loop. */
  function StateAfter(client: Client, cfg: Config, pass: nat, st: State, n: nat): State
    decreases n
  {
    if n == 0 then st else StateAfter(client, cfg, pass + 1, Pass(client, cfg, pass, st), n - 1)
  }

  /** What the termination checks say after pass `k` of a run. */
  function StopAt(client: Client, cfg: Config, pass: nat, st: State, k: nat): Option<Reason> {
    StopAfter(client, cfg, pass + k, StateAfter(client, cfg, pass, st, k), StateAfter(client, cfg, pass, st, k + 1))
  }

  /** In pass `k` everything generated resembled what had been rejected before the pass. */
  predicate SaturatedAt(client: Client, cfg: Config, pass: nat, st: State, k: nat) {
    var before := StateAfter(client, cfg, pass, st, k);
    var drafts, refs := GenerateNode(client, cfg, pass + k, before).open, PriorRejectedCandidates(before);
    drafts != [] && forall c :: c in drafts ==> client.similarity(c, refs) >= cfg.similarityThreshold
  }

  /** Pass `k` leaves something to do: too few acceptances, a draft that is new, and budget. */
  predicate GoesOnAt(client: Client, cfg: Config, pass: nat, st: State, k: nat) {
    var after := StateAfter(client, cfg, pass, st, k + 1);
    && |after.accepted| < cfg.targetCandidates && !SaturatedAt(client, cfg, pass, st, k)
    && after.iteration < cfg.iterationBudget
  }

  lemma StopsUnless(client: Client, cfg: Config, pass: nat, st: State, k: nat)
    ensures StopAt(client, cfg, pass, st, k).None? <==> GoesOnAt(client, cfg, pass, st, k)
  {
    hide GenerateNode, PriorRejectedCandidates, StateAfter;
  }

  /** The loop ends with the first pass at which a check says so. */
  lemma {:induction false} LoopStopsFirst(client: Client, cfg: Config, pass: nat, st: State)
    ensures var done := Loop(client, cfg, pass, st);
            var last := done.passes - pass - 1;
            && 0 <= last < Max(1, cfg.iterationBudget - st.iteration)
            && done.state == StateAfter(client, cfg, pass, st, last + 1)
            && done.state.iteration == st.iteration + last + 1 && done.state.open == []
            && StopAt(client, cfg, pass, st, last) == Some(done.reason)
            && forall k :: 0 <= k < last ==> StopAt(client, cfg, pass, st, k).None?
    decreases cfg.iterationBudget - st.iteration
  {
    hide GenerateNode, Critiqued, RankNode, Saturated, PriorRejectedCandidates;
    FirstStep(client, cfg, pass, st);
    var next := Pass(client, cfg, pass, st);
    if StopAfter(client, cfg, pass, st, next).None? {
      LoopStopsFirst(client, cfg, pass + 1, next);
      var last := Loop(client, cfg, pass, st).passes - pass - 1;
      forall k | 0 <= k < last ensures StopAt(client, cfg, pass, st, k).None? {
        if k > 0 {
          StepsShift(client, cfg, pass, st, k);
        }
      }
      StepsShift(client, cfg, pass, st, last);
    }
    assert next.open == [] by { PassClears(client, cfg, pass, st); }
  }

  lemma FirstStep(client: Client, cfg: Config, pass: nat, st: State)
    ensures StateAfter(client, cfg, pass, st, 0) == st
    ensures StateAfter(client, cfg, pass, st, 1) == Pass(client, cfg, pass, st)
  {}

  lemma StepsShift(client: Client, cfg: Config, pass: nat, st: State, k: nat)
    requires k > 0
    ensures StopAt(client, cfg, pass, st, k) == StopAt(client, cfg, pass + 1, Pass(client, cfg, pass, st), k - 1)
  {
    hide Pass, StopAfter;
    assert pass + 1 + (k - 1) == pass + k;
  }

  lemma PassClears(client: Client, cfg: Config, pass: nat, st: State)
    ensures Pass(client, cfg, pass, st).open == []
  {}

  /** Every pass but the last leaves something to do, and the reported reason is the first of the three that holds of
      the last: enough accepted, all of that pass's drafts too close to what was rejected before it, or the budget used
      up. */
  lemma ReasonMatchesFinalState(client: Client, cfg: Config, pass: nat, st: State)
    ensures var done := Loop(client, cfg, pass, st);
            var last := done.passes - pass - 1;
            var enough := |done.state.accepted| >= cfg.targetCandidates;
            && last >= 0 && done.state == StateAfter(client, cfg, pass, st, last + 1)
            && (done.reason == SufficientCandidates <==> enough)
            && (done.reason == SimilaritySaturation <==> !enough && SaturatedAt(client, cfg, pass, st, last))
            && (done.reason == BudgetExhausted <==>
                  && !enough && !SaturatedAt(client, cfg, pass, st, last)
                  && done.state.iteration >= cfg.iterationBudget)
            && (forall k :: 0 <= k < last ==> GoesOnAt(client, cfg, pass, st, k))
  {
    hide GenerateNode, PriorRejectedCandidates, Pass, Loop, StateAfter;
    LoopStopsFirst(client, cfg, pass, st);
    forall k: nat ensures StopAt(client, cfg, pass, st, k).None? <==> GoesOnAt(client, cfg, pass, st, k) {
      StopsUnless(client, cfg, pass, st, k);
    }
  }

  function CandidatesOf(entries: seq<Entry>): seq<Candidate> {
    seq(|entries|, i requires 0 <= i < |entries| => entries[i].candidate)
  }

  lemma CandidatesMore(entries: seq<Entry>, last: Entry)
    ensures multiset(CandidatesOf(entries + [last])) == multiset(CandidatesOf(entries)) + multiset{last.candidate}
  {
    assert CandidatesOf(entries + [last]) == CandidatesOf(entries) + [last.candidate];
  }

  /** The critique partitions what was open: every candidate ends up in exactly one of the two lists. */
  lemma {:induction false} JudgedPartitions(client: Client, pass: nat, candidates: seq<Candidate>)
    ensures multiset(CandidatesOf(Judged(client, pass, candidates, true)))
            + multiset(CandidatesOf(Judged(client, pass, candidates, false))) == multiset(candidates)
  {
    hide CandidatesOf;
    if candidates == [] {
      NoCandidates();
    } else {
      var n := |candidates| - 1;
      var last := candidates[n];
      var verdict := client.critique(pass, n, last);
      JudgedPartitions(client, pass, candidates[..n]);
      CandidatesMore(Judged(client, pass, candidates[..n], verdict.accept), Entry(last, verdict.rationale));
      assert candidates == candidates[..n] + [last];
      assert Judged(client, pass, candidates, !verdict.accept)
          == Judged(client, pass, candidates[..n], !verdict.accept);
      if verdict.accept {
      }
    }
  }

  lemma NoCandidates()
    ensures CandidatesOf([]) == []
  {}

  /** The entries are the candidates that the critic judges so, each in its place `at`, with the rationale given there;
      all of them, in the order of submission. */
  lemma {:induction false} JudgedAsSaid(client: Client, pass: nat, candidates: seq<Candidate>, accept: bool)
    returns (at: seq<nat>)
    ensures var entries := Judged(client, pass, candidates, accept);
            && |at| == |entries| && (forall k :: 0 <= k < |at| ==> at[k] < |candidates|)
            && (forall k :: 0 <= k < |at| ==>
                  && entries[k].candidate == candidates[at[k]]
                  && client.critique(pass, at[k], candidates[at[k]]) == Critique(accept, entries[k].rationale))
    ensures forall k, m :: 0 <= k < m < |at| ==> at[k] < at[m]
    ensures forall i :: 0 <= i < |candidates| && client.critique(pass, i, candidates[i]).accept == accept ==> i in at
  {
    at := [];
    if candidates != [] {
      var n := |candidates| - 1;
      at := JudgedAsSaid(client, pass, candidates[..n], accept);
      if client.critique(pass, n, candidates[n]).accept == accept {
        at := at + [n];
      }
    }
  }

  /** What the critique does to the lists: each open candidate is put behind the accepted or behind the rejected ones,
      as the critic says of it in its place, with the rationale given there; and nothing else is. */
  lemma CritiqueMoves(client: Client, pass: nat, st: State)
    ensures var r := Critiqued(client, pass, st);
            && r == st.(open := [], accepted := r.accepted, rejected := r.rejected)
            && st.accepted <= r.accepted && st.rejected <= r.rejected
            && |r.accepted| + |r.rejected| == |st.accepted| + |st.rejected| + |st.open|
            && forall i :: 0 <= i < |st.open| ==>
                 var verdict := client.critique(pass, i, st.open[i]);
                 if verdict.accept then Entry(st.open[i], verdict.rationale) in r.accepted[|st.accepted|..]
                 else Entry(st.open[i], verdict.rationale) in r.rejected[|st.rejected|..]
  {
    hide Judged;
    var r := Critiqued(client, pass, st);
    var yes, no := Judged(client, pass, st.open, true), Judged(client, pass, st.open, false);
    var atYes := JudgedAsSaid(client, pass, st.open, true);
    var atNo := JudgedAsSaid(client, pass, st.open, false);
    JudgedPartitions(client, pass, st.open);
    assert |multiset(CandidatesOf(yes))| + |multiset(CandidatesOf(no))| == |multiset(st.open)|;
    assert r.accepted[|st.accepted|..] == yes && r.rejected[|st.rejected|..] == no;
    forall i | 0 <= i < |st.open|
      ensures var verdict := client.critique(pass, i, st.open[i]);
              Entry(st.open[i], verdict.rationale) in if verdict.accept then yes else no
    {
      var verdict := client.critique(pass, i, st.open[i]);
      if verdict.accept {
        var k :| 0 <= k < |atYes| && atYes[k] == i;
        assert yes[k] == Entry(st.open[i], verdict.rationale);
      } else {
        var k :| 0 <= k < |atNo| && atNo[k] == i;
        assert no[k] == Entry(st.open[i], verdict.rationale);
      }
    }
  }
}
