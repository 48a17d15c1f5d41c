/**
  What cross-validation and the final selection decide (optimization_runner.py), said in the fold scores themselves:
  a winner's score is their average and its variance their mean squared deviation, and the choice is the steadiest of
  those within the tie margin of the best.
*/
module FinalChoice {
  import opened Basics
  import opened CrossValidation
  import opened Numbers

  // ----- scores and variances

  /** Every run succeeded, with a score that is a number. */
  predicate AllScored(score: Metrics -> Evaluation, own: seq<Entry>) {
    forall f :: 0 <= f < |own| ==> own[f].ok && score(own[f].metrics).score.Finite?
  }

  /** The fold scores of such a winner. */
  function FoldScores(score: Metrics -> Evaluation, own: seq<Entry>): seq<real>
    requires AllScored(score, own)
  {
    seq(|own|, f requires 0 <= f < |own| => score(own[f].metrics).score.value)
  }

  lemma {:induction false} AllFinite(os: seq<Evaluation>)
    requires forall o :: o in os ==> o.score.Finite?
    ensures |FiniteScores(os)| == |os|
    ensures forall i :: 0 <= i < |os| ==> FiniteScores(os)[i] == os[i].score.value
  {
    if os != [] {
      var n := |os| - 1;
      assert forall o :: o in os[..n] ==> o in os;
      AllFinite(os[..n]);
    }
  }

  /** A scored winner: score times folds is the sum of its fold scores, and variance times folds the sum of their
      squared distances from the score. */
  lemma OutcomeInSums(score: Metrics -> Evaluation, winner: Winner, own: seq<Entry>)
    requires own != [] && AllScored(score, own)
    ensures var x, xs := OutcomeOf(winner, MetricsOf(own), Evaluations(score, own)), FoldScores(score, own);
            && x.score.Finite? && x.score.value * |own| as real == Sum(xs)
            && x.variance * |own| as real == Sum(Deviations(xs, x.score.value))
  {
    hide FoldViolations, Sum, Mean, Variance, Deviations;
    var os, xs := Evaluations(score, own), FoldScores(score, own);
    forall o | o in os ensures o.score.Finite? {
      var f :| 0 <= f < |os| && os[f] == o;
    }
    AllFinite(os);
    assert FiniteScores(os) == xs;
    MomentsTimes(xs);
    if |xs| == 1 {
      Alone(xs);
    }
  }

  /** And a winner with a fold that did not succeed or has no score scores minus infinity. */
  lemma UnscoredOutcome(score: Metrics -> Evaluation, winner: Winner, own: seq<Entry>)
    requires own != [] && !AllScored(score, own)
    ensures OutcomeOf(winner, MetricsOf(own), Evaluations(score, own)).score == NegInf
  {
    hide FoldViolations, FiniteScores;
    var os := Evaluations(score, own);
    AllFiniteExactly(os);
    var f :| 0 <= f < |own| && !(own[f].ok && score(own[f].metrics).score.Finite?);
    assert os[f] in os && !os[f].score.Finite?;
  }

  lemma Alone(xs: seq<real>)
    requires |xs| == 1
    ensures Sum(Deviations(xs, Mean(xs))) == 0.0
  {
    assert xs[1..] == [];
    assert Sum(xs) == xs[0] && Mean(xs) == xs[0];
    assert SquaredDistance(xs[0], xs[0]) == 0.0;
    assert Deviations(xs, Mean(xs)) == [0.0];
    assert [0.0][1..] == [];
  }

  /** What cross-validation reports of winner `w`, in sums over its own runs on the folds. */
  lemma CrossScoreInSums(engine: seq<Run> -> Status, t: Template, score: Metrics -> Evaluation, folds: seq<Fold>,
                         winners: seq<Winner>, w: nat)
    requires w < |winners| && folds != []
    ensures var cross := CrossOutcomes(engine, t, score, folds, winners);
            var own := OwnEntries(engine, t, folds, winners, w);
            && |cross| == |winners| && |own| == |folds|
            && (AllScored(score, own) ==>
                  && cross[w].score.Finite? && cross[w].score.value * |folds| as real == Sum(FoldScores(score, own))
                  && cross[w].variance * |folds| as real
                     == Sum(Deviations(FoldScores(score, own), cross[w].score.value)))
            && (!AllScored(score, own) ==> cross[w].score == NegInf)
  {
    hide Plan, Picked, Evaluations, MetricsOf, OutcomeOf, CrossEntries, AllScored, FoldScores, Sum, Deviations;
    OwnEntriesAreOwn(engine, t, folds, winners, w);
    NoCross(engine, t, score, folds, winners);
    var own := OwnEntries(engine, t, folds, winners, w);
    assert CrossOutcomes(engine, t, score, folds, winners)[w]
        == OutcomeOf(winners[w], MetricsOf(own), Evaluations(score, own));
    if AllScored(score, own) {
      OutcomeInSums(score, winners[w], own);
    } else {
      UnscoredOutcome(score, winners[w], own);
    }
  }

  // ----- the choice

  predicate Eligible(c: Outcome) {
    c.accepted && c.score.Finite?
  }

  /** No eligible candidate scores more than the tie margin higher. */
  predicate Ties(cross: seq<Outcome>, w: nat) {
    && w < |cross| && Eligible(cross[w])
    && forall v :: 0 <= v < |cross| && Eligible(cross[v]) ==> cross[v].score.value - cross[w].score.value <= 0.000001
  }

  /** The first of least variance among those in the tie. */
  ghost predicate IsChoice(cross: seq<Outcome>, w: nat) {
    && Ties(cross, w)
    && forall v: nat :: Ties(cross, v) ==>
         cross[w].variance <= cross[v].variance && (v < w ==> cross[w].variance < cross[v].variance)
  }

  function Contending(cross: seq<Outcome>, best: Score): seq<Outcome> {
    Contenders(Accepted(cross), best)
  }

  lemma ContendingCons(c: Outcome, rest: seq<Outcome>, best: Score)
    ensures Contending([c] + rest, best)
            == (if c.accepted && Contends(c, best) then [c] else []) + Contending(rest, best)
  {
    assert ([c] + rest)[1..] == rest;
    assert ([c] + Accepted(rest))[1..] == Accepted(rest);
    assert Accepted([c] + rest) == if c.accepted then [c] + Accepted(rest) else Accepted(rest);
    assert [] + Contending(rest, best) == Contending(rest, best);
  }

  predicate In(cross: seq<Outcome>, best: Score, v: int) {
    0 <= v < |cross| && cross[v].accepted && Contends(cross[v], best)
  }

  /** Where `min` finds its result in the whole list. */
  lemma {:induction false} SteadiestAt(cross: seq<Outcome>, best: Score) returns (w: nat)
    requires Contending(cross, best) != []
    ensures In(cross, best, w) && cross[w] == Steadiest(Contending(cross, best))
    ensures forall v :: In(cross, best, v) ==> cross[w].variance <= cross[v].variance
    ensures forall v :: In(cross, best, v) && v < w ==> cross[w].variance < cross[v].variance
  {
    hide Contends, Contending, Steadiest;
    NoneContending(best);
    var c, rest := cross[0], cross[1..];
    assert cross == [c] + rest;
    ContendingCons(c, rest, best);
    SteadiestCons(c, Contending(rest, best));
    assert [] + Contending(rest, best) == Contending(rest, best);
    InShifts(cross, best);
    if Contending(rest, best) == [] {
      NobodyIn(rest, best);
      w := 0;
    } else {
      var later := SteadiestAt(rest, best);
      w := if In(cross, best, 0) && c.variance <= rest[later].variance then 0 else later + 1;
      assert In(rest, best, later) && rest[later] == cross[later + 1];
    }
  }

  lemma InShifts(cross: seq<Outcome>, best: Score)
    requires cross != []
    ensures forall v :: v >= 1 ==> (In(cross, best, v) <==> In(cross[1..], best, v - 1))
  {}

  lemma SteadiestCons(c: Outcome, rest: seq<Outcome>)
    ensures Steadiest([c] + rest) ==
            if rest == [] || c.variance <= Steadiest(rest).variance then c else Steadiest(rest)
  {
    assert ([c] + rest)[1..] == rest;
  }

  lemma NoneContending(best: Score)
    ensures Contending([], best) == []
  {}

  lemma {:induction false} NobodyIn(cross: seq<Outcome>, best: Score)
    requires Contending(cross, best) == []
    ensures forall v :: !In(cross, best, v)
  {
    if cross != [] {
      assert cross == [cross[0]] + cross[1..];
      ContendingCons(cross[0], cross[1..], best);
      NobodyIn(cross[1..], best);
      forall v ensures !In(cross, best, v) {
        if v > 0 {
          assert !In(cross[1..], best, v - 1);
        }
      }
    }
  }

  /** In the tie, as the code says it: within the margin of the best accepted score. */
  lemma TiesContend(cross: seq<Outcome>, v: nat)
    requires Accepted(cross) != []
    ensures Ties(cross, v) <==> In(cross, BestScore(Accepted(cross)), v)
  {
    AcceptedMembers(cross);
    var best := BestScore(Accepted(cross));
    var c :| c in Accepted(cross) && c.score == best;
    var b :| 0 <= b < |cross| && cross[b] == c;
    if v < |cross| {
      assert cross[v] in cross;
    }
    forall u | 0 <= u < |cross| && Eligible(cross[u]) ensures best.Finite? && cross[u].score.value <= best.value {
      assert cross[u] in cross;
      assert AtLeast(best, cross[u].score);
    }
  }

  /** The final selection of any list, exactly: somebody is chosen when anybody is eligible, and then the first of least
      variance among those whose score no eligible candidate exceeds by more than the margin. */
  lemma ChoiceExactly(cross: seq<Outcome>)
    ensures SelectFinal(cross).Chosen? <==> exists c :: c in cross && Eligible(c)
    ensures SelectFinal(cross).Chosen? ==>
              exists w: nat :: IsChoice(cross, w) && SelectFinal(cross).outcome == cross[w]
  {
    hide Accepted, Contenders, Contends, Steadiest, Ties;
    SelectFinalExactly(cross);
    AcceptedMembers(cross);
    if SelectFinal(cross).Chosen? {
      var best := BestScore(Accepted(cross));
      var w := SteadiestAt(cross, best);
      forall v: nat ensures Ties(cross, v) <==> In(cross, best, v) {
        TiesContend(cross, v);
      }
      assert IsChoice(cross, w);
      OneContender(Contending(cross, best));
    }
  }

  lemma OneContender(cs: seq<Outcome>)
    ensures |cs| == 1 ==> Steadiest(cs) == cs[0]
  {}

  // ----- the choice in the fold scores

  /** A winner that the final selection can choose: every fold's run succeeded, was accepted and scored a number. */
  predicate Qualifies(score: Metrics -> Evaluation, own: seq<Entry>) {
    Passes(score, own) && AllScored(score, own)
  }

  function Total(score: Metrics -> Evaluation, own: seq<Entry>): real {
    if AllScored(score, own) then Sum(FoldScores(score, own)) else 0.0
  }

  /** The sum of squared distances from the average. */
  function Unsteadiness(score: Metrics -> Evaluation, own: seq<Entry>): real {
    if own == [] || !AllScored(score, own) then 0.0
    else Sum(Deviations(FoldScores(score, own), Total(score, own) / |own| as real))
  }

  ghost predicate Leading(score: Metrics -> Evaluation, owns: seq<seq<Entry>>, folds: nat, w: nat) {
    && w < |owns| && Qualifies(score, owns[w])
    && forall v :: 0 <= v < |owns| && Qualifies(score, owns[v]) ==>
         Total(score, owns[v]) - Total(score, owns[w]) <= 0.000001 * folds as real
  }

  /** `owns[w]` are the runs of winner `w` on the folds. */
  ghost predicate Wins(score: Metrics -> Evaluation, owns: seq<seq<Entry>>, folds: nat, w: nat) {
    && Leading(score, owns, folds, w)
    && forall v: nat :: Leading(score, owns, folds, v) ==>
         && Unsteadiness(score, owns[w]) <= Unsteadiness(score, owns[v])
         && (v < w ==> Unsteadiness(score, owns[w]) < Unsteadiness(score, owns[v]))
  }

  function Owns(engine: seq<Run> -> Status, t: Template, folds: seq<Fold>, winners: seq<Winner>): seq<seq<Entry>> {
    seq(|winners|, w requires 0 <= w < |winners| => OwnEntries(engine, t, folds, winners, w))
  }

  /** What one winner's outcome and its runs have to do with each other. */
  ghost predicate Matches(score: Metrics -> Evaluation, x: Outcome, own: seq<Entry>, n: nat) {
    && n > 0 && (Eligible(x) <==> Qualifies(score, own))
    && (Eligible(x) ==>
          x.score.value * n as real == Total(score, own) && x.variance * n as real == Unsteadiness(score, own))
  }

  lemma OutcomeMatches(engine: seq<Run> -> Status, t: Template, score: Metrics -> Evaluation, folds: seq<Fold>,
                       winners: seq<Winner>, w: nat)
    requires w < |winners| && folds != []
    ensures var cross := CrossOutcomes(engine, t, score, folds, winners);
            && |cross| == |winners| && cross[w].params == winners[w].params
            && Matches(score, cross[w], OwnEntries(engine, t, folds, winners, w), |folds|)
  {
    hide OwnEntries, CrossOutcomes, Sum, Deviations;
    CrossScoreInSums(engine, t, score, folds, winners, w);
    CrossOutcome(engine, t, score, folds, winners, w);
    OutcomeScore(engine, t, score, folds, winners, w);
    var x := CrossOutcomes(engine, t, score, folds, winners)[w];
    if AllScored(score, OwnEntries(engine, t, folds, winners, w)) {
      Divided(x.score.value, |folds| as real, Total(score, OwnEntries(engine, t, folds, winners, w)));
    }
  }

  lemma Divided(m: real, n: real, total: real)
    requires n > 0.0 && m * n == total
    ensures total / n == m
  {}

  lemma Scaled(x: real, y: real, margin: real, n: real)
    requires n > 0.0
    ensures x - y <= margin <==> x * n - y * n <= margin * n
    ensures x <= y <==> x * n <= y * n
  {
    assert (margin - (x - y)) * n == margin * n - (x * n - y * n);
    assert (y - x) * n == y * n - x * n;
    if x - y > margin {
      Positive((x - y) - margin, n);
    }
    if x > y {
      Positive(x - y, n);
    }
    if x <= y {
      assert (y - x) * n >= 0.0;
    }
    if x - y <= margin {
      assert (margin - (x - y)) * n >= 0.0;
    }
  }

  lemma Positive(x: real, n: real)
    requires x > 0.0 && n > 0.0
    ensures x * n > 0.0
  {}

  lemma MatchedPair(score: Metrics -> Evaluation, x: Outcome, own: seq<Entry>, y: Outcome, other: seq<Entry>, n: nat)
    requires Matches(score, x, own, n) && Matches(score, y, other, n) && Eligible(x) && Eligible(y)
    ensures y.score.value - x.score.value <= 0.000001 <==>
            Total(score, other) - Total(score, own) <= 0.000001 * n as real
    ensures x.variance <= y.variance <==> Unsteadiness(score, own) <= Unsteadiness(score, other)
  {
    hide Total, Unsteadiness, Qualifies;
    Scaled(y.score.value, x.score.value, 0.000001, n as real);
    Scaled(x.variance, y.variance, 0.0, n as real);
  }

  /** The final choice after cross-validation, in the fold scores alone: there is one exactly when some winner passed
      and scored on every fold, and it is the first of least squared deviation among the winners whose sum of fold
      scores no other such winner's exceeds by more than the tie margin per fold. */
  lemma FinalChoiceInSums(engine: seq<Run> -> Status, t: Template, score: Metrics -> Evaluation, folds: seq<Fold>,
                          winners: seq<Winner>)
    requires folds != []
    ensures var cross, owns := CrossOutcomes(engine, t, score, folds, winners), Owns(engine, t, folds, winners);
            && (SelectFinal(cross).Chosen? <==> exists w: nat :: w < |owns| && Qualifies(score, owns[w]))
            && (SelectFinal(cross).Chosen? ==>
                  exists w: nat ::
                    && Wins(score, owns, |folds|, w) && w < |winners| == |cross|
                    && SelectFinal(cross).outcome == cross[w] && cross[w].params == winners[w].params)
  {
    hide OwnEntries, CrossOutcomes, SelectFinal, Matches, Qualifies, Total, Unsteadiness, Eligible;
    var cross, owns := CrossOutcomes(engine, t, score, folds, winners), Owns(engine, t, folds, winners);
    NoCross(engine, t, score, folds, winners);
    forall w: nat | w < |winners|
      ensures cross[w].params == winners[w].params && Matches(score, cross[w], owns[w], |folds|)
    {
      OutcomeMatches(engine, t, score, folds, winners, w);
    }
    ChoiceExactly(cross);
    SameEligible(score, cross, owns, |folds|);
    if SelectFinal(cross).Chosen? {
      var w: nat :| IsChoice(cross, w) && SelectFinal(cross).outcome == cross[w];
      SameChoice(score, cross, owns, |folds|, w);
    }
  }

  lemma SameEligible(score: Metrics -> Evaluation, cross: seq<Outcome>, owns: seq<seq<Entry>>, n: nat)
    requires |cross| == |owns| && forall w: nat :: w < |cross| ==> Matches(score, cross[w], owns[w], n)
    ensures (exists c :: c in cross && Eligible(c)) <==> exists w: nat :: w < |owns| && Qualifies(score, owns[w])
  {
    hide Qualifies, Eligible, Total, Unsteadiness;
    if c :| c in cross && Eligible(c) {
      var w: nat :| w < |cross| && cross[w] == c;
      assert Qualifies(score, owns[w]);
    }
    if w: nat :| w < |owns| && Qualifies(score, owns[w]) {
      assert Matches(score, cross[w], owns[w], n);
      assert cross[w] in cross && Eligible(cross[w]);
    }
  }

  lemma SameTies(score: Metrics -> Evaluation, cross: seq<Outcome>, owns: seq<seq<Entry>>, n: nat, w: nat)
    requires |cross| == |owns| && forall v: nat :: v < |cross| ==> Matches(score, cross[v], owns[v], n)
    ensures Ties(cross, w) <==> Leading(score, owns, n, w)
  {
    hide Qualifies, Total, Unsteadiness;
    if w < |cross| && Eligible(cross[w]) {
      forall v: nat | v < |cross| && Eligible(cross[v])
        ensures cross[v].score.value - cross[w].score.value <= 0.000001 <==>
                Total(score, owns[v]) - Total(score, owns[w]) <= 0.000001 * n as real
      {
        MatchedPair(score, cross[w], owns[w], cross[v], owns[v], n);
      }
    }
  }

  lemma SameChoice(score: Metrics -> Evaluation, cross: seq<Outcome>, owns: seq<seq<Entry>>, n: nat, w: nat)
    requires |cross| == |owns| && forall v: nat :: v < |cross| ==> Matches(score, cross[v], owns[v], n)
    requires IsChoice(cross, w)
    ensures Wins(score, owns, n, w)
  {
    hide Qualifies, Total, Unsteadiness, Leading, Matches;
    SameTies(score, cross, owns, n, w);
    forall v: nat | Leading(score, owns, n, v)
      ensures v < |owns| && Unsteadiness(score, owns[w]) <= Unsteadiness(score, owns[v])
      ensures v < w ==> Unsteadiness(score, owns[w]) < Unsteadiness(score, owns[v])
    {
      SameTies(score, cross, owns, n, v);
      MatchedPair(score, cross[w], owns[w], cross[v], owns[v], n);
      MatchedPair(score, cross[v], owns[v], cross[w], owns[w], n);
    }
  }
}
