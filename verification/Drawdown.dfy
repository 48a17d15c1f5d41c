/** Drawdown episodes of an equity curve (diagnose.py), over the reals. */
module Drawdown {
  import opened Basics
  import opened StableSort

  datatype Point = Point(ts: int, drawdown: real)

  datatype Episode = Episode(troughTs: int, depth: real, duration: nat, recovered: bool)

  datatype Shape = Flat | Shallow | Moderate | Deep

  datatype Trajectory = Trajectory(shape: Shape, maxDepth: real, episodeCount: nat, longestDuration: nat,
                                   episodes: seq<Episode>)

  /** The points `start` up to, not including, `end`. */
  datatype Span = Span(start: nat, end: nat)

  /** The runs of negative drawdown, found by one walk over the points. */
  function Spans(points: seq<Point>): seq<Span> {
    if points == [] then []
    else
      var n := |points| - 1;
      var before := Spans(points[..n]);
      if points[n].drawdown >= 0.0 then before
      else if before != [] && before[|before| - 1].end == n
      then before[..|before| - 1] + [Span(before[|before| - 1].start, n + 1)]
      else before + [Span(n, n + 1)]
  }

  /** The first index of a span at which its lowest drawdown is reached. */
  function Trough(points: seq<Point>, start: nat, end: nat): (k: nat)
    requires start < end <= |points|
    ensures start <= k < end
    ensures forall i :: start <= i < end ==> points[k].drawdown <= points[i].drawdown
    ensures forall i :: start <= i < k ==> points[k].drawdown < points[i].drawdown
  {
    if end == start + 1 then start
    else
      var k := Trough(points, start, end - 1);
      if points[end - 1].drawdown < points[k].drawdown then end - 1 else k
  }

  predicate SpanFits(points: seq<Point>, s: Span) {
    s.start < s.end <= |points|
  }

  function EpisodeOf(points: seq<Point>, s: Span): Episode
    requires SpanFits(points, s)
  {
    var k := Trough(points, s.start, s.end);
    Episode(points[k].ts, points[k].drawdown, s.end - s.start, s.end < |points|)
  }

  function EpisodesOf(points: seq<Point>, spans: seq<Span>): seq<Episode>
    requires forall s :: s in spans ==> SpanFits(points, s)
  {
    seq(|spans|, i requires 0 <= i < |spans| => EpisodeOf(points, spans[i]))
  }

  function Deepest(episodes: seq<Episode>): real {
    if episodes == [] then 0.0
    else if |episodes| == 1 then episodes[0].depth
    else
      var rest := Deepest(episodes[1..]);
      if episodes[0].depth <= rest then episodes[0].depth else rest
  }

  function Longest(episodes: seq<Episode>): nat {
    if episodes == [] then 0
    else Max(episodes[0].duration, Longest(episodes[1..]))
  }

  function ShapeOf(maxDepth: real): Shape {
    var depth := if maxDepth < 0.0 then -maxDepth else maxDepth;
    if depth <= 0.005 then Flat else if depth <= 0.05 then Shallow else if depth <= 0.15 then Moderate else Deep
  }

  /** The sort key: deepest first. */
  function Depth(e: Episode): real {
    -e.depth
  }

  function TopThree(episodes: seq<Episode>): seq<Episode> {
    var sorted := Sort(Depth, episodes);
    sorted[..if |sorted| < 3 then |sorted| else 3]
  }

  function Summary(episodes: seq<Episode>): Trajectory {
    Trajectory(ShapeOf(Deepest(episodes)), Deepest(episodes), |episodes|, Longest(episodes), TopThree(episodes))
  }

  /** The segmentation, said without a walk: ordered spans of negative points that cannot be extended, covering
      every negative point. */
  predicate MaximalRuns(points: seq<Point>, spans: seq<Span>) {
    && (forall i :: 0 <= i < |spans| ==> MaximalRun(points, spans[i]))
    && (forall i, j :: 0 <= i < j < |spans| ==> spans[i].end < spans[j].start)
    && (forall k :: 0 <= k < |points| && points[k].drawdown < 0.0 ==> InSome(spans, k))
  }

  predicate MaximalRun(points: seq<Point>, s: Span) {
    && s.start < s.end <= |points|
    && (forall k :: s.start <= k < s.end ==> points[k].drawdown < 0.0)
    && (s.start == 0 || points[s.start - 1].drawdown >= 0.0)
    && (s.end == |points| || points[s.end].drawdown >= 0.0)
  }

  predicate InSome(spans: seq<Span>, k: nat) {
    exists i :: 0 <= i < |spans| && spans[i].start <= k < spans[i].end
  }

  lemma {:induction false} SpansAreMaximalRuns(points: seq<Point>)
    ensures MaximalRuns(points, Spans(points))
  {
    hide MaximalRuns;
    if points == [] {
      NoRuns(points);
    } else {
      var n := |points| - 1;
      SpansAreMaximalRuns(points[..n]);
      if points[n].drawdown >= 0.0 {
        QuietStep(points, Spans(points[..n]));
      } else {
        FallingStep(points, Spans(points[..n]));
      }
    }
  }

  lemma NoRuns(points: seq<Point>)
    requires points == []
    ensures MaximalRuns(points, [])
  {}

  /** A run of the earlier points stays a run, unless a further negative point touches it. */
  lemma RunStays(points: seq<Point>, s: Span)
    requires points != [] && MaximalRun(points[..|points| - 1], s)
    requires s.end < |points| - 1 || points[|points| - 1].drawdown >= 0.0
    ensures MaximalRun(points, s)
  {}

  lemma CoveredBefore(points: seq<Point>, before: seq<Span>, k: nat)
    requires points != [] && MaximalRuns(points[..|points| - 1], before)
    requires k < |points| - 1 && points[k].drawdown < 0.0
    ensures InSome(before, k)
  {}

  lemma QuietStep(points: seq<Point>, before: seq<Span>)
    requires points != [] && MaximalRuns(points[..|points| - 1], before)
    requires points[|points| - 1].drawdown >= 0.0
    ensures MaximalRuns(points, before)
  {
    hide MaximalRun, InSome;
    forall i | 0 <= i < |before| ensures MaximalRun(points, before[i]) {
      RunStays(points, before[i]);
    }
    forall k | 0 <= k < |points| && points[k].drawdown < 0.0 ensures InSome(before, k) {
      CoveredBefore(points, before, k);
    }
  }

  /** The last run, when it touches the further negative point, grows by it; otherwise the point starts a run. */
  lemma LastRun(points: seq<Point>, before: seq<Span>) returns (last: Span)
    requires points != [] && MaximalRuns(points[..|points| - 1], before)
    requires points[|points| - 1].drawdown < 0.0
    ensures var n := |points| - 1;
            last == Span(if before != [] && before[|before| - 1].end == n then before[|before| - 1].start else n, n + 1)
    ensures MaximalRun(points, last)
  {
    var n := |points| - 1;
    var init := points[..n];
    var joins := before != [] && before[|before| - 1].end == n;
    last := Span(if joins then before[|before| - 1].start else n, n + 1);
    assert forall k :: 0 <= k < |init| ==> init[k] == points[k];
    if joins {
      assert MaximalRun(init, before[|before| - 1]);
    } else if n > 0 && init[n - 1].drawdown < 0.0 {
      ReachesEnd(init, before, n - 1);
    }
  }

  /** A negative last point lies in the last span, which reaches the end. */
  lemma ReachesEnd(points: seq<Point>, spans: seq<Span>, k: nat)
    requires MaximalRuns(points, spans) && k + 1 == |points| && points[k].drawdown < 0.0
    ensures spans != [] && spans[|spans| - 1].end == |points|
  {}

  lemma FallingStep(points: seq<Point>, before: seq<Span>)
    requires points != [] && MaximalRuns(points[..|points| - 1], before)
    requires points[|points| - 1].drawdown < 0.0
    ensures var n := |points| - 1;
            MaximalRuns(points,
                        if before != [] && before[|before| - 1].end == n
                        then before[..|before| - 1] + [Span(before[|before| - 1].start, n + 1)]
                        else before + [Span(n, n + 1)])
  {
    var n := |points| - 1;
    var last := LastRun(points, before);
    if before != [] && before[|before| - 1].end == n {
      ExtendStep(points, before, last);
    } else {
      StartStep(points, before, last);
    }
  }

  lemma ExtendStep(points: seq<Point>, before: seq<Span>, last: Span)
    requires points != [] && before != [] && MaximalRuns(points[..|points| - 1], before)
    requires last == Span(before[|before| - 1].start, |points|) && MaximalRun(points, last)
    requires before[|before| - 1].end == |points| - 1
    ensures MaximalRuns(points, before[..|before| - 1] + [last])
  {
    hide MaximalRun;
    var m := |before| - 1;
    var after := before[..m] + [last];
    forall i | 0 <= i < |after| ensures MaximalRun(points, after[i]) {
      if i < m {
        assert before[i].end < before[m].start;
        RunFits(points[..|points| - 1], before[m]);
        RunStays(points, before[i]);
      }
    }
    forall k | 0 <= k < |points| && points[k].drawdown < 0.0 ensures InSome(after, k) {
      if k < |points| - 1 {
        CoveredBefore(points, before, k);
        var i :| 0 <= i < |before| && before[i].start <= k < before[i].end;
        assert after[i].start <= k < after[i].end;
      } else {
        RunFits(points, last);
        assert after[m] == last;
      }
    }
  }

  lemma StartStep(points: seq<Point>, before: seq<Span>, last: Span)
    requires points != [] && MaximalRuns(points[..|points| - 1], before)
    requires last == Span(|points| - 1, |points|) && MaximalRun(points, last)
    requires before == [] || before[|before| - 1].end < |points| - 1
    ensures MaximalRuns(points, before + [last])
  {
    hide MaximalRun;
    var m := |before|;
    var after := before + [last];
    forall i | 0 <= i < m ensures before[i].end < |points| - 1 && MaximalRun(points, before[i]) {
      if i < m - 1 {
        assert before[i].end < before[m - 1].start;
        RunFits(points[..|points| - 1], before[m - 1]);
      }
      RunStays(points, before[i]);
    }
    forall k | 0 <= k < |points| && points[k].drawdown < 0.0 ensures InSome(after, k) {
      if k < |points| - 1 {
        CoveredBefore(points, before, k);
        var i :| 0 <= i < |before| && before[i].start <= k < before[i].end;
        assert after[i] == before[i];
      } else {
        assert after[m] == last;
      }
    }
  }

  lemma RunFits(points: seq<Point>, s: Span)
    requires MaximalRun(points, s)
    ensures s.start < s.end <= |points|
  {}

  /** There is only one such segmentation. */
  lemma {:induction false} MaximalRunsUnique(points: seq<Point>, a: seq<Span>, b: seq<Span>)
    requires MaximalRuns(points, a) && MaximalRuns(points, b)
    ensures a == b
  {
    SameRuns(points, a, b);
    SameRuns(points, b, a);
    SameOrder(a, b);
  }

  lemma SameRuns(points: seq<Point>, a: seq<Span>, b: seq<Span>)
    requires MaximalRuns(points, a) && MaximalRuns(points, b)
    ensures forall s :: s in a ==> s in b
  {
    forall i | 0 <= i < |a| ensures a[i] in b {
      assert MaximalRun(points, a[i]);
      assert InSome(b, a[i].start);
      var j :| 0 <= j < |b| && b[j].start <= a[i].start < b[j].end;
      assert MaximalRun(points, b[j]);
      assert a[i] == b[j];
    }
  }

  predicate Ordered(a: seq<Span>) {
    forall i, j :: 0 <= i < j < |a| ==> a[i].start < a[j].start
  }

  lemma {:induction false} SameOrder(a: seq<Span>, b: seq<Span>)
    requires Ordered(a) && Ordered(b)
    requires (forall s :: s in a <==> s in b)
    ensures a == b
  {
    SameFirst(a, b);
    if a != [] {
      SpanRest(a);
      SpanRest(b);
      SameOrder(a[1..], b[1..]);
      assert a == [a[0]] + a[1..] && b == [b[0]] + b[1..];
    }
  }

  lemma SpanRest(a: seq<Span>)
    requires a != [] && Ordered(a)
    ensures Ordered(a[1..]) && forall s :: s in a[1..] <==> s in a && s != a[0]
  {}

  lemma SameFirst(a: seq<Span>, b: seq<Span>)
    requires Ordered(a) && Ordered(b) && forall s :: s in a <==> s in b
    ensures a == [] <==> b == []
    ensures a != [] ==> a[0] == b[0]
  {
    FirstIn(a);
    FirstIn(b);
    if a != [] {
      var j :| 0 <= j < |b| && b[j] == a[0];
      var i :| 0 <= i < |a| && a[i] == b[0];
    }
  }

  // ----- the walk

  lemma SpansFit(points: seq<Point>)
    ensures forall s :: s in Spans(points) ==> SpanFits(points, s)
  {
    SpansAreMaximalRuns(points);
    forall s | s in Spans(points) ensures SpanFits(points, s) {
      var i :| 0 <= i < |Spans(points)| && Spans(points)[i] == s;
      RunFits(points, s);
    }
  }

  function TrajectoryOf(points: seq<Point>): Option<Trajectory> {
    if points == [] then None
    else
      SpansFit(points);
      Some(Summary(EpisodesOf(points, Spans(points))))
  }

  /** Where the run that reaches the end of a prefix starts, if there is one. */
  function OpenRun(points: seq<Point>, i: nat): Option<nat>
    requires i <= |points|
  {
    var all := Spans(points[..i]);
    if all != [] && all[|all| - 1].end == i then Some(all[|all| - 1].start) else None
  }

  /** The spans of a prefix that have ended. */
  function Finished(points: seq<Point>, i: nat): seq<Span>
    requires i <= |points|
  {
    var all := Spans(points[..i]);
    if OpenRun(points, i).Some? then all[..|all| - 1] else all
  }

  lemma PrefixSpans(points: seq<Point>, i: nat)
    requires i <= |points|
    ensures forall s :: s in Spans(points[..i]) ==> s.start < s.end <= i && SpanFits(points, s)
    ensures forall s :: s in Finished(points, i) ==> s in Spans(points[..i])
    ensures OpenRun(points, i).Some? ==>
              OpenRun(points, i).value < i
              && Spans(points[..i]) == Finished(points, i) + [Span(OpenRun(points, i).value, i)]
    ensures OpenRun(points, i).None? ==> Spans(points[..i]) == Finished(points, i)
  {
    SpansFit(points[..i]);
    var all := Spans(points[..i]);
    if OpenRun(points, i).Some? {
      assert all[|all| - 1] in all && all == all[..|all| - 1] + [all[|all| - 1]];
    }
  }

  /** One further point: a quiet one ends the open run, a negative one keeps it open or opens one. */
  lemma RunStep(points: seq<Point>, i: nat)
    requires i < |points|
    ensures OpenRun(points, i + 1) ==
            if points[i].drawdown >= 0.0 then None
            else if OpenRun(points, i).Some? then OpenRun(points, i) else Some(i)
    ensures Finished(points, i + 1) ==
            if points[i].drawdown >= 0.0 && OpenRun(points, i).Some?
            then Finished(points, i) + [Span(OpenRun(points, i).value, i)] else Finished(points, i)
  {
    PrefixSpans(points, i);
    assert points[..i + 1][..i] == points[..i];
    var all := Spans(points[..i]);
    if points[i].drawdown >= 0.0 && all != [] {
      assert all[|all| - 1] in all;
    }
  }

  lemma EpisodesMore(points: seq<Point>, spans: seq<Span>, last: Span)
    requires (forall s :: s in spans ==> SpanFits(points, s)) && SpanFits(points, last)
    ensures EpisodesOf(points, spans + [last]) == EpisodesOf(points, spans) + [EpisodeOf(points, last)]
  {}

  method WalkEpisodes(points: seq<Point>) returns (episodes: seq<Episode>)
    ensures (forall s :: s in Spans(points) ==> SpanFits(points, s)) && episodes == EpisodesOf(points, Spans(points))
  {
    hide Spans, Trough, EpisodesOf, Finished, OpenRun;
    episodes := [];
    var falling := false;
    var start, trough, depth := 0, 0, 0.0;
    WalkStart(points);
    for i := 0 to |points|
      invariant forall s :: s in Finished(points, i) ==> SpanFits(points, s)
      invariant episodes == EpisodesOf(points, Finished(points, i))
      invariant if falling then OpenRun(points, i) == Some(start) && start < i else OpenRun(points, i).None?
      invariant falling ==> trough == Trough(points, start, i) && depth == points[trough].drawdown
    {
      RunStep(points, i);
      if points[i].drawdown >= 0.0 {
        if falling {
          EpisodesMore(points, Finished(points, i), Span(start, i));
          episodes := episodes + [Episode(points[trough].ts, depth, i - start, true)];
          falling := false;
        }
      } else if !falling {
        falling, start, trough, depth := true, i, i, points[i].drawdown;
        TroughStep(points, start, i);
      } else {
        TroughStep(points, start, i);
        if points[i].drawdown < depth {
          trough, depth := i, points[i].drawdown;
        }
      }
    }
    assert points[..|points|] == points;
    PrefixSpans(points, |points|);
    if falling {
      EpisodesMore(points, Finished(points, |points|), Span(start, |points|));
      episodes := episodes + [Episode(points[trough].ts, depth, |points| - start, false)];
    }
  }

  lemma WalkStart(points: seq<Point>)
    ensures Finished(points, 0) == [] && OpenRun(points, 0).None? && EpisodesOf(points, []) == []
  {}

  lemma TroughStep(points: seq<Point>, start: nat, i: nat)
    requires start <= i < |points|
    ensures Trough(points, start, i + 1) ==
            if i == start || points[i].drawdown < points[Trough(points, start, i)].drawdown then i
            else Trough(points, start, i)
  {}

  method DrawdownTrajectory(points: seq<Point>) returns (r: Option<Trajectory>)
    ensures r == TrajectoryOf(points)
  {
    if points == [] {
      return None;
    }
    var episodes := WalkEpisodes(points);
    r := Some(Summary(episodes));
  }

  // ----- what the summary says

  function NegativePoints(points: seq<Point>): nat {
    if points == [] then 0
    else NegativePoints(points[..|points| - 1]) + (if points[|points| - 1].drawdown < 0.0 then 1 else 0)
  }

  function TotalLength(spans: seq<Span>): int {
    if spans == [] then 0
    else TotalLength(spans[..|spans| - 1]) + spans[|spans| - 1].end - spans[|spans| - 1].start
  }

  function TotalDuration(episodes: seq<Episode>): nat {
    if episodes == [] then 0
    else TotalDuration(episodes[..|episodes| - 1]) + episodes[|episodes| - 1].duration
  }

  lemma {:induction false} LengthsCount(points: seq<Point>)
    ensures TotalLength(Spans(points)) == NegativePoints(points)
  {
    if points != [] {
      var n := |points| - 1;
      LengthsCount(points[..n]);
      var before := Spans(points[..n]);
      if points[n].drawdown < 0.0 {
        if before != [] && before[|before| - 1].end == n {
          var kept := before[..|before| - 1];
          var last := Span(before[|before| - 1].start, n + 1);
          assert (kept + [last])[..|kept|] == kept;
        } else {
          assert (before + [Span(n, n + 1)])[..|before|] == before;
        }
      }
    }
  }

  lemma {:induction false} DurationsAreLengths(points: seq<Point>, spans: seq<Span>)
    requires forall s :: s in spans ==> SpanFits(points, s)
    ensures TotalDuration(EpisodesOf(points, spans)) == TotalLength(spans)
  {
    if spans != [] {
      var n := |spans| - 1;
      DurationsAreLengths(points, spans[..n]);
      assert EpisodesOf(points, spans)[..n] == EpisodesOf(points, spans[..n]);
    }
  }

  /** The durations of all episodes add up to the number of points under water. */
  lemma DurationsConserved(points: seq<Point>)
    ensures (forall s :: s in Spans(points) ==> SpanFits(points, s))
            && TotalDuration(EpisodesOf(points, Spans(points))) == NegativePoints(points)
  {
    SpansFit(points);
    DurationsAreLengths(points, Spans(points));
    LengthsCount(points);
  }

  /** Only the last episode can be unrecovered, and it is exactly when the curve ends under water. */
  lemma OnlyLastUnrecovered(points: seq<Point>)
    ensures (forall s :: s in Spans(points) ==> SpanFits(points, s))
    ensures var es := EpisodesOf(points, Spans(points));
            forall i :: 0 <= i < |es| ==>
              (!es[i].recovered <==> i == |es| - 1 && points[|points| - 1].drawdown < 0.0)
  {
    hide Spans, MaximalRun;
    SpansFit(points);
    SpansAreMaximalRuns(points);
    var spans := Spans(points);
    if spans != [] {
      var last := spans[|spans| - 1];
      assert MaximalRun(points, last);
      RunFits(points, last);
      EndsUnderWater(points, spans);
    }
  }

  lemma EndsUnderWater(points: seq<Point>, spans: seq<Span>)
    requires MaximalRuns(points, spans) && spans != [] && points != []
    ensures spans[|spans| - 1].end == |points| <==> points[|points| - 1].drawdown < 0.0
    ensures forall i :: 0 <= i < |spans| - 1 ==> spans[i].end < |points|
  {}

  lemma {:induction false} DeepestIsLeast(episodes: seq<Episode>)
    ensures episodes == [] ==> Deepest(episodes) == 0.0
    ensures episodes != [] ==> exists e :: e in episodes && e.depth == Deepest(episodes)
    ensures forall e :: e in episodes ==> Deepest(episodes) <= e.depth
  {
    if |episodes| > 1 {
      DeepestIsLeast(episodes[1..]);
      assert episodes == [episodes[0]] + episodes[1..];
      var e :| e in episodes[1..] && e.depth == Deepest(episodes[1..]);
      assert e in episodes && episodes[0] in episodes;
    } else if |episodes| == 1 {
      assert episodes[0] in episodes;
    }
  }

  predicate Reached(points: seq<Point>, depth: real) {
    exists p :: p in points && p.drawdown == depth
  }

  /** The maximum depth is the least of zero and all drawdowns. */
  lemma MaxDepthExactly(points: seq<Point>)
    requires points != []
    ensures var depth := TrajectoryOf(points).value.maxDepth;
            && depth <= 0.0 && (forall p :: p in points ==> depth <= p.drawdown)
            && (depth == 0.0 || Reached(points, depth))
  {
    hide Spans, Deepest, MaximalRun, TopThree, Longest;
    SpansFit(points);
    SpansAreMaximalRuns(points);
    var spans := Spans(points);
    var es := EpisodesOf(points, spans);
    DeepestIsLeast(es);
    forall p | p in points ensures Deepest(es) <= p.drawdown || 0.0 <= p.drawdown {
      var k :| 0 <= k < |points| && points[k] == p;
      if p.drawdown < 0.0 {
        assert InSome(spans, k);
        var i :| 0 <= i < |spans| && spans[i].start <= k < spans[i].end;
        assert es[i] in es && spans[i] in spans;
      }
    }
    forall i | 0 <= i < |es| ensures es[i].depth < 0.0 && Reached(points, es[i].depth) {
      assert spans[i] in spans;
      DepthBelowZero(points, spans[i]);
    }
    if es != [] {
      var e :| e in es && e.depth == Deepest(es);
    }
  }

  predicate NoDeeperThan(points: seq<Point>, bound: real) {
    forall p :: p in points ==> p.drawdown >= -bound
  }

  /** The shape names the first band that no drawdown exceeds. */
  lemma ShapeExactly(points: seq<Point>)
    requires points != []
    ensures var shape := TrajectoryOf(points).value.shape;
            && (shape == Flat <==> NoDeeperThan(points, 0.005))
            && (shape == Shallow <==> !NoDeeperThan(points, 0.005) && NoDeeperThan(points, 0.05))
            && (shape == Moderate <==> !NoDeeperThan(points, 0.05) && NoDeeperThan(points, 0.15))
            && (shape == Deep <==> !NoDeeperThan(points, 0.15))
  {
    hide Spans, Deepest, TopThree, Longest;
    MaxDepthExactly(points);
    SpansFit(points);
  }

  lemma DepthBelowZero(points: seq<Point>, s: Span)
    requires SpanFits(points, s) && MaximalRun(points, s)
    ensures EpisodeOf(points, s).depth < 0.0 && Reached(points, EpisodeOf(points, s).depth)
  {}

  /** The summary is over the runs of the curve: their number, and the extremes and the deepest of their episodes. */
  lemma SummarizesRuns(points: seq<Point>)
    ensures TrajectoryOf(points).None? <==> points == []
    ensures (forall s :: s in Spans(points) ==> SpanFits(points, s))
    ensures points != [] ==>
              var t, es := TrajectoryOf(points).value, EpisodesOf(points, Spans(points));
              && t.episodeCount == |Spans(points)| == |es| && t.longestDuration == Longest(es)
              && t.maxDepth == Deepest(es) && t.episodes == TopThree(es)
  {
    SpansFit(points);
  }

  lemma {:induction false} LongestIsMost(episodes: seq<Episode>)
    ensures forall e :: e in episodes ==> e.duration <= Longest(episodes)
    ensures Longest(episodes) == 0 || exists e :: e in episodes && e.duration == Longest(episodes)
  {
    if episodes != [] {
      LongestIsMost(episodes[1..]);
      assert episodes == [episodes[0]] + episodes[1..];
      assert forall e :: e in episodes <==> e == episodes[0] || e in episodes[1..];
    }
  }

  /** The reported episodes are the three deepest, deepest first: no unreported one is deeper than a reported one. */
  lemma TopAreDeepest(episodes: seq<Episode>)
    ensures var top := TopThree(episodes);
            && |top| == (if |episodes| < 3 then |episodes| else 3)
            && (forall i, j :: 0 <= i < j < |top| ==> top[i].depth <= top[j].depth)
            && exists others: seq<Episode> :: multiset(episodes) == multiset(top) + multiset(others)
                                && forall t, o :: t in top && o in others ==> t.depth <= o.depth
  {
    hide Sort, SortedDesc;
    SortIsStable(Depth, episodes);
    SortKeepsMembers(Depth, episodes);
    var sorted := Sort(Depth, episodes);
    var n := |TopThree(episodes)|;
    assert sorted == sorted[..n] + sorted[n..];
    DeepestFirst(sorted, n);
  }

  lemma DeepestFirst(sorted: seq<Episode>, n: nat)
    requires SortedDesc(Depth, sorted) && n <= |sorted|
    ensures forall i, j :: 0 <= i < j < n ==> sorted[i].depth <= sorted[j].depth
    ensures forall t, o :: t in sorted[..n] && o in sorted[n..] ==> t.depth <= o.depth
  {}
}
