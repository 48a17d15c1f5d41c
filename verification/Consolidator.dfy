/**
  Multi-provider bar consolidation (consolidator.rs): every provider's bars are indexed by timestamp, disagreements
  are recorded or refused, and one bar per timestamp is chosen. Prices are real numbers.
*/
module Consolidator {
  import opened Basics
  import opened Numbers
  import opened StableSort
  import opened Normalizer

  datatype Provider = Provider(name: string, bars: seq<Bar>)

  datatype Quote = Quote(provider: string, bar: Bar)

  datatype Policy = PickPrecedence | Fail | Median

  datatype Config = Config(precedence: seq<string>, closeTolerance: real, volumeTolerance: real, onDisagree: Policy)

  datatype Reason = BarMissing | CloseMismatch | VolumeMismatch

  datatype Severity = Info | Warn

  datatype Reading = Reading(close: real, volume: real)

  datatype Divergence = Divergence(symbol: string, ts: int, providers: seq<string>,
                                   values: map<string, Option<Reading>>, reason: Reason, severity: Severity)

  datatype Outcome = Outcome(bars: seq<Bar>, warnings: seq<Divergence>)

  // ----- the index by timestamp

  function Tagged(name: string, bars: seq<Bar>): seq<Quote> {
    seq(|bars|, i requires 0 <= i < |bars| => Quote(name, bars[i]))
  }

  /** Every provider's bars, in the order of the input. */
  function Quotes(providers: seq<Provider>): seq<Quote> {
    if providers == [] then []
    else
      var n := |providers| - 1;
      Quotes(providers[..n]) + Tagged(providers[n].name, providers[n].bars)
  }

  function At(quotes: seq<Quote>, ts: int): seq<Quote> {
    if quotes == [] then []
    else
      var n := |quotes| - 1;
      At(quotes[..n], ts) + (if quotes[n].bar.ts == ts then [quotes[n]] else [])
  }

  /** A `BTreeMap` keeps its keys ascending and distinct. */
  function InsertTime(ts: int, times: seq<int>): seq<int> {
    if times == [] || ts < times[0] then [ts] + times
    else if ts == times[0] then times
    else [times[0]] + InsertTime(ts, times[1..])
  }

  function Times(quotes: seq<Quote>): seq<int> {
    if quotes == [] then []
    else InsertTime(quotes[|quotes| - 1].bar.ts, Times(quotes[..|quotes| - 1]))
  }

  predicate Rising(times: seq<int>) {
    forall i, j :: 0 <= i < j < |times| ==> times[i] < times[j]
  }

  ghost predicate Indexes(byTs: map<int, seq<Quote>>, times: seq<int>, quotes: seq<Quote>) {
    && times == Times(quotes)
    && (forall ts :: ts in byTs <==> ts in times)
    && forall ts :: ts in byTs ==> byTs[ts] == At(quotes, ts)
  }

  lemma {:induction false} InsertTimeMembers(ts: int, times: seq<int>)
    ensures forall t :: t in InsertTime(ts, times) <==> t == ts || t in times
  {
    if times != [] && ts > times[0] {
      InsertTimeMembers(ts, times[1..]);
      assert times == [times[0]] + times[1..];
    }
  }

  lemma {:induction false} InsertTimeRises(ts: int, times: seq<int>)
    requires Rising(times)
    ensures Rising(InsertTime(ts, times))
    ensures forall t :: t in InsertTime(ts, times) <==> t == ts || t in times
  {
    InsertTimeMembers(ts, times);
    if times != [] && ts > times[0] {
      InsertTimeRises(ts, times[1..]);
      TailAbove(times);
      PutBefore(times[0], InsertTime(ts, times[1..]));
    }
  }

  lemma TailAbove(times: seq<int>)
    requires times != [] && Rising(times)
    ensures forall t :: t in times[1..] ==> t > times[0]
  {}

  lemma PutBefore(first: int, rest: seq<int>)
    requires Rising(rest) && forall t :: t in rest ==> t > first
    ensures Rising([first] + rest)
  {
    assert forall k :: 0 <= k < |rest| ==> rest[k] in rest;
  }

  lemma {:induction false} TimesRise(quotes: seq<Quote>)
    ensures Rising(Times(quotes))
    ensures forall ts :: ts in Times(quotes) <==> exists q :: q in quotes && q.bar.ts == ts
  {
    if quotes != [] {
      var n := |quotes| - 1;
      TimesRise(quotes[..n]);
      InsertTimeRises(quotes[n].bar.ts, Times(quotes[..n]));
      assert forall q :: q in quotes <==> q in quotes[..n] || q == quotes[n];
    }
  }

  lemma {:induction false} AtMembers(quotes: seq<Quote>, ts: int)
    ensures forall q :: q in At(quotes, ts) <==> q in quotes && q.bar.ts == ts
    ensures At(quotes, ts) != [] <==> ts in Times(quotes)
  {
    TimesRise(quotes);
    AtHolds(quotes, ts);
    if At(quotes, ts) != [] {
      assert At(quotes, ts)[0] in At(quotes, ts);
    }
  }

  lemma {:induction false} AtHolds(quotes: seq<Quote>, ts: int)
    ensures forall q :: q in At(quotes, ts) <==> q in quotes && q.bar.ts == ts
  {
    if quotes != [] {
      var n := |quotes| - 1;
      AtHolds(quotes[..n], ts);
      assert forall q :: q in quotes <==> q in quotes[..n] || q == quotes[n];
    }
  }

  lemma OneMoreQuote(quotes: seq<Quote>, q: Quote, ts: int)
    ensures At(quotes + [q], ts) == At(quotes, ts) + (if q.bar.ts == ts then [q] else [])
    ensures Times(quotes + [q]) == InsertTime(q.bar.ts, Times(quotes))
  {}

  lemma IndexOneMore(byTs: map<int, seq<Quote>>, times: seq<int>, quotes: seq<Quote>, q: Quote)
    requires Indexes(byTs, times, quotes)
    ensures var before := if q.bar.ts in byTs then byTs[q.bar.ts] else [];
            Indexes(byTs[q.bar.ts := before + [q]], InsertTime(q.bar.ts, times), quotes + [q])
  {
    hide At, Times, InsertTime;
    TimesRise(quotes);
    InsertTimeRises(q.bar.ts, times);
    AtMembers(quotes, q.bar.ts);
    OneMoreQuote(quotes, q, q.bar.ts);
    var before := if q.bar.ts in byTs then byTs[q.bar.ts] else [];
    var after := byTs[q.bar.ts := before + [q]];
    forall ts | ts in after ensures after[ts] == At(quotes + [q], ts) {
      OneMoreQuote(quotes, q, ts);
    }
  }

  method IndexByTime(providers: seq<Provider>) returns (byTs: map<int, seq<Quote>>, times: seq<int>)
    ensures Indexes(byTs, times, Quotes(providers))
  {
    hide Times, At, InsertTime;
    byTs, times := map[], [];
    IndexNothing();
    for i := 0 to |providers|
      invariant Indexes(byTs, times, Quotes(providers[..i]))
    {
      var p := providers[i];
      ghost var done := Quotes(providers[..i]);
      assert done + Tagged(p.name, p.bars)[..0] == done;
      for j := 0 to |p.bars|
        invariant Indexes(byTs, times, done + Tagged(p.name, p.bars)[..j])
      {
        var q := Quote(p.name, p.bars[j]);
        IndexOneMore(byTs, times, done + Tagged(p.name, p.bars)[..j], q);
        assert done + Tagged(p.name, p.bars)[..j + 1] == done + Tagged(p.name, p.bars)[..j] + [q];
        times := InsertTime(q.bar.ts, times);
        byTs := byTs[q.bar.ts := (if q.bar.ts in byTs then byTs[q.bar.ts] else []) + [q]];
      }
      assert providers[..i + 1][..i] == providers[..i];
      assert Tagged(p.name, p.bars)[..|p.bars|] == Tagged(p.name, p.bars);
    }
    assert providers[..|providers|] == providers;
  }

  lemma IndexNothing()
    ensures Indexes(map[], [], [])
  {}

  // ----- disagreement

  function Relative(gap: real, base: real): real
    requires base > 0.0
  {
    gap / base
  }

  predicate Diverges(values: seq<real>, tolerance: real) {
    if |values| < 2 then false
    else
      var min, max := MinOf(values), MaxOf(values);
      var gap := max - min;
      if min <= 0.0 then (if gap < 0.0 then -gap else gap) > tolerance else Relative(gap, min) > tolerance
  }

  function Closes(here: seq<Quote>): seq<real> {
    seq(|here|, i requires 0 <= i < |here| => here[i].bar.close)
  }

  function Volumes(here: seq<Quote>): seq<real> {
    seq(|here|, i requires 0 <= i < |here| => here[i].bar.volume)
  }

  function Names(providers: seq<Provider>): seq<string> {
    seq(|providers|, i requires 0 <= i < |providers| => providers[i].name)
  }

  function Missing(names: seq<string>, here: seq<Quote>): set<string> {
    (set n | n in names) - (set q | q in here :: q.provider)
  }

  function Readings(here: seq<Quote>): map<string, Option<Reading>> {
    if here == [] then map[]
    else
      var last := here[|here| - 1];
      Readings(here[..|here| - 1])[last.provider := Some(Reading(last.bar.close, last.bar.volume))]
  }

  function MissingWarning(names: seq<string>, ts: int, here: seq<Quote>): seq<Divergence>
    requires here != []
  {
    var missing := Missing(names, here);
    if missing == {} then []
    else
      var values := Readings(here) + (map m | m in missing :: None);
      [Divergence(here[0].bar.symbol, ts, names, values, BarMissing, Info)]
  }

  predicate ClosesDiverge(c: Config, here: seq<Quote>) {
    Diverges(Closes(here), c.closeTolerance)
  }

  predicate VolumesDiverge(c: Config, here: seq<Quote>) {
    Diverges(Volumes(here), c.volumeTolerance)
  }

  function MismatchWarning(c: Config, names: seq<string>, ts: int, here: seq<Quote>): seq<Divergence>
    requires here != []
  {
    if ClosesDiverge(c, here) then [Divergence(here[0].bar.symbol, ts, names, Readings(here), CloseMismatch, Warn)]
    else if VolumesDiverge(c, here)
        then [Divergence(here[0].bar.symbol, ts, names, Readings(here), VolumeMismatch, Info)]
    else []
  }

  // ----- choice

  function Position(here: seq<Quote>, name: string): Option<nat> {
    if here == [] then None
    else if here[0].provider == name then Some(0)
    else match Position(here[1..], name) case None => None case Some(k) => Some(k + 1)
  }

  function PickIndex(precedence: seq<string>, here: seq<Quote>): (k: nat)
    requires here != []
    ensures k < |here|
    decreases precedence
  {
    if precedence == [] then 0
    else
      PositionFirst(here, precedence[0]);
      match Position(here, precedence[0])
      case Some(k) => k
      case None => PickIndex(precedence[1..], here)
  }

  lemma {:induction false} PositionFirst(here: seq<Quote>, name: string)
    ensures match Position(here, name)
            case None => forall q :: q in here ==> q.provider != name
            case Some(k) =>
              k < |here| && here[k].provider == name && forall i :: 0 <= i < k ==> here[i].provider != name
  {
    if here != [] {
      PositionFirst(here[1..], name);
      assert here == [here[0]] + here[1..];
      match Position(here[1..], name)
      case None =>
      case Some(k) =>
        assert forall i :: 0 < i <= k ==> here[i] == here[1..][i - 1];
    }
  }

  datatype Ranked = Ranked(index: nat, close: real)

  function Falling(r: Ranked): real {
    -r.close
  }

  function Ranks(here: seq<Quote>): seq<Ranked> {
    seq(|here|, i requires 0 <= i < |here| => Ranked(i, here[i].bar.close))
  }

  function MedianIndex(here: seq<Quote>): (k: nat)
    requires here != []
    ensures k < |here|
  {
    SortKeepsMembers(Falling, Ranks(here));
    var sorted := Sort(Falling, Ranks(here));
    assert sorted[|here| / 2] in Ranks(here);
    sorted[|here| / 2].index
  }

  function ChosenIndex(c: Config, here: seq<Quote>): (k: nat)
    requires here != []
    ensures k < |here|
  {
    if c.onDisagree == Median && |here| > 1 then MedianIndex(here) else PickIndex(c.precedence, here)
  }

  function Chosen(c: Config, here: seq<Quote>): Bar
    requires here != []
  {
    here[ChosenIndex(c, here)].bar
  }

  // ----- the merge

  /** One timestamp: the chosen bar and the warnings, or the refused disagreement. */
  function Judged(c: Config, names: seq<string>, ts: int, here: seq<Quote>): Result<(Bar, seq<Divergence>), Divergence>
    requires here != []
  {
    var mismatch := MismatchWarning(c, names, ts, here);
    if ClosesDiverge(c, here) && c.onDisagree == Fail then Err(mismatch[0])
    else Ok((Chosen(c, here), MissingWarning(names, ts, here) + mismatch))
  }

  predicate AllPresent(quotes: seq<Quote>, times: seq<int>) {
    forall ts :: ts in times ==> At(quotes, ts) != []
  }

  /** The bars and warnings of the first timestamps, or the first refused disagreement. */
  function MergeTimes(c: Config, names: seq<string>, quotes: seq<Quote>, times: seq<int>): Result<Outcome, Divergence>
    requires AllPresent(quotes, times)
  {
    if times == [] then Ok(Outcome([], []))
    else
      var n := |times| - 1;
      match MergeTimes(c, names, quotes, times[..n])
      case Err(e) => Err(e)
      case Ok(out) =>
        match Judged(c, names, times[n], At(quotes, times[n]))
        case Err(e) => Err(e)
        case Ok(merged) => Ok(Outcome(out.bars + [merged.0], out.warnings + merged.1))
  }

  lemma TimesPresent(quotes: seq<Quote>)
    ensures AllPresent(quotes, Times(quotes))
  {
    forall ts | ts in Times(quotes) ensures At(quotes, ts) != [] {
      AtMembers(quotes, ts);
    }
  }

  function Merge(c: Config, providers: seq<Provider>): Result<Outcome, Divergence> {
    if providers == [] then Ok(Outcome([], []))
    else if |providers| == 1 then Ok(Outcome(providers[0].bars, []))
    else
      var quotes := Quotes(providers);
      TimesPresent(quotes);
      match MergeTimes(c, Names(providers), quotes, Times(quotes))
      case Err(e) => Err(e)
      case Ok(out) => Ok(Outcome(Sort(ByTime, out.bars), out.warnings))
  }

  method PickByPrecedence(precedence: seq<string>, here: seq<Quote>) returns (bar: Bar)
    requires here != []
    ensures bar == here[PickIndex(precedence, here)].bar
  {
    assert precedence[0..] == precedence;
    for i := 0 to |precedence|
      invariant PickIndex(precedence, here) == PickIndex(precedence[i..], here)
    {
      assert precedence[i..][1..] == precedence[i + 1..];
      PositionFirst(here, precedence[i]);
      match Position(here, precedence[i])
      case Some(k) => return here[k].bar;
      case None =>
    }
    bar := here[0].bar;
  }

  /** One turn of the main loop. */
  method MergeAt(c: Config, names: seq<string>, ts: int, here: seq<Quote>)
    returns (r: Result<(Bar, seq<Divergence>), Divergence>)
    requires here != []
    ensures r == Judged(c, names, ts, here)
  {
    hide Diverges, Readings, Sort;
    var warnings := MissingWarning(names, ts, here);
    var mismatch: seq<Divergence> := [];
    if |here| > 1 {
      var closes := Diverges(Closes(here), c.closeTolerance);
      var volumes := Diverges(Volumes(here), c.volumeTolerance);
      if closes || volumes {
        var record := Divergence(here[0].bar.symbol, ts, names, Readings(here),
                                 if closes then CloseMismatch else VolumeMismatch, if closes then Warn else Info);
        if closes && c.onDisagree == Fail {
          return Err(record);
        }
        mismatch := [record];
      }
    } else {
      Alone(here, c.closeTolerance, c.volumeTolerance);
    }
    var bar: Bar;
    if c.onDisagree == Median && |here| > 1 {
      var sorted := Sort(Falling, Ranks(here));
      SortKeepsMembers(Falling, Ranks(here));
      var median := sorted[|here| / 2];
      assert median in Ranks(here);
      bar := here[median.index].bar;
    } else {
      bar := PickByPrecedence(c.precedence, here);
    }
    assert warnings + [] == warnings;
    r := Ok((bar, warnings + mismatch));
  }

  lemma Alone(here: seq<Quote>, a: real, b: real)
    requires |here| == 1
    ensures !Diverges(Closes(here), a) && !Diverges(Volumes(here), b)
  {}

  method MergeProviders(c: Config, providers: seq<Provider>) returns (r: Result<Outcome, Divergence>)
    ensures r == Merge(c, providers)
  {
    hide Judged, Times, Sort;
    if providers == [] {
      return Ok(Outcome([], []));
    }
    if |providers| == 1 {
      return Ok(Outcome(providers[0].bars, []));
    }
    var byTs, times := IndexByTime(providers);
    var names := Names(providers);
    ghost var quotes := Quotes(providers);
    TimesPresent(quotes);
    var bars: seq<Bar>, warnings: seq<Divergence> := [], [];
    for i := 0 to |times|
      invariant AllPresent(quotes, times[..i])
      invariant MergeTimes(c, names, quotes, times[..i]) == Ok(Outcome(bars, warnings))
    {
      var ts := times[i];
      assert times[..i + 1][..i] == times[..i] && ts in times;
      assert byTs[ts] == At(quotes, ts);
      AllPrefix(quotes, times, i + 1);
      var merged := MergeAt(c, names, ts, byTs[ts]);
      if merged.Err? {
        FailsAtEnd(c, names, quotes, times, i + 1);
        return Err(merged.error);
      }
      bars, warnings := bars + [merged.value.0], warnings + merged.value.1;
    }
    assert times[..|times|] == times;
    r := Ok(Outcome(Sort(ByTime, bars), warnings));
  }

  lemma AllPrefix(quotes: seq<Quote>, times: seq<int>, i: nat)
    requires AllPresent(quotes, times) && i <= |times|
    ensures AllPresent(quotes, times[..i])
  {}

  /** A refused disagreement is the result of the whole merge. */
  lemma {:induction false} FailsAtEnd(c: Config, names: seq<string>, quotes: seq<Quote>, times: seq<int>, i: nat)
    requires AllPresent(quotes, times) && i <= |times| && AllPresent(quotes, times[..i])
    requires MergeTimes(c, names, quotes, times[..i]).Err?
    ensures MergeTimes(c, names, quotes, times) == MergeTimes(c, names, quotes, times[..i])
    decreases |times|
  {
    hide Judged;
    if i == |times| {
      assert times[..i] == times;
    } else {
      var n := |times| - 1;
      AllPrefix(quotes, times, n);
      assert times[..n][..i] == times[..i];
      FailsAtEnd(c, names, quotes, times[..n], i);
    }
  }

  // ----- what the choice means

  /** Quote `k` is the first one of the `j`-th ranked provider, and no provider ranked higher has one. */
  predicate HighestPresent(precedence: seq<string>, here: seq<Quote>, k: nat, j: nat)
    requires k < |here|
  {
    && j < |precedence| && here[k].provider == precedence[j]
    && (forall i, q :: 0 <= i < j && q in here ==> q.provider != precedence[i])
    && (forall i :: 0 <= i < k ==> here[i].provider != precedence[j])
  }

  /** Under precedence the chosen quote is the first one of the highest-ranked provider that has one; when no
      ranked provider has one, it is the first quote of all. */
  lemma {:induction false} PickIsHighestPresent(precedence: seq<string>, here: seq<Quote>)
    requires here != []
    ensures (forall q :: q in here ==> q.provider !in precedence) ==> PickIndex(precedence, here) == 0
    ensures (exists q :: q in here && q.provider in precedence) ==>
              exists j: nat :: HighestPresent(precedence, here, PickIndex(precedence, here), j)
  {
    hide HighestPresent;
    if precedence != [] {
      PositionFirst(here, precedence[0]);
      assert precedence == [precedence[0]] + precedence[1..];
      var k := PickIndex(precedence, here);
      if Position(here, precedence[0]).Some? {
        assert here[k] in here && here[k].provider in precedence;
        FirstRanked(precedence, here, k);
      } else {
        PickIsHighestPresent(precedence[1..], here);
        assert forall q :: q in here ==> (q.provider in precedence <==> q.provider in precedence[1..]);
        if exists q :: q in here && q.provider in precedence {
          var j: nat :| HighestPresent(precedence[1..], here, k, j);
          LaterRanked(precedence, here, k, j);
        }
      }
    }
  }

  lemma FirstRanked(precedence: seq<string>, here: seq<Quote>, k: nat)
    requires precedence != [] && k < |here| && here[k].provider == precedence[0]
    requires forall i :: 0 <= i < k ==> here[i].provider != precedence[0]
    ensures HighestPresent(precedence, here, k, 0)
  {}

  lemma LaterRanked(precedence: seq<string>, here: seq<Quote>, k: nat, j: nat)
    requires precedence != [] && k < |here| && HighestPresent(precedence[1..], here, k, j)
    requires forall q :: q in here ==> q.provider != precedence[0]
    ensures HighestPresent(precedence, here, k, j + 1)
  {}

  function Below(values: seq<real>, c: real): nat {
    if values == [] then 0 else (if values[0] < c then 1 else 0) + Below(values[1..], c)
  }

  function AtMost(values: seq<real>, c: real): nat {
    if values == [] then 0 else (if values[0] <= c then 1 else 0) + AtMost(values[1..], c)
  }

  function ClosesOf(ranks: seq<Ranked>): seq<real> {
    seq(|ranks|, i requires 0 <= i < |ranks| => ranks[i].close)
  }

  lemma CountsCons(r: Ranked, ranks: seq<Ranked>, c: real)
    ensures Below(ClosesOf([r] + ranks), c) == (if r.close < c then 1 else 0) + Below(ClosesOf(ranks), c)
    ensures AtMost(ClosesOf([r] + ranks), c) == (if r.close <= c then 1 else 0) + AtMost(ClosesOf(ranks), c)
  {
    assert ClosesOf([r] + ranks)[1..] == ClosesOf(ranks);
  }

  lemma {:induction false} CountsInsert(r: Ranked, ranks: seq<Ranked>, c: real)
    ensures Below(ClosesOf(Insert(Falling, r, ranks)), c) == Below(ClosesOf([r] + ranks), c)
    ensures AtMost(ClosesOf(Insert(Falling, r, ranks)), c) == AtMost(ClosesOf([r] + ranks), c)
  {
    hide Below, AtMost, ClosesOf, Falling;
    if ranks != [] {
      CountsInsert(r, ranks[1..], c);
      assert ranks == [ranks[0]] + ranks[1..];
      CountsCons(r, ranks, c);
      CountsCons(r, ranks[1..], c);
      CountsCons(ranks[0], ranks[1..], c);
      CountsCons(ranks[0], Insert(Falling, r, ranks[1..]), c);
    }
  }

  lemma {:induction false} CountsSort(ranks: seq<Ranked>, c: real)
    ensures Below(ClosesOf(Sort(Falling, ranks)), c) == Below(ClosesOf(ranks), c)
    ensures AtMost(ClosesOf(Sort(Falling, ranks)), c) == AtMost(ClosesOf(ranks), c)
  {
    hide Below, AtMost, ClosesOf, Falling;
    if ranks != [] {
      CountsSort(ranks[1..], c);
      assert ranks == [ranks[0]] + ranks[1..];
      CountsInsert(ranks[0], Sort(Falling, ranks[1..]), c);
      CountsCons(ranks[0], ranks[1..], c);
      CountsCons(ranks[0], Sort(Falling, ranks[1..]), c);
    }
  }

  lemma {:induction false} FewBelow(values: seq<real>, k: nat, c: real)
    requires k <= |values| && forall i :: k <= i < |values| ==> values[i] >= c
    ensures Below(values, c) <= k
  {
    if values != [] {
      FewBelow(values[1..], if k > 0 then k - 1 else 0, c);
    }
  }

  lemma {:induction false} ManyAtMost(values: seq<real>, k: nat, c: real)
    requires k <= |values| && forall i :: 0 <= i < k ==> values[i] <= c
    ensures AtMost(values, c) >= k
  {
    if values != [] && k > 0 {
      ManyAtMost(values[1..], k - 1, c);
    }
  }

  /** The median index points at an upper median: at most half of the closes lie below it, and more than half
      do not lie above it. */
  lemma MedianIsUpper(here: seq<Quote>)
    requires here != []
    ensures var c := here[MedianIndex(here)].bar.close;
            Below(Closes(here), c) <= |here| / 2 && AtMost(Closes(here), c) > |here| / 2
  {
    hide Below, AtMost, Sort;
    SortKeepsMembers(Falling, Ranks(here));
    var sorted := Sort(Falling, Ranks(here));
    var k := |here| / 2;
    assert sorted[k] in Ranks(here);
    var c := sorted[k].close;
    SortIsStable(Falling, Ranks(here));
    CountsSort(Ranks(here), c);
    assert ClosesOf(Ranks(here)) == Closes(here);
    forall i, j | 0 <= i <= j < |sorted| ensures sorted[i].close <= sorted[j].close {
      assert i < j ==> Falling(sorted[i]) >= Falling(sorted[j]);
    }
    FewBelow(ClosesOf(sorted), k, c);
    ManyAtMost(ClosesOf(sorted), k + 1, c);
  }

  /** In the order of the sort: by close, and of equal closes the earlier provider first. */
  predicate Precedes(a: Ranked, b: Ranked) {
    a.close < b.close || (a.close == b.close && a.index < b.index)
  }

  predicate Arranged(s: seq<Ranked>) {
    forall p, q :: 0 <= p < q < |s| ==> Precedes(s[p], s[q])
  }

  function Ahead(s: seq<Ranked>, r: Ranked): nat {
    if s == [] then 0 else Ahead(s[..|s| - 1], r) + (if Precedes(s[|s| - 1], r) then 1 else 0)
  }

  lemma {:induction false} InsertArranged(r: Ranked, s: seq<Ranked>)
    requires Arranged(s) && forall x :: x in s ==> r.index < x.index
    ensures Arranged(Insert(Falling, r, s))
    ensures forall x :: x in Insert(Falling, r, s) <==> x == r || x in s
  {
    if s != [] && Falling(s[0]) > Falling(r) {
      InsertArranged(r, s[1..]);
      assert s == [s[0]] + s[1..];
      var rest := Insert(Falling, r, s[1..]);
      forall q | 0 <= q < |rest| ensures Precedes(s[0], rest[q]) {
        assert rest[q] in rest;
      }
    }
  }

  lemma {:induction false} SortArranged(s: seq<Ranked>)
    requires forall p, q :: 0 <= p < q < |s| ==> s[p].index < s[q].index
    ensures Arranged(Sort(Falling, s))
    ensures forall x :: x in Sort(Falling, s) <==> x in s
  {
    hide Insert, Arranged;
    if s == [] {
      NothingArranged();
    } else {
      SortArranged(s[1..]);
      assert s == [s[0]] + s[1..];
      InsertArranged(s[0], Sort(Falling, s[1..]));
    }
  }

  lemma NothingArranged()
    ensures Arranged([])
  {}

  lemma {:induction false} AheadConcat(a: seq<Ranked>, b: seq<Ranked>, r: Ranked)
    ensures Ahead(a + b, r) == Ahead(a, r) + Ahead(b, r)
  {
    hide Precedes;
    if b == [] {
      assert a + b == a;
    } else {
      assert (a + b)[..|a + b| - 1] == a + b[..|b| - 1];
      AheadConcat(a, b[..|b| - 1], r);
    }
  }

  lemma {:induction false} AheadInsert(x: Ranked, s: seq<Ranked>, r: Ranked)
    ensures Ahead(Insert(Falling, x, s), r) == Ahead([x] + s, r)
  {
    hide Ahead, Precedes;
    if s != [] && Falling(s[0]) > Falling(x) {
      AheadInsert(x, s[1..], r);
      assert s == [s[0]] + s[1..] && [x] + s == [x] + [s[0]] + s[1..];
      AheadConcat([s[0]], Insert(Falling, x, s[1..]), r);
      AheadConcat([x], s[1..], r);
      AheadConcat([x] + [s[0]], s[1..], r);
      AheadConcat([x], [s[0]], r);
    }
  }

  lemma {:induction false} AheadSort(s: seq<Ranked>, r: Ranked)
    ensures Ahead(Sort(Falling, s), r) == Ahead(s, r)
  {
    hide Ahead, Insert;
    if s != [] {
      AheadSort(s[1..], r);
      AheadInsert(s[0], Sort(Falling, s[1..]), r);
      assert s == [s[0]] + s[1..];
      AheadConcat([s[0]], s[1..], r);
      AheadConcat([s[0]], Sort(Falling, s[1..]), r);
    }
  }

  lemma {:induction false} AheadAll(s: seq<Ranked>, r: Ranked)
    ensures (forall x :: x in s ==> Precedes(x, r)) ==> Ahead(s, r) == |s|
    ensures (forall x :: x in s ==> !Precedes(x, r)) ==> Ahead(s, r) == 0
  {
    if s != [] {
      AheadAll(s[..|s| - 1], r);
      assert s == s[..|s| - 1] + [s[|s| - 1]];
    }
  }

  lemma ArrangedAt(s: seq<Ranked>, k: nat)
    requires Arranged(s) && k < |s|
    ensures Ahead(s, s[k]) == k
  {
    assert s == s[..k] + s[k..];
    AheadConcat(s[..k], s[k..], s[k]);
    AheadAll(s[..k], s[k]);
    AheadAll(s[k..], s[k]);
    forall x | x in s[k..] ensures !Precedes(x, s[k]) {
      var q :| 0 <= q < |s[k..]| && s[k..][q] == x;
      assert q > 0 ==> Precedes(s[k], s[k + q]);
    }
  }

  lemma {:induction false} AheadIsCount(s: seq<Ranked>, r: Ranked)
    ensures Ahead(s, r) == |set p | 0 <= p < |s| && Precedes(s[p], r)|
  {
    hide Precedes;
    var all := set p | 0 <= p < |s| && Precedes(s[p], r);
    if s != [] {
      var n := |s| - 1;
      var before := set p | 0 <= p < |s[..n]| && Precedes(s[..n][p], r);
      AheadIsCount(s[..n], r);
      assert all == if Precedes(s[n], r) then before + {n} else before;
    }
  }

  /** The quotes with a lower close, and those with the same from earlier providers. */
  function Lower(here: seq<Quote>, m: nat): set<int>
    requires m < |here|
  {
    var close := here[m].bar.close;
    set p | 0 <= p < |here| && (here[p].bar.close < close || (here[p].bar.close == close && p < m))
  }

  /** The median quote, exactly: half of the quotes, rounded down, come before it. */
  lemma MedianExactly(here: seq<Quote>)
    requires here != []
    ensures |Lower(here, MedianIndex(here))| == |here| / 2
  {
    hide Ahead, Arranged, Sort;
    var ranks := Ranks(here);
    var sorted := Sort(Falling, ranks);
    SortArranged(ranks);
    SortKeepsMembers(Falling, ranks);
    var k := |here| / 2;
    assert sorted[k] in ranks;
    ArrangedAt(sorted, k);
    AheadSort(ranks, sorted[k]);
    AheadIsCount(ranks, sorted[k]);
    assert Lower(here, MedianIndex(here)) == set p | 0 <= p < |ranks| && Precedes(ranks[p], sorted[k]);
  }

  /** Which bar a timestamp gets: the median's, where that is the policy and there are two quotes or more, and else that
      of the first quote of the highest-ranked provider present, or of the first quote if none is ranked. */
  lemma ChosenExactly(c: Config, here: seq<Quote>)
    requires here != []
    ensures c.onDisagree == Median && |here| >= 2 ==>
              exists m: nat :: m < |here| && Chosen(c, here) == here[m].bar && |Lower(here, m)| == |here| / 2
    ensures c.onDisagree != Median || |here| == 1 ==>
              if forall q :: q in here ==> q.provider !in c.precedence then Chosen(c, here) == here[0].bar
              else exists k: nat, j: nat ::
                     k < |here| && HighestPresent(c.precedence, here, k, j) && Chosen(c, here) == here[k].bar
  {
    hide HighestPresent, Lower, PickIndex, MedianIndex;
    MedianExactly(here);
    PickIsHighestPresent(c.precedence, here);
  }

  function Share(tolerance: real, v: real): real {
    tolerance * v
  }

  /** Two values differ by more than the tolerance: relative to the smaller one, or absolutely when some value is
      not positive. */
  predicate Apart(values: seq<real>, i: nat, j: nat, tolerance: real)
    requires i < |values| && j < |values|
  {
    values[i] - values[j] > if exists v :: v in values && v <= 0.0 then tolerance else Share(tolerance, values[j])
  }

  lemma RelativeExceeds(gap: real, base: real, tolerance: real)
    requires base > 0.0
    ensures Relative(gap, base) > tolerance <==> gap > Share(tolerance, base)
  {}

  lemma ShareRises(tolerance: real, x: real, y: real)
    requires tolerance >= 0.0 && x <= y
    ensures Share(tolerance, x) <= Share(tolerance, y)
  {}

  lemma ShareOfZero(tolerance: real)
    ensures Share(tolerance, 0.0) == 0.0
  {}

  lemma ExtremesApart(values: seq<real>, i: nat, j: nat, low: nat, high: nat, tolerance: real)
    requires tolerance >= 0.0 && i < |values| && j < |values| && low < |values| && high < |values|
    requires values[low] == MinOf(values) && values[high] == MaxOf(values)
    requires Apart(values, i, j, tolerance)
    ensures Apart(values, high, low, tolerance)
  {
    hide Share;
    assert values[i] in values && values[j] in values;
    ShareRises(tolerance, values[low], values[j]);
  }

  lemma FoldIsExtremes(values: seq<real>, low: nat, high: nat, tolerance: real)
    requires tolerance >= 0.0 && low < |values| && high < |values|
    requires values[low] == MinOf(values) && values[high] == MaxOf(values)
    ensures Diverges(values, tolerance) <==> Apart(values, high, low, tolerance)
  {
    hide Share, Relative, MinOf, MaxOf;
    var min := MinOf(values);
    assert (exists v :: v in values && v <= 0.0) <==> min <= 0.0;
    assert values[high] in values;
    if min > 0.0 {
      RelativeExceeds(MaxOf(values) - min, min, tolerance);
      ShareRises(tolerance, 0.0, min);
      ShareOfZero(tolerance);
    }
  }

  /** With a negative tolerance any two values are too far apart, a value even from itself. */
  lemma AlwaysApart(values: seq<real>, tolerance: real)
    requires tolerance < 0.0 && |values| >= 2
    ensures Diverges(values, tolerance) && Apart(values, 0, 0, tolerance)
  {
    hide Share, Relative, MinOf, MaxOf;
    assert values[0] in values;
    assert MinOf(values) <= values[0] <= MaxOf(values);
    if MinOf(values) > 0.0 {
      RelativeExceeds(MaxOf(values) - MinOf(values), MinOf(values), tolerance);
      NegativeShare(tolerance, MinOf(values));
    }
    if values[0] > 0.0 {
      NegativeShare(tolerance, values[0]);
    }
  }

  lemma NegativeShare(tolerance: real, v: real)
    requires tolerance < 0.0 && v > 0.0
    ensures Share(tolerance, v) < 0.0
  {}

  /** The fold over minimum and maximum says whether there are two values, and some two, or one and itself when the
      tolerance is negative, are apart, in whatever order they come. */
  lemma DivergesExactly(values: seq<real>, tolerance: real)
    ensures Diverges(values, tolerance) <==>
            |values| >= 2
            && exists i: nat, j: nat :: i < |values| && j < |values| && Apart(values, i, j, tolerance)
  {
    hide Diverges, Apart;
    if |values| >= 2 && tolerance < 0.0 {
      AlwaysApart(values, tolerance);
    } else if |values| >= 2 {
      var low: nat :| low < |values| && values[low] == MinOf(values);
      var high: nat :| high < |values| && values[high] == MaxOf(values);
      FoldIsExtremes(values, low, high, tolerance);
      if exists i: nat, j: nat :: i < |values| && j < |values| && Apart(values, i, j, tolerance) {
        var i: nat, j: nat :| i < |values| && j < |values| && Apart(values, i, j, tolerance);
        ExtremesApart(values, i, j, low, high, tolerance);
      }
    } else {
      NothingDiverges(values, tolerance);
    }
  }

  lemma NothingDiverges(values: seq<real>, tolerance: real)
    requires |values| < 2
    ensures !Diverges(values, tolerance)
  {}

  // ----- what the whole merge does

  /** Whether a warning of this kind is due at a timestamp. */
  predicate Due(c: Config, names: seq<string>, here: seq<Quote>, reason: Reason) {
    match reason
    case BarMissing => exists n :: n in names && forall q :: q in here ==> q.provider != n
    case CloseMismatch => ClosesDiverge(c, here)
    case VolumeMismatch => !ClosesDiverge(c, here) && VolumesDiverge(c, here)
  }

  function DueTimes(c: Config, names: seq<string>, quotes: seq<Quote>, times: seq<int>, reason: Reason): seq<int> {
    if times == [] then []
    else
      var n := |times| - 1;
      DueTimes(c, names, quotes, times[..n], reason)
      + (if Due(c, names, At(quotes, times[n]), reason) then [times[n]] else [])
  }

  /** The timestamps of the warnings of one kind, in order. */
  function WarnedTimes(warnings: seq<Divergence>, reason: Reason): seq<int> {
    if warnings == [] then []
    else
      var n := |warnings| - 1;
      WarnedTimes(warnings[..n], reason) + (if warnings[n].reason == reason then [warnings[n].ts] else [])
  }

  lemma {:induction false} WarnedConcat(a: seq<Divergence>, b: seq<Divergence>, reason: Reason)
    ensures WarnedTimes(a + b, reason) == WarnedTimes(a, reason) + WarnedTimes(b, reason)
    decreases |b|
  {
    if b == [] {
      assert a + b == a;
    } else {
      assert (a + b)[..|a + b| - 1] == a + b[..|b| - 1];
      WarnedConcat(a, b[..|b| - 1], reason);
    }
  }

  lemma WarnedOne(d: Divergence, reason: Reason)
    ensures WarnedTimes([d], reason) == if d.reason == reason then [d.ts] else []
    ensures WarnedTimes([], reason) == []
  {}

  /** At one timestamp: a warning of each kind exactly when it is due, and a refusal exactly under `Fail`. */
  lemma JudgedExactly(c: Config, names: seq<string>, ts: int, here: seq<Quote>, reason: Reason)
    requires here != []
    ensures Judged(c, names, ts, here).Err? <==> c.onDisagree == Fail && ClosesDiverge(c, here)
    ensures Judged(c, names, ts, here).Ok? ==>
              && Judged(c, names, ts, here).value.0 == Chosen(c, here)
              && WarnedTimes(Judged(c, names, ts, here).value.1, reason)
                 == if Due(c, names, here, reason) then [ts] else []
  {
    hide ClosesDiverge, VolumesDiverge, Chosen, Readings, WarnedTimes;
    var missing, mismatch := MissingWarning(names, ts, here), MismatchWarning(c, names, ts, here);
    MissingExactly(names, here);
    WarnedConcat(missing, mismatch, reason);
    if missing != [] {
      WarnedOne(missing[0], reason);
      assert missing == [missing[0]];
    }
    if mismatch != [] {
      WarnedOne(mismatch[0], reason);
      assert mismatch == [mismatch[0]];
    }
    WarnedOne(Divergence("", ts, [], map[], reason, Info), reason);
  }

  /** What a record of a disagreement says: where and among whom, how grave, and what each provider quoted there, with
      nothing in the place of those that are missing when that is what it is about. */
  ghost predicate Describes(d: Divergence, names: seq<string>, ts: int, here: seq<Quote>)
    requires here != []
  {
    && d.symbol == here[0].bar.symbol && d.ts == ts && d.providers == names
    && (d.severity == Warn <==> d.reason == CloseMismatch)
    && (forall n :: n in d.values && d.values[n].Some? <==> exists q :: q in here && q.provider == n)
    && (forall n :: n in d.values && d.values[n].None? <==>
          d.reason == BarMissing && n in names && forall q :: q in here ==> q.provider != n)
    && (forall k :: 0 <= k < |here| && LastOf(here, k) ==>
          here[k].provider in d.values
          && d.values[here[k].provider] == Some(Reading(here[k].bar.close, here[k].bar.volume)))
  }

  /** No later quote of the same provider. */
  predicate LastOf(here: seq<Quote>, k: nat)
    requires k < |here|
  {
    forall l :: k < l < |here| ==> here[l].provider != here[k].provider
  }

  lemma ReadingsLast(here: seq<Quote>)
    requires here != []
    ensures var last := here[|here| - 1];
            Readings(here)
            == Readings(here[..|here| - 1])[last.provider := Some(Reading(last.bar.close, last.bar.volume))]
  {}

  lemma {:induction false} ReadingsKeys(here: seq<Quote>)
    ensures forall n :: n in Readings(here) <==> exists q :: q in here && q.provider == n
    ensures forall n :: n in Readings(here) ==> Readings(here)[n].Some?
  {
    if here != [] {
      hide Readings;
      var n := |here| - 1;
      ReadingsLast(here);
      ReadingsKeys(here[..n]);
      assert forall q :: q in here <==> q in here[..n] || q == here[n];
    }
  }

  lemma {:induction false} ReadingOf(here: seq<Quote>, k: nat)
    requires k < |here| && LastOf(here, k)
    ensures here[k].provider in Readings(here)
    ensures Readings(here)[here[k].provider] == Some(Reading(here[k].bar.close, here[k].bar.volume))
  {
    hide Readings;
    var n := |here| - 1;
    ReadingsLast(here);
    if k < n {
      assert LastOf(here[..n], k);
      ReadingOf(here[..n], k);
      assert here[n].provider != here[k].provider;
    }
  }

  lemma ReadingsExactly(here: seq<Quote>)
    ensures forall n :: n in Readings(here) <==> exists q :: q in here && q.provider == n
    ensures forall n :: n in Readings(here) ==> Readings(here)[n].Some?
    ensures forall k :: 0 <= k < |here| && LastOf(here, k) ==>
              && here[k].provider in Readings(here)
              && Readings(here)[here[k].provider] == Some(Reading(here[k].bar.close, here[k].bar.volume))
  {
    hide Readings, LastOf;
    ReadingsKeys(here);
    forall k | 0 <= k < |here| && LastOf(here, k)
      ensures here[k].provider in Readings(here)
      ensures Readings(here)[here[k].provider] == Some(Reading(here[k].bar.close, here[k].bar.volume))
    {
      ReadingOf(here, k);
    }
  }

  lemma MissingDescribed(names: seq<string>, ts: int, here: seq<Quote>)
    requires here != []
    ensures forall d :: d in MissingWarning(names, ts, here) ==> Describes(d, names, ts, here)
  {
    hide Readings, LastOf;
    ReadingsExactly(here);
  }

  lemma MismatchDescribed(c: Config, names: seq<string>, ts: int, here: seq<Quote>)
    requires here != []
    ensures forall d :: d in MismatchWarning(c, names, ts, here) ==> Describes(d, names, ts, here)
  {
    hide Readings, LastOf, ClosesDiverge, VolumesDiverge;
    ReadingsExactly(here);
  }

  /** Every warning at a timestamp, and the refused disagreement too, says what happened there. */
  lemma RecordsDescribe(c: Config, names: seq<string>, ts: int, here: seq<Quote>)
    requires here != []
    ensures var r := Judged(c, names, ts, here);
            && (r.Err? ==> r.error.reason == CloseMismatch && Describes(r.error, names, ts, here))
            && (r.Ok? ==> forall d :: d in r.value.1 ==> Describes(d, names, ts, here))
  {
    hide Describes, Readings, ClosesDiverge, VolumesDiverge, Chosen;
    MissingDescribed(names, ts, here);
    MismatchDescribed(c, names, ts, here);
    if Judged(c, names, ts, here).Err? {
      assert MismatchWarning(c, names, ts, here)[0] in MismatchWarning(c, names, ts, here);
    }
  }

  /** A single provider's bars pass as they are, and none give none. */
  lemma FewPass(c: Config, providers: seq<Provider>)
    ensures |providers| == 1 ==> Merge(c, providers) == Ok(Outcome(providers[0].bars, []))
    ensures providers == [] ==> Merge(c, providers) == Ok(Outcome([], []))
  {}

  lemma MissingExactly(names: seq<string>, here: seq<Quote>)
    ensures Missing(names, here) != {} <==> exists n :: n in names && forall q :: q in here ==> q.provider != n
  {
    forall n | n in names && forall q :: q in here ==> q.provider != n ensures n in Missing(names, here) {}
    if Missing(names, here) != {} {
      var n :| n in Missing(names, here);
      assert n in names;
    }
  }

  /** The closes of some of these timestamps disagree. */
  predicate SomeDiverge(c: Config, quotes: seq<Quote>, times: seq<int>) {
    exists ts :: ts in times && ClosesDiverge(c, At(quotes, ts))
  }

  lemma {:induction false} MergeTimesExactly(c: Config, names: seq<string>, quotes: seq<Quote>, times: seq<int>,
                                             reason: Reason)
    requires AllPresent(quotes, times)
    ensures var r := MergeTimes(c, names, quotes, times);
            && (r.Err? <==> c.onDisagree == Fail && SomeDiverge(c, quotes, times))
            && (r.Ok? ==>
                  && |r.value.bars| == |times|
                  && (forall i :: 0 <= i < |times| ==>
                        At(quotes, times[i]) != [] && r.value.bars[i] == Chosen(c, At(quotes, times[i])))
                  && WarnedTimes(r.value.warnings, reason) == DueTimes(c, names, quotes, times, reason))
  {
    hide ClosesDiverge, Chosen, Judged, Due, WarnedTimes, At;
    if times == [] {
      WarnedOne(Divergence("", 0, [], map[], reason, Info), reason);
    } else {
      var n := |times| - 1;
      AllPrefix(quotes, times, n);
      MergeTimesExactly(c, names, quotes, times[..n], reason);
      assert times == times[..n] + [times[n]] && times[n] in times;
      assert forall t :: t in times[..n] ==> t in times;
      JudgedExactly(c, names, times[n], At(quotes, times[n]), reason);
      var r := MergeTimes(c, names, quotes, times[..n]);
      if r.Ok? && Judged(c, names, times[n], At(quotes, times[n])).Ok? {
        WarnedConcat(r.value.warnings, Judged(c, names, times[n], At(quotes, times[n])).value.1, reason);
      }
    }
  }

  /** Two or more providers: the merge fails exactly when the policy forbids disagreement and the closes of some
      timestamp disagree. Otherwise there is one bar per timestamp, in strict order, taken from the quotes at
      that timestamp by the policy, and each kind of warning is given exactly once at every timestamp where it
      is due. */
  lemma MergeExactly(c: Config, providers: seq<Provider>, reason: Reason)
    requires |providers| >= 2
    ensures var r, quotes := Merge(c, providers), Quotes(providers);
            && (r.Err? <==> c.onDisagree == Fail && SomeDiverge(c, quotes, Times(quotes)))
            && (r.Ok? ==>
                  && |r.value.bars| == |Times(quotes)|
                  && (forall i :: 0 <= i < |Times(quotes)| ==>
                        && At(quotes, Times(quotes)[i]) != [] && r.value.bars[i].ts == Times(quotes)[i]
                        && r.value.bars[i] == Chosen(c, At(quotes, Times(quotes)[i])))
                  && WarnedTimes(r.value.warnings, reason)
                     == DueTimes(c, Names(providers), quotes, Times(quotes), reason))
  {
    hide SomeDiverge, ClosesDiverge, ChosenIndex, Due, WarnedTimes, DueTimes, MergeTimes, At, Times, Sort, SortedDesc;
    var quotes := Quotes(providers);
    var times := Times(quotes);
    TimesPresent(quotes);
    MergeTimesExactly(c, Names(providers), quotes, times, reason);
    var r := MergeTimes(c, Names(providers), quotes, times);
    if r.Ok? {
      forall i | 0 <= i < |times| ensures r.value.bars[i].ts == times[i] {
        ChosenIsQuoted(c, quotes, times[i]);
      }
      TimesRise(quotes);
      InOrder(r.value.bars, times);
      SortedIsFixed(ByTime, r.value.bars);
    }
  }

  lemma ChosenIsQuoted(c: Config, quotes: seq<Quote>, ts: int)
    requires At(quotes, ts) != []
    ensures Chosen(c, At(quotes, ts)).ts == ts
    ensures exists q :: q in quotes && q.bar == Chosen(c, At(quotes, ts))
  {
    hide ChosenIndex, At;
    AtMembers(quotes, ts);
    var q := At(quotes, ts)[ChosenIndex(c, At(quotes, ts))];
    assert q in At(quotes, ts);
  }

  lemma InOrder(bars: seq<Bar>, times: seq<int>)
    requires Rising(times) && |bars| == |times| && forall i :: 0 <= i < |bars| ==> bars[i].ts == times[i]
    ensures SortedDesc(ByTime, bars) && StrictlyAscending(bars)
  {}

  lemma {:induction false} QuoteHasProvider(providers: seq<Provider>, q: Quote)
    ensures q in Quotes(providers) <==> exists p :: p in providers && p.name == q.provider && q.bar in p.bars
  {
    if providers != [] {
      var n := |providers| - 1;
      var last := providers[n];
      QuoteHasProvider(providers[..n], q);
      assert forall p :: p in providers <==> p in providers[..n] || p == last;
      if q.provider == last.name && q.bar in last.bars {
        var i :| 0 <= i < |last.bars| && last.bars[i] == q.bar;
        assert Tagged(last.name, last.bars)[i] == q;
      }
    }
  }

  predicate Covered(bars: seq<Bar>, ts: int) {
    exists m :: m in bars && m.ts == ts
  }

  /** The merged timestamps are those of all providers together, and every merged bar is some provider's. */
  lemma MergeCoversProviders(c: Config, providers: seq<Provider>)
    requires |providers| >= 2 && Merge(c, providers).Ok?
    ensures var bars := Merge(c, providers).value.bars;
            && StrictlyAscending(bars)
            && (forall b :: b in bars ==> exists p :: p in providers && b in p.bars)
            && (forall p, b :: p in providers && b in p.bars ==> Covered(bars, b.ts))
  {
    hide Merge, Quotes, Times, At, Due, Chosen, ClosesDiverge, WarnedTimes, DueTimes;
    var quotes := Quotes(providers);
    var times := Times(quotes);
    var bars := Merge(c, providers).value.bars;
    MergeExactly(c, providers, BarMissing);
    TimesRise(quotes);
    InOrder(bars, times);
    forall b | b in bars ensures exists p :: p in providers && b in p.bars {
      var i :| 0 <= i < |bars| && bars[i] == b;
      ChosenIsQuoted(c, quotes, times[i]);
      var q :| q in quotes && q.bar == b;
      QuoteHasProvider(providers, q);
    }
    forall p, b | p in providers && b in p.bars ensures Covered(bars, b.ts) {
      QuoteHasProvider(providers, Quote(p.name, b));
      var q := Quote(p.name, b);
      assert q in quotes && b.ts in times;
      var i :| 0 <= i < |times| && times[i] == b.ts;
      assert bars[i] in bars && bars[i].ts == b.ts;
    }
  }

  /** Merging normalized providers gives a normalized list. */
  lemma MergedIsNormal(c: Config, providers: seq<Provider>, start: int, end: int)
    requires start < end
    requires forall p :: p in providers ==> Normalize(p.bars, start, end) == Ok(p.bars)
    ensures Merge(c, providers).Ok? ==>
              Normalize(Merge(c, providers).value.bars, start, end) == Ok(Merge(c, providers).value.bars)
  {
    hide Normalize, MergeTimes, Times, Quotes;
    forall p | p in providers
      ensures StrictlyAscending(p.bars) && forall b :: b in p.bars ==> start <= b.ts < end && ValidBar(b)
    {
      FixedExactly(p.bars, start, end);
    }
    if Merge(c, providers).Ok? {
      if |providers| >= 2 {
        MergeCoversProviders(c, providers);
      } else if |providers| == 1 {
        assert providers[0] in providers;
      }
      FixedExactly(Merge(c, providers).value.bars, start, end);
    }
  }

  /** After normalization a provider has at most one quote at a timestamp, so the quotes there bear distinct names
      when the providers do. */
  lemma {:induction false} OneQuotePerProvider(providers: seq<Provider>, ts: int)
    requires forall p :: p in providers ==> StrictlyAscending(p.bars)
    requires forall i, j :: 0 <= i < j < |providers| ==> providers[i].name != providers[j].name
    ensures var here := At(Quotes(providers), ts);
            forall i, j :: 0 <= i < j < |here| ==> here[i].provider != here[j].provider
  {
    if providers != [] {
      var n := |providers| - 1;
      var before, last := Quotes(providers[..n]), providers[n];
      OneQuotePerProvider(providers[..n], ts);
      AtConcat(before, Tagged(last.name, last.bars), ts);
      assert last in providers;
      OneOfProvider(last, ts);
      var here, more := At(before, ts), At(Tagged(last.name, last.bars), ts);
      forall i | 0 <= i < |here| ensures here[i].provider != last.name {
        AtMembers(before, ts);
        assert here[i] in here;
        QuoteHasProvider(providers[..n], here[i]);
      }
    }
  }

  lemma {:induction false} AtConcat(a: seq<Quote>, b: seq<Quote>, ts: int)
    ensures At(a + b, ts) == At(a, ts) + At(b, ts)
    decreases |b|
  {
    if b == [] {
      assert a + b == a;
    } else {
      assert (a + b)[..|a + b| - 1] == a + b[..|b| - 1];
      AtConcat(a, b[..|b| - 1], ts);
    }
  }

  lemma TaggedMembers(p: Provider, ts: int)
    ensures forall q :: q in At(Tagged(p.name, p.bars), ts) ==>
            q.provider == p.name && q.bar in p.bars && q.bar.ts == ts
  {
    AtMembers(Tagged(p.name, p.bars), ts);
    forall q | q in Tagged(p.name, p.bars) ensures q.provider == p.name && q.bar in p.bars {
      var i :| 0 <= i < |p.bars| && Tagged(p.name, p.bars)[i] == q;
    }
  }

  lemma {:induction false} OneOfProvider(p: Provider, ts: int)
    requires StrictlyAscending(p.bars)
    ensures |At(Tagged(p.name, p.bars), ts)| <= 1
    ensures forall q :: q in At(Tagged(p.name, p.bars), ts) ==> q.provider == p.name && q.bar in p.bars
    decreases |p.bars|
  {
    hide At;
    TaggedMembers(p, ts);
    if p.bars == [] {
      NoneAt(Tagged(p.name, p.bars), ts);
    } else {
      var n := |p.bars| - 1;
      var fewer := Provider(p.name, p.bars[..n]);
      OneOfProvider(fewer, ts);
      TaggedMembers(fewer, ts);
      OneMoreQuote(Tagged(fewer.name, fewer.bars), Quote(p.name, p.bars[n]), ts);
      assert Tagged(p.name, p.bars) == Tagged(fewer.name, fewer.bars) + [Quote(p.name, p.bars[n])];
      var earlier := At(Tagged(fewer.name, fewer.bars), ts);
      assert earlier != [] ==> earlier[0] in earlier;
    }
  }

  lemma NoneAt(quotes: seq<Quote>, ts: int)
    requires quotes == []
    ensures At(quotes, ts) == []
  {}
}
