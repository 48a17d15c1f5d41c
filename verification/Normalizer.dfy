/**
  Bar normalization (normalizer.rs): check, stable sort by timestamp, drop repeats, clip to the range. Prices are
  real numbers; whether open and close are finite, a bar says by a flag of its own.
*/
module Normalizer {
  import opened Basics
  import opened StableSort

  datatype Bar = Bar(ts: int, symbol: string, open: real, high: real, low: real, close: real, volume: real,
                     finite: bool)

  datatype NormalizeError = InvalidRange | NonFinite(ts: int) | HighBelowLow(ts: int, high: real, low: real)

  /** The sort key: an ascending sort is a descending sort on the negated timestamp. */
  function ByTime(b: Bar): real {
    -(b.ts as real)
  }

  predicate Ascending(bars: seq<Bar>) {
    forall i, j :: 0 <= i < j < |bars| ==> bars[i].ts <= bars[j].ts
  }

  predicate StrictlyAscending(bars: seq<Bar>) {
    forall i, j :: 0 <= i < j < |bars| ==> bars[i].ts < bars[j].ts
  }

  /** What is wrong with the first bar that has an open or close that is not finite, or a high below its low. */
  function FirstInvalid(bars: seq<Bar>): Option<NormalizeError> {
    if bars == [] then None
    else
      var b := bars[0];
      if !b.finite then Some(NonFinite(b.ts))
      else if b.high < b.low then Some(HighBelowLow(b.ts, b.high, b.low))
      else FirstInvalid(bars[1..])
  }

  predicate ValidBar(b: Bar) {
    b.finite && b.high >= b.low
  }

  /** `dedup_by_key`: a bar is kept when its timestamp differs from the last kept one. */
  function Dedup(bars: seq<Bar>): seq<Bar> {
    if bars == [] then []
    else
      var kept, next := Dedup(bars[..|bars| - 1]), bars[|bars| - 1];
      if kept != [] && kept[|kept| - 1].ts == next.ts then kept else kept + [next]
  }

  function Within(bars: seq<Bar>, start: int, end: int): seq<Bar> {
    if bars == [] then []
    else (if start <= bars[0].ts < end then [bars[0]] else []) + Within(bars[1..], start, end)
  }

  function Normalize(bars: seq<Bar>, start: int, end: int): Result<seq<Bar>, NormalizeError> {
    if start >= end then Err(InvalidRange)
    else if FirstInvalid(bars).Some? then Err(FirstInvalid(bars).value)
    else Ok(Within(Dedup(Sort(ByTime, bars)), start, end))
  }

  method DedupByTime(bars: seq<Bar>) returns (kept: seq<Bar>)
    ensures kept == Dedup(bars)
  {
    kept := [];
    for i := 0 to |bars|
      invariant kept == Dedup(bars[..i])
    {
      assert bars[..i + 1][..i] == bars[..i];
      if kept == [] || kept[|kept| - 1].ts != bars[i].ts {
        kept := kept + [bars[i]];
      }
    }
    assert bars[..|bars|] == bars;
  }

  method NormalizeBars(bars: seq<Bar>, start: int, end: int) returns (r: Result<seq<Bar>, NormalizeError>)
    ensures r == Normalize(bars, start, end)
  {
    hide Sort, Dedup;
    if start >= end {
      return Err(InvalidRange);
    }
    assert bars[0..] == bars;
    for i := 0 to |bars|
      invariant FirstInvalid(bars) == FirstInvalid(bars[i..])
    {
      assert bars[i..][1..] == bars[i + 1..];
      if !bars[i].finite {
        return Err(NonFinite(bars[i].ts));
      }
      if bars[i].high < bars[i].low {
        return Err(HighBelowLow(bars[i].ts, bars[i].high, bars[i].low));
      }
    }
    var sorted := Sort(ByTime, bars);
    sorted := DedupByTime(sorted);
    var kept: seq<Bar> := [];
    assert sorted[0..] == sorted;
    for i := 0 to |sorted|
      invariant kept + Within(sorted[i..], start, end) == Within(sorted, start, end)
    {
      assert sorted[i..][1..] == sorted[i + 1..];
      if start <= sorted[i].ts < end {
        kept := kept + [sorted[i]];
      }
    }
    assert kept + [] == kept;
    r := Ok(kept);
  }

  // ----- what normalizing keeps

  /** The first bar of a list at a timestamp. */
  function FirstAt(bars: seq<Bar>, ts: int): Option<Bar> {
    if bars == [] then None
    else if bars[0].ts == ts then Some(bars[0])
    else FirstAt(bars[1..], ts)
  }

  lemma {:induction false} FirstAtIsFirstOfClass(bars: seq<Bar>, ts: int)
    ensures var class_ := WithKey(ByTime, bars, -(ts as real));
            FirstAt(bars, ts) == if class_ == [] then None else Some(class_[0])
  {
    if bars != [] {
      FirstAtIsFirstOfClass(bars[1..], ts);
    }
  }

  /** A stable sort does not change which bar comes first at a timestamp. */
  lemma SortKeepsFirst(bars: seq<Bar>, ts: int)
    ensures FirstAt(Sort(ByTime, bars), ts) == FirstAt(bars, ts)
  {
    SortIsStable(ByTime, bars);
    FirstAtIsFirstOfClass(bars, ts);
    FirstAtIsFirstOfClass(Sort(ByTime, bars), ts);
    assert WithKey(ByTime, bars, -(ts as real)) == WithKey(ByTime, Sort(ByTime, bars), -(ts as real));
  }

  lemma SortAscends(bars: seq<Bar>)
    ensures Ascending(Sort(ByTime, bars))
  {
    SortIsStable(ByTime, bars);
    var s := Sort(ByTime, bars);
    forall i, j | 0 <= i < j < |s| ensures s[i].ts <= s[j].ts {
      assert ByTime(s[i]) >= ByTime(s[j]);
    }
  }

  lemma {:induction false} FirstAtAppend(bars: seq<Bar>, next: Bar, ts: int)
    ensures FirstAt(bars + [next], ts) ==
            if FirstAt(bars, ts).Some? then FirstAt(bars, ts) else if next.ts == ts then Some(next) else None
  {
    if bars == [] {
      assert [] + [next] == [next] && [next][1..] == [];
    } else {
      assert (bars + [next])[1..] == bars[1..] + [next];
      FirstAtAppend(bars[1..], next, ts);
    }
  }

  /** A further bar is the first at its timestamp unless an earlier one has it. */
  lemma FirstAtNext(init: seq<Bar>, next: Bar, b: Bar)
    ensures FirstAt(init + [next], b.ts) == Some(b) <==>
            FirstAt(init, b.ts) == Some(b) || (b == next && FirstAt(init, next.ts).None?)
  {
    FirstAtAppend(init, next, b.ts);
    FirstAtMember(init, b.ts);
  }

  lemma LatestAt(init: seq<Bar>, next: Bar)
    requires Ascending(init + [next])
    ensures Ascending(init)
    ensures FirstAt(init, next.ts).None? <==> init == [] || init[|init| - 1].ts != next.ts
    ensures forall b :: b in init ==> b.ts <= next.ts
  {
    var more := init + [next];
    assert forall k :: 0 <= k < |init| ==> more[k] == init[k] && more[k].ts <= more[|init|].ts;
    FirstAtMember(init, next.ts);
  }

  /** Of an ascending list, `Dedup` leaves exactly the first bar of every timestamp, in order. */
  lemma {:induction false} DedupExactly(bars: seq<Bar>)
    requires Ascending(bars)
    ensures StrictlyAscending(Dedup(bars))
    ensures forall b :: b in Dedup(bars) <==> FirstAt(bars, b.ts) == Some(b)
    ensures bars != [] ==> Dedup(bars) != [] && Dedup(bars)[|Dedup(bars)| - 1].ts == bars[|bars| - 1].ts
  {
    hide FirstAt, Ascending;
    if bars == [] {
      FirstAtNone();
    } else {
      var init, next := bars[..|bars| - 1], bars[|bars| - 1];
      assert bars == init + [next];
      LatestAt(init, next);
      DedupExactly(init);
      var kept := Dedup(init);
      forall b: Bar ensures b in Dedup(bars) <==> FirstAt(bars, b.ts) == Some(b) {
        FirstAtNext(init, next, b);
      }
      if kept != [] && kept[|kept| - 1].ts != next.ts {
        LastBelow(init, kept, next);
      }
    }
  }

  lemma FirstAtNone()
    ensures forall ts: int :: FirstAt([], ts).None?
  {}

  lemma LastBelow(init: seq<Bar>, kept: seq<Bar>, next: Bar)
    requires StrictlyAscending(kept) && kept != [] && init != []
    requires kept[|kept| - 1].ts == init[|init| - 1].ts != next.ts && (forall b :: b in init ==> b.ts <= next.ts)
    ensures StrictlyAscending(kept + [next])
  {}

  lemma {:induction false} WithinExactly(bars: seq<Bar>, start: int, end: int)
    requires StrictlyAscending(bars)
    ensures StrictlyAscending(Within(bars, start, end))
    ensures forall b :: b in Within(bars, start, end) <==> b in bars && start <= b.ts < end
  {
    hide StrictlyAscending;
    if bars == [] {
      NoneAscend();
    } else {
      RestMembers(bars);
      LaterTimes(bars);
      WithinExactly(bars[1..], start, end);
      KeepFirst(bars[0], Within(bars[1..], start, end));
    }
  }

  lemma NoneAscend()
    ensures StrictlyAscending([])
  {}

  lemma LaterTimes(bars: seq<Bar>)
    requires bars != [] && StrictlyAscending(bars)
    ensures forall b :: b in bars[1..] ==> bars[0].ts < b.ts
  {}

  lemma KeepFirst(first: Bar, rest: seq<Bar>)
    requires StrictlyAscending(rest) && forall b :: b in rest ==> first.ts < b.ts
    ensures StrictlyAscending([first] + rest) && StrictlyAscending([] + rest)
  {}

  /** A normalized list is strictly ascending and holds exactly the first input bar of every timestamp in range:
      together this fixes the list. */
  lemma NormalizeExactly(bars: seq<Bar>, start: int, end: int)
    requires Normalize(bars, start, end).Ok?
    ensures var r := Normalize(bars, start, end).value;
            && StrictlyAscending(r)
            && forall b :: b in r <==> start <= b.ts < end && FirstAt(bars, b.ts) == Some(b)
  {
    var sorted := Sort(ByTime, bars);
    SortAscends(bars);
    DedupExactly(sorted);
    WithinExactly(Dedup(sorted), start, end);
    forall b: Bar ensures FirstAt(sorted, b.ts) == FirstAt(bars, b.ts) {
      SortKeepsFirst(bars, b.ts);
    }
  }

  /** Strictly ascending lists with the same bars are the same list. */
  lemma {:induction false} AscendingUnique(a: seq<Bar>, b: seq<Bar>)
    requires StrictlyAscending(a) && StrictlyAscending(b) && forall x :: x in a <==> x in b
    ensures a == b
  {
    hide StrictlyAscending;
    SameStart(a, b);
    if a != [] {
      RestMembers(a);
      RestMembers(b);
      AscendingUnique(a[1..], b[1..]);
      assert a == [a[0]] + a[1..] && b == [b[0]] + b[1..];
    }
  }

  lemma SameStart(a: seq<Bar>, b: seq<Bar>)
    requires StrictlyAscending(a) && StrictlyAscending(b) && forall x :: x in a <==> x in b
    ensures a == [] <==> b == []
    ensures a != [] ==> a[0] == b[0]
  {
    FirstIn(a);
    FirstIn(b);
    if a != [] {
      var j :| 0 <= j < |b| && b[j] == a[0];
      var i :| 0 <= i < |a| && a[i] == b[0];
    }
  }

  lemma RestMembers(a: seq<Bar>)
    requires a != [] && StrictlyAscending(a)
    ensures StrictlyAscending(a[1..])
    ensures forall x :: x in a[1..] <==> x in a && x != a[0]
  {}

  lemma {:induction false} InvalidExactly(bars: seq<Bar>)
    ensures FirstInvalid(bars).None? <==> forall b :: b in bars ==> ValidBar(b)
  {
    if bars != [] {
      InvalidExactly(bars[1..]);
      assert bars == [bars[0]] + bars[1..] && bars[0] in bars;
    }
  }

  lemma {:induction false} FirstAtMember(bars: seq<Bar>, ts: int)
    ensures FirstAt(bars, ts).Some? ==> FirstAt(bars, ts).value in bars && FirstAt(bars, ts).value.ts == ts
    ensures FirstAt(bars, ts).None? <==> forall b :: b in bars ==> b.ts != ts
  {
    if bars != [] {
      FirstAtMember(bars[1..], ts);
      assert bars == [bars[0]] + bars[1..];
    }
  }

  lemma {:induction false} AscendingFirst(bars: seq<Bar>, b: Bar)
    requires StrictlyAscending(bars)
    ensures b in bars <==> FirstAt(bars, b.ts) == Some(b)
  {
    if bars != [] {
      AscendingFirst(bars[1..], b);
      assert bars == [bars[0]] + bars[1..];
      FirstAtMember(bars[1..], b.ts);
      assert forall k :: 0 <= k < |bars[1..]| ==> bars[1..][k].ts > bars[0].ts;
    }
  }

  /** A refusal names the first bar that is out of order, and what is wrong with it: a price that is not finite before
      a high below its low. */
  lemma {:induction false} FirstFault(bars: seq<Bar>)
    ensures FirstInvalid(bars).Some? ==>
              exists i :: && 0 <= i < |bars| && !ValidBar(bars[i]) && (forall j :: 0 <= j < i ==> ValidBar(bars[j]))
                          && FirstInvalid(bars).value == FaultOf(bars[i])
  {
    if bars != [] && ValidBar(bars[0]) {
      FirstFault(bars[1..]);
      if FirstInvalid(bars).Some? {
        var i :| && 0 <= i < |bars[1..]| && !ValidBar(bars[1..][i])
                 && (forall j :: 0 <= j < i ==> ValidBar(bars[1..][j]))
                 && FirstInvalid(bars).value == FaultOf(bars[1..][i]);
        assert bars[i + 1] == bars[1..][i];
        forall j | 0 <= j < i + 1 ensures ValidBar(bars[j]) {
          assert j > 0 ==> bars[j] == bars[1..][j - 1];
        }
      }
    } else if bars != [] {
      assert !ValidBar(bars[0]);
    }
  }

  function FaultOf(b: Bar): NormalizeError {
    if b.finite then HighBelowLow(b.ts, b.high, b.low) else NonFinite(b.ts)
  }

  lemma RefusesExactly(bars: seq<Bar>, start: int, end: int)
    ensures Normalize(bars, start, end) == Err(InvalidRange) <==> start >= end
    ensures start < end ==> (Normalize(bars, start, end).Err? <==> exists b :: b in bars && !ValidBar(b))
    ensures start < end && Normalize(bars, start, end).Err? ==>
              exists i :: && 0 <= i < |bars| && !ValidBar(bars[i]) && (forall j :: 0 <= j < i ==> ValidBar(bars[j]))
                          && Normalize(bars, start, end).error == FaultOf(bars[i])
  {
    hide FirstInvalid;
    InvalidExactly(bars);
    FirstFault(bars);
    if FirstInvalid(bars).Some? {
      assert FirstInvalid(bars).value != InvalidRange;
    }
  }

  /** A list is a fixed point of normalizing exactly when it is strictly ascending, in range and valid. */
  lemma FixedExactly(bars: seq<Bar>, start: int, end: int)
    requires start < end
    ensures Normalize(bars, start, end) == Ok(bars) <==>
            StrictlyAscending(bars) && forall b :: b in bars ==> start <= b.ts < end && ValidBar(b)
  {
    hide Sort, Dedup, Within;
    InvalidExactly(bars);
    if FirstInvalid(bars).None? {
      NormalizeExactly(bars, start, end);
      if StrictlyAscending(bars) {
        forall b ensures b in bars <==> FirstAt(bars, b.ts) == Some(b) {
          AscendingFirst(bars, b);
        }
        if forall b :: b in bars ==> start <= b.ts < end {
          AscendingUnique(Normalize(bars, start, end).value, bars);
        }
      }
    }
  }

  /** Normalizing twice is normalizing once. */
  lemma NormalizeIdempotent(bars: seq<Bar>, start: int, end: int)
    requires Normalize(bars, start, end).Ok?
    ensures Normalize(Normalize(bars, start, end).value, start, end) == Normalize(bars, start, end)
  {
    var r := Normalize(bars, start, end).value;
    NormalizeExactly(bars, start, end);
    InvalidExactly(bars);
    forall b | b in r ensures ValidBar(b) {
      FirstAtMember(bars, b.ts);
    }
    FixedExactly(r, start, end);
  }
}
