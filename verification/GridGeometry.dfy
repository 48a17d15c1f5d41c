/**
  What every run of the recursive grid does to its boxes: continuous boxes are nested and halve,
  integer candidates stay in range, frozen dimensions stay frozen, and the plateau test bounds the
  number of rounds. By `GridDriver.DriverRefinesSearch` the same holds of the step driver.
*/
module GridGeometry {
  import opened Basics
  import opened Numbers
  import opened Rounding
  import opened RecursiveGrid
  import opened GridSearch
  import opened GridDriver
  import MiniOptimize

  /** The ranges documented for the parameters are not reversed. */
  predicate WellFormed(space: seq<Dim>) {
    forall d :: 0 <= d < |space| ==>
      match space[d].param
      case Continuous(low, high) => low <= high
      case Integer(first, last) => first <= last
      case Choice(_) => true
  }

  /** `rounds` are the rounds of one run: each is played from its box, and the next starts where it ends. */
  ghost predicate IsRun(p: Problem, accept: Outcome -> bool, rounds: seq<Round>)
    requires Validate(p.s).None?
  {
    && (forall i :: 0 <= i < |rounds| ==> IsRoundOf(p, accept, rounds[i]))
    && forall i :: 0 <= i < |rounds| - 1 ==> Follows(p, rounds, i)
  }

  /** The search went on after round `i`, from the box it ended with. */
  predicate Follows(p: Problem, rounds: seq<Round>, i: int)
    requires 0 <= i < |rounds| - 1
  {
    && BoxFits(p.s.space, rounds[i].next) && rounds[i + 1].box == rounds[i].next
    && !AllConverged(p.s.space, rounds[i].next, p.s.epsilon)
  }

  ghost predicate IsRoundOf(p: Problem, accept: Outcome -> bool, round: Round)
    requires Validate(p.s).None?
  {
    && BoxFits(p.s.space, round.box) && BoxFits(p.s.space, round.next)
    && RunRound(p, accept, round.box, round.rng) == Ok(round)
  }

  lemma {:induction false} SearchIsRun(p: Problem, accept: Outcome -> bool, box: Box, rng: int, left: nat)
    requires Validate(p.s).None? && BoxFits(p.s.space, box)
    ensures var r := SearchRounds(p, accept, box, rng, left);
            r.Ok? ==>
              IsRun(p, accept, r.value) && |r.value| <= left && (left > 0 ==> r.value != [] && r.value[0].box == box)
    decreases left
  {
    hide RunRound, Validate, BoxFits, AllConverged;
    if left > 0 {
      var result := RunRound(p, accept, box, rng);
      if result.Ok? {
        RoundKeepsArguments(p, accept, box, rng);
        var round := result.value;
        if !AllConverged(p.s.space, round.next, p.s.epsilon) {
          SearchIsRun(p, accept, round.next, p.rng.next(rng, |round.trials|), left - 1);
          var rest := SearchRounds(p, accept, round.next, p.rng.next(rng, |round.trials|), left - 1);
          if rest.Ok? {
            RunCons(p, accept, round, rest.value);
          }
        }
      }
    }
  }

  lemma RunCons(p: Problem, accept: Outcome -> bool, first: Round, rest: seq<Round>)
    requires Validate(p.s).None? && IsRoundOf(p, accept, first) && IsRun(p, accept, rest)
    requires rest != [] ==> rest[0].box == first.next && !AllConverged(p.s.space, first.next, p.s.epsilon)
    ensures IsRun(p, accept, [first] + rest)
  {
    hide Validate, RunRound, AllConverged, BoxFits;
    var all := [first] + rest;
    assert forall i :: 0 < i < |all| ==> all[i] == rest[i - 1];
    forall i | 0 <= i < |all| - 1 ensures Follows(p, all, i) {
      if i > 0 {
        assert Follows(p, rest, i - 1);
      }
    }
  }

  lemma RoundKeepsArguments(p: Problem, accept: Outcome -> bool, box: Box, rng: int)
    requires Validate(p.s).None? && BoxFits(p.s.space, box) && RunRound(p, accept, box, rng).Ok?
    ensures var r := RunRound(p, accept, box, rng).value; r.box == box && r.rng == rng && IsRoundOf(p, accept, r)
  {}

  // ----- one dimension

  ghost predicate Within(x: real, cell: Cell)
    requires cell.Range?
  {
    cell.lo <= x <= cell.hi
  }

  lemma QuotientOrder(a: real, b: real, n: real)
    requires n > 0.0 && a <= b
    ensures a / n <= b / n
  {}

  lemma QuotientOfProduct(w: real, n: real)
    requires n > 0.0
    ensures (w * n) / n == w
  {}

  lemma ProductOrder(w: real, a: real, b: real)
    requires w >= 0.0 && a <= b
    ensures w * a <= w * b
  {}

  lemma GridPointsMonotone(lo: real, hi: real, res: int, i: int, j: int)
    requires res >= 2 && 0 <= i <= j < res && lo <= hi
    ensures GridPoint(lo, hi, res, i) <= GridPoint(lo, hi, res, j)
  {
    ProductOrder(hi - lo, i as real, j as real);
    QuotientOrder((hi - lo) * i as real, (hi - lo) * j as real, (res - 1) as real);
  }

  lemma GridPointWithin(lo: real, hi: real, res: int, i: int)
    requires res >= 2 && 0 <= i < res && lo <= hi
    ensures lo <= GridPoint(lo, hi, res, i) <= hi
    ensures i == 0 ==> GridPoint(lo, hi, res, i) == lo
    ensures i == res - 1 ==> GridPoint(lo, hi, res, i) == hi
  {
    GridPointsMonotone(lo, hi, res, 0, i);
    GridPointsMonotone(lo, hi, res, i, res - 1);
    QuotientOfProduct(hi - lo, (res - 1) as real);
  }

  lemma HalfStepSize(lo: real, hi: real, res: int)
    requires res >= 2 && lo <= hi
    ensures 0.0 <= HalfStep(lo, hi, res)
    ensures res == 2 ==> 2.0 * HalfStep(lo, hi, res) == hi - lo
    ensures res > 2 ==> 4.0 * HalfStep(lo, hi, res) <= hi - lo
  {
    var w, n := hi - lo, (res - 1) as real;
    QuotientOrder(0.0, w, n);
    QuotientOfProduct(w / n, n);
    if res > 2 {
      ProductOrder(w / n, 2.0, n);
    }
  }

  lemma ContinuousPoint(param: Param, cell: Cell, res: int, v: Value)
    requires res >= 2 && param.Continuous? && cell.Range? && cell.lo <= cell.hi
    requires v in GridPoints(param, cell, res)
    ensures v.Num? && Within(v.x, cell)
    ensures res == 2 ==> v.x == cell.lo || v.x == cell.hi
  {
    if cell.hi - cell.lo > 0.0 {
      var points := GridPoints(param, cell, res);
      var i :| 0 <= i < |points| && points[i] == v;
      GridPointWithin(cell.lo, cell.hi, res, i);
    }
  }

  /** A continuous cell shrinks into itself and keeps its centres; a single grid point at least halves it. */
  lemma ContinuousShrink(param: Param, cell: Cell, res: int, centres: seq<real>)
    requires res >= 2 && param.Continuous? && cell.Range? && cell.lo <= cell.hi
    requires forall x :: x in centres ==> Within(x, cell)
    ensures var r := ShrinkCell(param, cell, res, centres);
            && r.Range? && cell.lo <= r.lo <= r.hi <= cell.hi
            && (forall x :: x in centres ==> Within(x, r))
            && (|centres| == 1 && (res == 2 ==> centres[0] == cell.lo || centres[0] == cell.hi) ==>
                  2.0 * (r.hi - r.lo) <= cell.hi - cell.lo)
  {
    HalfStepSize(cell.lo, cell.hi, res);
    if centres != [] {
      assert Within(MinOf(centres), cell) && Within(MaxOf(centres), cell);
      if |centres| == 1 {
        assert MinOf(centres) == centres[0] == MaxOf(centres);
      }
    }
  }

  // ----- integer dimensions

  /** Frozen at one integer of the declared range, or an interval of width at least one inside it. */
  ghost predicate IntegerCell(param: Param, cell: Cell)
    requires param.Integer?
  {
    && cell.Range?
    && (Frozen(param, cell) ||
        (param.first as real <= cell.lo && cell.hi <= param.last as real && cell.hi - cell.lo >= 1.0))
  }

  ghost predicate Frozen(param: Param, cell: Cell)
    requires param.Integer?
  {
    cell.Range? && cell.lo == cell.hi == cell.lo.Floor as real && param.first <= cell.lo.Floor <= param.last
  }

  /** The integer candidates of a cell: in the declared range and strictly increasing. */
  ghost predicate IntegerPoints(param: Param, points: seq<Value>)
    requires param.Integer?
  {
    && points != []
    && (forall i :: 0 <= i < |points| ==> points[i].Int? && param.first <= points[i].n <= param.last)
    && (forall i, j :: 0 <= i < j < |points| ==> points[i].Int? && points[j].Int? && points[i].n < points[j].n)
  }

  ghost predicate Increasing(s: seq<int>) {
    forall i, j :: 0 <= i < j < |s| ==> s[i] < s[j]
  }

  lemma {:induction false} DistinctIncreasing(s: seq<int>)
    requires forall i, j :: 0 <= i < j < |s| ==> s[i] <= s[j]
    ensures Increasing(Distinct(s)) && (forall x :: x in Distinct(s) <==> x in s)
  {
    if s != [] {
      var n := |s| - 1;
      DistinctIncreasing(s[..n]);
      assert s == s[..n] + [s[n]];
      var kept := Distinct(s[..n]);
      forall i | 0 <= i < |kept| ensures kept[i] <= s[n] {
        assert kept[i] in kept;
      }
      if s[n] !in kept {
        assert forall i :: 0 <= i < |kept| ==> kept[i] < s[n];
      }
    }
  }

  lemma RawPointsOrdered(lo: real, hi: real, res: int, first: int, last: int)
    requires res >= 2 && first as real <= lo <= hi <= last as real
    ensures var raw := RoundedPoints(lo, hi, res);
            && (forall i, j :: 0 <= i < j < |raw| ==> raw[i] <= raw[j])
            && (forall i :: 0 <= i < |raw| ==> first <= raw[i] <= last)
  {
    forall i, j | 0 <= i <= j < res
      ensures RoundHalfEven(GridPoint(lo, hi, res, i)) <= RoundHalfEven(GridPoint(lo, hi, res, j))
      ensures first <= RoundHalfEven(GridPoint(lo, hi, res, i)) <= last
    {
      GridPointsMonotone(lo, hi, res, i, j);
      RoundMonotone(GridPoint(lo, hi, res, i), GridPoint(lo, hi, res, j));
      GridPointWithin(lo, hi, res, i);
      RoundWithin(GridPoint(lo, hi, res, i), first, last);
    }
  }

  lemma IntegerGrid(param: Param, cell: Cell, res: int)
    requires res >= 2 && param.Integer? && IntegerCell(param, cell)
    ensures IntegerPoints(param, GridPoints(param, cell, res))
    ensures Frozen(param, cell) ==> GridPoints(param, cell, res) == [Int(cell.lo.Floor)]
  {
    if cell.hi - cell.lo < 1.0 {
      RoundWithin((cell.lo + cell.hi) / 2.0, cell.lo.Floor, cell.lo.Floor);
    } else {
      OpenIntegerGrid(param, RoundedPoints(cell.lo, cell.hi, res)) by {
        RawPointsOrdered(cell.lo, cell.hi, res, param.first, param.last);
      }
    }
  }

  lemma OpenIntegerGrid(param: Param, raw: seq<int>)
    requires param.Integer? && raw != []
    requires forall i, j :: 0 <= i < j < |raw| ==> raw[i] <= raw[j]
    requires forall i :: 0 <= i < |raw| ==> param.first <= raw[i] <= param.last
    ensures IntegerPoints(param, Ints(Distinct(raw)))
  {
    hide Distinct;
    DistinctIncreasing(raw);
    DistinctNonEmpty(raw);
    forall i | 0 <= i < |Distinct(raw)| ensures param.first <= Distinct(raw)[i] <= param.last {
      assert Distinct(raw)[i] in Distinct(raw);
    }
  }

  /** Shrinking keeps an integer cell in order, and never thaws it. */
  lemma IntegerShrink(param: Param, cell: Cell, res: int, centres: seq<real>)
    requires res >= 2 && param.Integer? && IntegerCell(param, cell)
    requires forall x :: x in centres ==> param.first as real <= x <= param.last as real
    requires Frozen(param, cell) ==> forall x :: x in centres ==> x == cell.lo
    ensures IntegerCell(param, ShrinkCell(param, cell, res, centres))
    ensures Frozen(param, cell) ==> ShrinkCell(param, cell, res, centres) == cell
  {
    if centres != [] {
      HalfStepSize(cell.lo, cell.hi, res);
      var least := MinOf(centres) - HalfStep(cell.lo, cell.hi, res);
      var most := MaxOf(centres) + HalfStep(cell.lo, cell.hi, res);
      var lo := if cell.lo >= least then cell.lo else least;
      var hi := if cell.hi <= most then cell.hi else most;
      if Frozen(param, cell) {
        assert HalfStep(cell.lo, cell.hi, res) == 0.0;
        RoundWithin(cell.lo, cell.lo.Floor, cell.lo.Floor);
        assert lo == hi == cell.lo;
      } else if hi - lo < 1.0 {
        assert param.first as real <= lo <= param.last as real;
        assert param.first as real <= hi <= param.last as real;
        RoundWithin((lo + hi) / 2.0, param.first, param.last);
      }
    }
  }

  // ----- when an integer cell stays inside the one before

  ghost predicate InCell(inner: Cell, outer: Cell)
    requires inner.Range? && outer.Range?
  {
    outer.lo <= inner.lo <= inner.hi <= outer.hi
  }

  ghost predicate Integral(centres: seq<real>) {
    forall x :: x in centres ==> x == x.Floor as real
  }

  /** Rounding can move a grid point out of its cell, by at most one half. */
  ghost predicate Near(x: real, cell: Cell)
    requires cell.Range?
  {
    cell.lo - 0.5 <= x <= cell.hi + 0.5
  }

  /** An integer outside the cell that is closer to the middle of what the shrink leaves than its inner neighbour. */
  ghost predicate DrawnOut(cell: Cell, halfStep: real, c: int)
    requires cell.Range?
  {
    var below, above := halfStep + (cell.lo - c as real), halfStep + (c as real - cell.hi);
    || (c as real < cell.lo && (below < 1.0 || (below == 1.0 && c % 2 == 0)))
    || (c as real > cell.hi && (above < 1.0 || (above == 1.0 && c % 2 == 0)))
  }

  /** The one way out of an integer cell: all top candidates agree on an integer that rounding drew out of it. */
  ghost predicate Escapes(cell: Cell, res: int, centres: seq<real>)
    requires cell.Range? && res >= 2
  {
    && centres != [] && (forall x :: x in centres ==> x == centres[0])
    && DrawnOut(cell, HalfStep(cell.lo, cell.hi, res), centres[0].Floor)
  }

  lemma RoundedTo(x: real, n: int)
    ensures n as real - 0.5 < x < n as real + 0.5 ==> RoundHalfEven(x) == n
    ensures x == n as real + 0.5 ==> RoundHalfEven(x) == if n % 2 == 0 then n else n + 1
    ensures x > n as real + 0.5 ==> RoundHalfEven(x) > n
    ensures x < n as real - 0.5 ==> RoundHalfEven(x) < n
  {}

  /** Integer centres inside the cell: the shrunk cell lies inside it and keeps every one of them. */
  lemma IntegersInsideNest(param: Param, cell: Cell, res: int, centres: seq<real>)
    requires res >= 2 && param.Integer? && cell.Range? && cell.lo <= cell.hi
    requires Integral(centres) && forall x :: x in centres ==> Within(x, cell)
    ensures var r := ShrinkCell(param, cell, res, centres);
            r.Range? && InCell(r, cell) && forall x :: x in centres ==> Within(x, r)
  {
    hide RoundHalfEven, HalfStep;
    HalfStepSize(cell.lo, cell.hi, res);
    if centres != [] {
      var least, most := MinOf(centres), MaxOf(centres);
      var half := HalfStep(cell.lo, cell.hi, res);
      var lo := if cell.lo >= least - half then cell.lo else least - half;
      var hi := if cell.hi <= most + half then cell.hi else most + half;
      if hi - lo < 1.0 {
        assert least.Floor == most.Floor;
        RoundedTo((lo + hi) / 2.0, least.Floor);
      }
    }
  }

  /** Exactly: with centres that rounding took from the cell, the shrunk cell stays inside unless it escapes. */
  lemma IntegerShrinkNestsExactly(param: Param, cell: Cell, res: int, centres: seq<real>)
    requires res >= 2 && param.Integer? && cell.Range? && cell.hi - cell.lo >= 1.0
    requires Integral(centres) && forall x :: x in centres ==> Near(x, cell)
    ensures var r := ShrinkCell(param, cell, res, centres);
            && r.Range? && (InCell(r, cell) <==> !Escapes(cell, res, centres))
            && (!InCell(r, cell) ==> r.lo == r.hi)
  {
    hide RoundHalfEven, HalfStep;
    HalfStepSize(cell.lo, cell.hi, res);
    if centres != [] {
      var least, most := MinOf(centres), MaxOf(centres);
      ExtremesEqual(centres);
      if Within(least, cell) && Within(most, cell) {
        IntegersInsideNest(param, cell, res, centres);
      } else if least < cell.lo {
        ShrinkBelow(param, cell, res, centres);
      } else {
        ShrinkAbove(param, cell, res, centres);
      }
    }
  }

  lemma ExtremesEqual(xs: seq<real>)
    requires xs != []
    ensures MinOf(xs) == MaxOf(xs) <==> forall x :: x in xs ==> x == xs[0]
  {
    assert xs[0] in xs;
  }

  /** Below the cell: `lo` up to `most + half` is what the shrink leaves when the least centre lies below `lo`. */
  lemma FreezeBelow(lo: real, hi: real, half: real, least: int, most: int)
    requires hi - lo >= 1.0 && half >= 0.0 && least <= most && least as real < lo <= least as real + 0.5
    ensures var top := if hi <= most as real + half then hi else most as real + half;
            var out := half + (lo - least as real) < 1.0 || (half + (lo - least as real) == 1.0 && least % 2 == 0);
            if top - lo < 1.0
            then
              var n := RoundHalfEven((lo + top) / 2.0) as real; n <= hi && (n < lo <==> least == most && out)
            else !(least == most && out)
  {
    hide RoundHalfEven;
    if most as real + half - lo < 1.0 {
      var middle := (lo + (most as real + half)) / 2.0;
      RoundedTo(middle, least);
      RoundedTo(middle, least + 1);
    }
  }

  lemma FreezeAbove(lo: real, hi: real, half: real, least: int, most: int)
    requires hi - lo >= 1.0 && half >= 0.0 && least <= most && most as real - 0.5 <= hi < most as real
    ensures var bottom := if lo >= least as real - half then lo else least as real - half;
            var out := half + (most as real - hi) < 1.0 || (half + (most as real - hi) == 1.0 && most % 2 == 0);
            if hi - bottom < 1.0
            then
              var n := RoundHalfEven((bottom + hi) / 2.0) as real; n >= lo && (n > hi <==> least == most && out)
            else !(least == most && out)
  {
    hide RoundHalfEven;
    if hi - (least as real - half) < 1.0 {
      var middle := (least as real - half + hi) / 2.0;
      RoundedTo(middle, most);
      RoundedTo(middle, most - 1);
    }
  }

  lemma ShrinkBelow(param: Param, cell: Cell, res: int, centres: seq<real>)
    requires res >= 2 && param.Integer? && cell.Range? && cell.hi - cell.lo >= 1.0 && centres != []
    requires Integral(centres) && (forall x :: x in centres ==> Near(x, cell)) && MinOf(centres) < cell.lo
    ensures var r := ShrinkCell(param, cell, res, centres);
            && r.Range? && (InCell(r, cell) <==> !Escapes(cell, res, centres))
            && (!InCell(r, cell) ==> r.lo == r.hi)
  {
    hide RoundHalfEven, HalfStep, MinOf, MaxOf;
    HalfStepSize(cell.lo, cell.hi, res);
    ExtremesEqual(centres);
    assert centres[0] in centres;
    FreezeBelow(cell.lo, cell.hi, HalfStep(cell.lo, cell.hi, res), MinOf(centres).Floor, MaxOf(centres).Floor);
  }

  lemma ShrinkAbove(param: Param, cell: Cell, res: int, centres: seq<real>)
    requires res >= 2 && param.Integer? && cell.Range? && cell.hi - cell.lo >= 1.0 && centres != []
    requires Integral(centres) && (forall x :: x in centres ==> Near(x, cell)) && MaxOf(centres) > cell.hi
    requires MinOf(centres) >= cell.lo
    ensures var r := ShrinkCell(param, cell, res, centres);
            && r.Range? && (InCell(r, cell) <==> !Escapes(cell, res, centres))
            && (!InCell(r, cell) ==> r.lo == r.hi)
  {
    hide RoundHalfEven, HalfStep, MinOf, MaxOf;
    HalfStepSize(cell.lo, cell.hi, res);
    ExtremesEqual(centres);
    assert centres[0] in centres;
    FreezeAbove(cell.lo, cell.hi, HalfStep(cell.lo, cell.hi, res), MinOf(centres).Floor, MaxOf(centres).Floor);
  }

  /** The grid points of an integer cell are integers that rounding took from the cell. */
  lemma IntegerPointNear(param: Param, cell: Cell, res: int, v: Value)
    requires res >= 2 && param.Integer? && cell.Range? && cell.hi - cell.lo >= 1.0
    requires v in GridPoints(param, cell, res)
    ensures v.Int? && Near(v.n as real, cell)
  {
    hide RoundHalfEven, GridPoint, Distinct;
    var raw := RoundedPoints(cell.lo, cell.hi, res);
    var points := Ints(Distinct(raw));
    var i :| 0 <= i < |points| && points[i] == v;
    DistinctMembers(raw);
    assert Distinct(raw)[i] in Distinct(raw);
    var j :| 0 <= j < |raw| && raw[j] == v.n;
    GridPointWithin(cell.lo, cell.hi, res, j);
    RoundNear(GridPoint(cell.lo, cell.hi, res, j));
  }

  lemma {:induction false} DistinctMembers(s: seq<int>)
    ensures forall x :: x in Distinct(s) <==> x in s
  {
    if s != [] {
      DistinctMembers(s[..|s| - 1]);
      assert s == s[..|s| - 1] + [s[|s| - 1]];
    }
  }

  lemma RoundNear(x: real)
    ensures x - 0.5 <= RoundHalfEven(x) as real <= x + 0.5
  {}

  // ----- one round

  function Res(p: Problem, d: nat): (r: int)
    requires Validate(p.s).None? && d < |p.s.space|
    ensures r >= 2
  {
    ValidResolution(p.s, p.s.space[d].name);
    ResolutionFor(p.s, p.s.space[d].name)
  }

  function Top(p: Problem, round: Round): seq<ParamSet>
    requires Validate(p.s).None?
  {
    ValidNumbers(p.s);
    TopParams(p.s, p.rng, round.rng, round.trials)
  }

  /** Every trial, and so every top candidate, takes grid points; the next box shrinks to the top candidates. */
  lemma RoundFacts(p: Problem, accept: Outcome -> bool, round: Round, d: nat)
    requires Validate(p.s).None? && d < |p.s.space|
    ensures IsRoundOf(p, accept, round) ==>
              var points := GridPoints(p.s.space[d].param, round.box[d], Res(p, d));
              && (forall i :: 0 <= i < |round.trials| ==>
                    |round.trials[i].params| == |p.s.space| && round.trials[i].params[d] in points)
              && Complete(p.s.space, Top(p, round)) && (forall t: ParamSet :: t in Top(p, round) ==> t[d] in points)
              && round.next[d] == ShrinkCell(p.s.space[d].param, round.box[d], Res(p, d), Centres(Top(p, round), d))
              && (p.s.topK == 1 && Candidates(p.s, round.box) != [] ==> |Top(p, round)| == 1)
  {
    hide Validate, Candidates, SelectTop;
    if IsRoundOf(p, accept, round) {
      var cells := Candidates(p.s, round.box);
      var metrics := p.evaluate(cells);
      ValidNumbers(p.s);
      assert |metrics| == |cells|;
      TopParamsComplete(p, round.box, round.rng, cells, metrics, accept);
      SelectTopMembers(p.s, p.rng, round.rng, round.trials);
      forall c | c in cells
        ensures |c| == |p.s.space| && c[d] in GridPoints(p.s.space[d].param, round.box[d], Res(p, d))
      {
        CandidateEntries(p.s, round.box, c, d);
      }
      assert forall i :: 0 <= i < |cells| ==> cells[i] in cells;
    }
  }

  lemma CentresIn(top: seq<ParamSet>, d: nat, x: real) returns (t: ParamSet)
    requires (forall c :: c in top ==> d < |c|) && x in Centres(top, d)
    ensures t in top && x == AsReal(t[d])
  {
    var cs := Centres(top, d);
    var j :| 0 <= j < |cs| && cs[j] == x;
    t := top[j];
  }

  /** One round in a continuous dimension. */
  lemma ContinuousRound(p: Problem, accept: Outcome -> bool, round: Round, d: nat)
    requires Validate(p.s).None? && d < |p.s.space| && p.s.space[d].param.Continuous?
    ensures IsRoundOf(p, accept, round) && round.box[d].lo <= round.box[d].hi ==>
              var cell, next := round.box[d], round.next[d];
              && next.Range? && cell.lo <= next.lo <= next.hi <= cell.hi
              && Complete(p.s.space, Top(p, round))
              && (forall t: ParamSet :: t in Top(p, round) ==> t[d].Num? && Within(t[d].x, next))
              && (p.s.topK == 1 && Candidates(p.s, round.box) != [] ==> 2.0 * (next.hi - next.lo) <= cell.hi - cell.lo)
  {
    hide Validate, Candidates, GridPoints, ShrinkCell, Top, RunRound;
    if IsRoundOf(p, accept, round) && round.box[d].lo <= round.box[d].hi {
      RoundFacts(p, accept, round, d);
      var param, cell, top := p.s.space[d].param, round.box[d], Top(p, round);
      forall t: ParamSet | t in top
        ensures t[d].Num? && Within(t[d].x, cell) && (Res(p, d) == 2 ==> t[d].x == cell.lo || t[d].x == cell.hi)
      {
        ContinuousPoint(param, cell, Res(p, d), t[d]);
      }
      var centres := Centres(top, d);
      forall x | x in centres ensures Within(x, cell) {
        var t := CentresIn(top, d, x);
      }
      ContinuousShrink(param, cell, Res(p, d), centres);
      forall t: ParamSet | t in top ensures Within(t[d].x, round.next[d]) {
        var j :| 0 <= j < |top| && top[j] == t;
        assert centres[j] == t[d].x && centres[j] in centres;
      }
      assert |top| == 1 ==> top[0] in top;
    }
  }

  /** One round in an integer dimension. */
  lemma IntegerRound(p: Problem, accept: Outcome -> bool, round: Round, d: nat)
    requires Validate(p.s).None? && d < |p.s.space| && p.s.space[d].param.Integer?
    ensures IsRoundOf(p, accept, round) && IntegerCell(p.s.space[d].param, round.box[d]) ==>
              && IntegerCell(p.s.space[d].param, round.next[d])
              && (Frozen(p.s.space[d].param, round.box[d]) ==> round.next[d] == round.box[d])
  {
    hide Validate, Candidates, GridPoints, ShrinkCell, Top, IntegerCell, RunRound;
    if IsRoundOf(p, accept, round) && IntegerCell(p.s.space[d].param, round.box[d]) {
      RoundFacts(p, accept, round, d);
      var param, cell, top := p.s.space[d].param, round.box[d], Top(p, round);
      IntegerGrid(param, cell, Res(p, d));
      var centres := Centres(top, d);
      forall x | x in centres
        ensures param.first as real <= x <= param.last as real
        ensures Frozen(param, cell) ==> x == cell.lo
      {
        var t := CentresIn(top, d, x);
        assert t[d] in GridPoints(param, cell, Res(p, d));
      }
      IntegerShrink(param, cell, Res(p, d), centres);
    }
  }

  // ----- whole runs

  /** The rounds of one run of `search`; none when the searcher is refused or the evaluator breaks its contract. */
  function Rounds(p: Problem, accept: Outcome -> bool): seq<Round> {
    if Validate(p.s).None? && FullSearch(p, accept).Ok? then FullSearch(p, accept).value else []
  }

  lemma RoundsAreRun(p: Problem, accept: Outcome -> bool)
    ensures var rounds := Rounds(p, accept);
            rounds != [] ==>
              && Validate(p.s).None? && p.s.epsilon > 0.0 && IsRun(p, accept, rounds)
              && |rounds| <= p.s.depth && rounds[0].box == InitialBox(p.s.space)
  {
    hide Validate, IsRun;
    if Rounds(p, accept) != [] {
      ValidNumbers(p.s);
      SearchIsRun(p, accept, InitialBox(p.s.space), p.rng.seed(p.s.seed), p.s.depth);
    }
  }

  ghost predicate GoodCell(param: Param, cell: Cell) {
    match param
    case Continuous(low, high) => cell.Range? && low <= cell.lo <= cell.hi <= high
    case Integer(_, _) => IntegerCell(param, cell)
    case Choice(choices) => cell == Options(choices)
  }

  /** Cell `d` of the box in which a round is played. */
  function CellOf(round: Round, d: nat): Cell {
    if d < |round.box| then round.box[d] else Options([])
  }

  /** In every round every cell is in order: a proper subinterval, an integer cell, or the full list of choices. */
  lemma {:induction false} CellsStayGood(p: Problem, accept: Outcome -> bool, i: nat, d: nat)
    requires WellFormed(p.s.space) && d < |p.s.space|
    ensures var rounds := Rounds(p, accept);
            i < |rounds| ==>
              && Validate(p.s).None? && IsRoundOf(p, accept, rounds[i])
              && GoodCell(p.s.space[d].param, CellOf(rounds[i], d))
              && (i + 1 < |rounds| ==> rounds[i + 1].box == rounds[i].next)
  {
    hide Validate, Rounds, RunRound, AllConverged, GoodCell;
    var rounds := Rounds(p, accept);
    if i < |rounds| {
      RoundsAreRun(p, accept);
      assert i + 1 < |rounds| ==> Follows(p, rounds, i);
      if i == 0 {
        InitialCellsGood(p.s.space, d);
      } else {
        assert Follows(p, rounds, i - 1);
        CellsStayGood(p, accept, i - 1, d);
        StepStaysGood(p, accept, rounds[i - 1], d);
      }
    }
  }

  lemma InitialCellsGood(space: seq<Dim>, d: nat)
    requires WellFormed(space) && d < |space|
    ensures GoodCell(space[d].param, InitialBox(space)[d])
  {}

  lemma StepStaysGood(p: Problem, accept: Outcome -> bool, round: Round, d: nat)
    requires Validate(p.s).None? && d < |p.s.space|
    ensures IsRoundOf(p, accept, round) && GoodCell(p.s.space[d].param, round.box[d]) ==>
              GoodCell(p.s.space[d].param, round.next[d])
  {
    hide Validate, RunRound, IntegerCell;
    match p.s.space[d].param
    case Continuous(_, _) => ContinuousRound(p, accept, round, d);
    case Integer(_, _) => IntegerRound(p, accept, round, d);
    case Choice(_) => RoundFacts(p, accept, round, d);
  }

  /** Continuous boxes are nested. */
  lemma {:induction false} ContinuousBoxesNest(p: Problem, accept: Outcome -> bool, i: nat, j: nat, d: nat)
    requires WellFormed(p.s.space) && d < |p.s.space| && p.s.space[d].param.Continuous? && i <= j
    ensures var rounds := Rounds(p, accept);
            j < |rounds| ==>
              var outer, inner := CellOf(rounds[i], d), CellOf(rounds[j], d);
              outer.Range? && inner.Range? && outer.lo <= inner.lo <= inner.hi <= outer.hi
    decreases j
  {
    hide Validate, Rounds, Top, RunRound, Candidates, ShrinkCell, WellFormed;
    CellsStayGood(p, accept, j, d);
    if i < j < |Rounds(p, accept)| {
      CellsStayGood(p, accept, j - 1, d);
      ContinuousBoxesNest(p, accept, i, j - 1, d);
      ContinuousRound(p, accept, Rounds(p, accept)[j - 1], d);
    }
  }

  /** The top candidates of a round lie in the box of the next round, in every continuous dimension. */
  lemma TopCandidatesKept(p: Problem, accept: Outcome -> bool, i: nat, d: nat, t: ParamSet)
    requires WellFormed(p.s.space) && d < |p.s.space| && p.s.space[d].param.Continuous?
    ensures var rounds := Rounds(p, accept);
            i + 1 < |rounds| ==>
              Validate(p.s).None?
              && (t in Top(p, rounds[i]) ==>
                    d < |t| && t[d].Num? && CellOf(rounds[i + 1], d).Range? && Within(t[d].x, CellOf(rounds[i + 1], d)))
  {
    hide Validate, Rounds, Top, RunRound, Candidates, ShrinkCell, WellFormed;
    if i + 1 < |Rounds(p, accept)| {
      CellsStayGood(p, accept, i, d);
      CellsStayGood(p, accept, i + 1, d);
      ContinuousRound(p, accept, Rounds(p, accept)[i], d);
    }
  }

  // ----- the geometric bound (top_k = 1)

  function Pow2(n: nat): nat {
    MiniOptimize.Pow2(n)
  }

  /** After `i` rounds a continuous width is at most 2^-i of the original one, and each round at least halves it. */
  lemma {:induction false} WidthHalves(p: Problem, accept: Outcome -> bool, i: nat, d: nat)
    requires WellFormed(p.s.space) && p.s.topK == 1 && NoEmptyChoice(p.s.space)
    requires d < |p.s.space| && p.s.space[d].param.Continuous?
    ensures var rounds := Rounds(p, accept);
            i < |rounds| ==>
              var cell := CellOf(rounds[i], d);
              && cell.Range? && (cell.hi - cell.lo) * Pow2(i) as real <= OriginalWidth(p.s.space[d].param)
              && Validate(p.s).None? && IsRoundOf(p, accept, rounds[i])
              && 2.0 * (rounds[i].next[d].hi - rounds[i].next[d].lo) <= cell.hi - cell.lo
  {
    hide Validate, Rounds, Top, RunRound, Candidates, ShrinkCell, WellFormed, NoEmptyChoice;
    var rounds := Rounds(p, accept);
    if i < |rounds| {
      RoundNotEmpty(p, accept, i);
      CellsStayGood(p, accept, i, d);
      ContinuousRound(p, accept, rounds[i], d);
      if i == 0 {
        RoundsAreRun(p, accept);
      } else {
        WidthHalves(p, accept, i - 1, d);
        CellsStayGood(p, accept, i - 1, d);
        var before, now := CellOf(rounds[i - 1], d), CellOf(rounds[i], d);
        HalvedTwice(now.hi - now.lo, before.hi - before.lo, i);
      }
    }
  }

  lemma HalvedTwice(now: real, before: real, i: nat)
    requires i > 0 && 2.0 * now <= before
    ensures now * Pow2(i) as real <= before * Pow2(i - 1) as real
  {
    ProductOrder(Pow2(i - 1) as real, 2.0 * now, before);
    assert Pow2(i) == 2 * Pow2(i - 1);
  }

  lemma RoundNotEmpty(p: Problem, accept: Outcome -> bool, i: nat)
    requires WellFormed(p.s.space) && NoEmptyChoice(p.s.space)
    ensures var rounds := Rounds(p, accept);
            i < |rounds| ==>
              Validate(p.s).None? && IsRoundOf(p, accept, rounds[i]) && Candidates(p.s, rounds[i].box) != []
  {
    hide Validate, Rounds, RunRound, Candidates, WellFormed, NoEmptyChoice, AllConverged;
    var rounds := Rounds(p, accept);
    if i < |rounds| {
      RoundsAreRun(p, accept);
      forall d | 0 <= d < |p.s.space| && p.s.space[d].param.Choice?
        ensures rounds[i].box[d] == Options(p.s.space[d].param.choices)
      {
        CellsStayGood(p, accept, i, d);
      }
      GridNonEmpty(p.s, rounds[i].box);
    }
  }

  /** A space of continuous and choice parameters stops within `depth` rounds, and within `n` as soon as
      2^-n is below the plateau epsilon. */
  lemma StopsByPlateau(p: Problem, accept: Outcome -> bool, n: nat)
    requires WellFormed(p.s.space) && p.s.topK == 1 && NoEmptyChoice(p.s.space)
    requires forall d :: 0 <= d < |p.s.space| ==> !p.s.space[d].param.Integer?
    requires n >= 1 && 1.0 < p.s.epsilon * Pow2(n) as real
    ensures |Rounds(p, accept)| <= n && (Rounds(p, accept) != [] ==> |Rounds(p, accept)| <= p.s.depth)
  {
    hide Pow2, Validate, Rounds, RunRound, Candidates, WellFormed, NoEmptyChoice;
    RoundsAreRun(p, accept);
    PowerPositive(n);
    var rounds := Rounds(p, accept);
    if |rounds| > n {
      var d := WideDimension(p, accept, n);
      WidthHalves(p, accept, n, d);
      var cell := CellOf(rounds[n], d);
      var power, scaled := Pow2(n) as real, p.s.epsilon * Pow2(n) as real;
      assert 1.0 < scaled;
      NarrowEnough(cell.hi - cell.lo, OriginalWidth(p.s.space[d].param), p.s.epsilon, power, scaled);
    }
  }

  lemma PowerPositive(n: nat)
    ensures Pow2(n) >= 1
  {
    if n > 0 {
      MiniOptimize.Pow2Monotone(0, n);
    }
  }

  /** The search only goes on while some dimension is wide. */
  lemma WideDimension(p: Problem, accept: Outcome -> bool, i: nat) returns (d: nat)
    requires WellFormed(p.s.space) && i > 0
    ensures var rounds := Rounds(p, accept);
            i < |rounds| ==>
              d < |p.s.space| && !CellConverged(p.s.space[d].param, CellOf(rounds[i], d), p.s.epsilon)
  {
    hide Validate, Rounds, RunRound, Candidates, WellFormed, CellConverged;
    d := 0;
    var rounds := Rounds(p, accept);
    if i < |rounds| {
      RoundsAreRun(p, accept);
      var j: nat := i - 1;
      assert IsRoundOf(p, accept, rounds[j]);
      assert Follows(p, rounds, j);
      d :| 0 <= d < |p.s.space| && !CellConverged(p.s.space[d].param, rounds[j].next[d], p.s.epsilon);
    }
  }

  lemma NarrowEnough(width: real, original: real, epsilon: real, power: real, scaled: real)
    requires original > 0.0 && power > 0.0 && width * power <= original
    requires scaled == epsilon * power && 1.0 < scaled
    ensures width / original < epsilon
  {
    var q := width / original;
    var a := q * power;
    assert a * original == width * power;
    CancelPositive(a, 1.0, original);
    assert a < scaled;
    LessByProduct(q, epsilon, power);
  }

  lemma LessByProduct(x: real, y: real, m: real)
    requires m > 0.0 && x * m < y * m
    ensures x < y
  {}

  lemma CancelPositive(x: real, y: real, m: real)
    requires m > 0.0 && x * m <= y * m
    ensures x <= y
  {}

  // ----- integer dimensions over a run

  /** Integer candidates are integers of the declared range. */
  lemma IntegerCandidates(p: Problem, accept: Outcome -> bool, i: nat, d: nat)
    requires WellFormed(p.s.space) && d < |p.s.space| && p.s.space[d].param.Integer?
    ensures var rounds := Rounds(p, accept);
            i < |rounds| ==>
              forall k :: 0 <= k < |rounds[i].trials| ==>
                && d < |rounds[i].trials[k].params| && rounds[i].trials[k].params[d].Int?
                && p.s.space[d].param.first <= rounds[i].trials[k].params[d].n <= p.s.space[d].param.last
  {
    hide Validate, Rounds, RunRound, Candidates, WellFormed, GridPoints, ShrinkCell, Top, IntegerCell;
    var rounds := Rounds(p, accept);
    if i < |rounds| {
      CellsStayGood(p, accept, i, d);
      RoundFacts(p, accept, rounds[i], d);
      IntegerGrid(p.s.space[d].param, rounds[i].box[d], Res(p, d));
    }
  }

  /** In every round an integer dimension's grid is strictly increasing, whatever its resolution. */
  lemma IntegerGridsIncrease(p: Problem, accept: Outcome -> bool, i: nat, d: nat, res: int)
    requires WellFormed(p.s.space) && d < |p.s.space| && p.s.space[d].param.Integer? && res >= 2
    ensures var rounds := Rounds(p, accept);
            i < |rounds| ==>
              && Fits(p.s.space[d].param, CellOf(rounds[i], d))
              && IntegerPoints(p.s.space[d].param, GridPoints(p.s.space[d].param, CellOf(rounds[i], d), res))
  {
    hide Validate, Rounds, RunRound, Candidates, WellFormed, GridPoints, ShrinkCell, Top;
    if i < |Rounds(p, accept)| {
      CellsStayGood(p, accept, i, d);
      IntegerGrid(p.s.space[d].param, CellOf(Rounds(p, accept)[i], d), res);
    }
  }

  /** A frozen dimension stays frozen, and every later candidate takes its one value. */
  lemma {:induction false} FrozenForGood(p: Problem, accept: Outcome -> bool, i: nat, j: nat, d: nat)
    requires WellFormed(p.s.space) && d < |p.s.space| && p.s.space[d].param.Integer? && i <= j
    ensures var rounds := Rounds(p, accept);
            j < |rounds| && Frozen(p.s.space[d].param, CellOf(rounds[i], d)) ==>
              && CellOf(rounds[j], d) == CellOf(rounds[i], d)
              && (forall k :: 0 <= k < |rounds[j].trials| ==>
                    d < |rounds[j].trials[k].params|
                    && rounds[j].trials[k].params[d] == Int(CellOf(rounds[i], d).lo.Floor))
    decreases j
  {
    hide Validate, Rounds, RunRound, Candidates, WellFormed, GridPoints, ShrinkCell, Top, Frozen;
    var rounds := Rounds(p, accept);
    if j < |rounds| && Frozen(p.s.space[d].param, CellOf(rounds[i], d)) {
      CellsStayGood(p, accept, j, d);
      if i < j {
        FrozenForGood(p, accept, i, j - 1, d);
        CellsStayGood(p, accept, j - 1, d);
        IntegerRound(p, accept, rounds[j - 1], d);
      }
      RoundFacts(p, accept, rounds[j], d);
      IntegerGrid(p.s.space[d].param, rounds[j].box[d], Res(p, d));
    }
  }

  /** One round in an integer dimension nests unless its top candidates escape, and then it freezes. */
  lemma IntegerRoundNests(p: Problem, accept: Outcome -> bool, round: Round, d: nat)
    requires Validate(p.s).None? && d < |p.s.space| && p.s.space[d].param.Integer?
    ensures IsRoundOf(p, accept, round) && IntegerCell(p.s.space[d].param, round.box[d]) ==>
              && round.next[d].Range?
              && (InCell(round.next[d], round.box[d]) <==> !RoundEscapes(p, round, d))
              && (RoundEscapes(p, round, d) ==> Frozen(p.s.space[d].param, round.next[d]))
  {
    hide Validate, Candidates, GridPoints, ShrinkCell, Top, RunRound, Escapes, Near;
    var param := p.s.space[d].param;
    if IsRoundOf(p, accept, round) && IntegerCell(param, round.box[d]) {
      RoundFacts(p, accept, round, d);
      IntegerRound(p, accept, round, d);
      var cell, top := round.box[d], Top(p, round);
      var centres := Centres(top, d);
      IntegerGrid(param, cell, Res(p, d));
      if Frozen(param, cell) {
        forall x | x in centres ensures x == cell.lo {
          var t := CentresIn(top, d, x);
          assert t[d] in GridPoints(param, cell, Res(p, d));
        }
        AtRest(cell, Res(p, d), centres);
      } else {
        forall x | x in centres ensures x == x.Floor as real && Near(x, cell) {
          var t := CentresIn(top, d, x);
          IntegerPointNear(param, cell, Res(p, d), t[d]);
        }
        IntegerShrinkNestsExactly(param, cell, Res(p, d), centres);
      }
    }
  }

  /** Centres that sit on a cell of width zero do not escape it. */
  lemma AtRest(cell: Cell, res: int, centres: seq<real>)
    requires cell.Range? && res >= 2 && cell.lo == cell.hi == cell.lo.Floor as real
    requires forall x :: x in centres ==> x == cell.lo
    ensures !Escapes(cell, res, centres)
  {
    FirstIn(centres);
  }

  /** The top candidates of a round leave the cell it was played in. */
  ghost predicate RoundEscapes(p: Problem, round: Round, d: nat) {
    && Validate(p.s).None? && d < |p.s.space| && CellOf(round, d).Range? && Complete(p.s.space, Top(p, round))
    && Escapes(CellOf(round, d), Res(p, d), Centres(Top(p, round), d))
  }

  ghost predicate NestedRounds(rounds: seq<Round>, i: nat, j: nat, d: nat)
    requires i < |rounds| && j < |rounds|
  {
    CellOf(rounds[i], d).Range? && CellOf(rounds[j], d).Range? && InCell(CellOf(rounds[j], d), CellOf(rounds[i], d))
  }

  /** From one round to the next, exactly: an integer cell stays inside the one before unless the top candidates all
      agree on an integer that rounding drew out of it; and then the dimension is frozen from the next round on. */
  lemma IntegerStepNestsExactly(p: Problem, accept: Outcome -> bool, i: nat, d: nat)
    requires WellFormed(p.s.space) && d < |p.s.space| && p.s.space[d].param.Integer?
    ensures var rounds := Rounds(p, accept);
            i + 1 < |rounds| ==>
              && (NestedRounds(rounds, i, i + 1, d) <==> !RoundEscapes(p, rounds[i], d))
              && (RoundEscapes(p, rounds[i], d) ==> Frozen(p.s.space[d].param, CellOf(rounds[i + 1], d)))
  {
    hide Validate, Rounds, RunRound, Candidates, WellFormed, GridPoints, ShrinkCell, Top, RoundEscapes;
    if i + 1 < |Rounds(p, accept)| {
      CellsStayGood(p, accept, i, d);
      CellsStayGood(p, accept, i + 1, d);
      IntegerRoundNests(p, accept, Rounds(p, accept)[i], d);
    }
  }

  ghost predicate TopInside(p: Problem, round: Round, d: nat, cell: Cell) {
    && Validate(p.s).None? && Complete(p.s.space, Top(p, round)) && d < |p.s.space| && cell.Range?
    && forall t: ParamSet :: t in Top(p, round) ==> Within(AsReal(t[d]), cell)
  }

  /** When rounding left the top candidates of a round inside its cell, the next cell lies inside and keeps them. */
  lemma IntegerTopKept(p: Problem, accept: Outcome -> bool, i: nat, d: nat)
    requires WellFormed(p.s.space) && d < |p.s.space| && p.s.space[d].param.Integer?
    ensures var rounds := Rounds(p, accept);
            i + 1 < |rounds| && TopInside(p, rounds[i], d, CellOf(rounds[i], d)) ==>
              NestedRounds(rounds, i, i + 1, d) && TopInside(p, rounds[i], d, CellOf(rounds[i + 1], d))
  {
    hide Validate, Rounds, RunRound, Candidates, WellFormed, GridPoints, ShrinkCell, Top;
    var rounds, param := Rounds(p, accept), p.s.space[d].param;
    if i + 1 < |rounds| && TopInside(p, rounds[i], d, CellOf(rounds[i], d)) {
      CellsStayGood(p, accept, i, d);
      CellsStayGood(p, accept, i + 1, d);
      RoundFacts(p, accept, rounds[i], d);
      var cell, top := rounds[i].box[d], Top(p, rounds[i]);
      var centres := Centres(top, d);
      IntegerGrid(param, cell, Res(p, d));
      forall x | x in centres ensures x == x.Floor as real && Within(x, cell) {
        var t := CentresIn(top, d, x);
        assert t[d] in GridPoints(param, cell, Res(p, d));
      }
      IntegersInsideNest(param, cell, Res(p, d), centres);
      forall t: ParamSet | t in top ensures Within(AsReal(t[d]), rounds[i].next[d]) {
        var j :| 0 <= j < |top| && top[j] == t;
        assert centres[j] == AsReal(t[d]) && centres[j] in centres;
      }
    }
  }

  lemma {:induction false} NestedChain(p: Problem, accept: Outcome -> bool, i: nat, j: nat, d: nat)
    requires WellFormed(p.s.space) && d < |p.s.space| && p.s.space[d].param.Integer? && i <= j < |Rounds(p, accept)|
    requires forall k :: i <= k < j ==> !RoundEscapes(p, Rounds(p, accept)[k], d)
    ensures NestedRounds(Rounds(p, accept), i, j, d)
    decreases j
  {
    hide Validate, Rounds, RunRound, Candidates, WellFormed, GridPoints, ShrinkCell, Top, RoundEscapes;
    CellsStayGood(p, accept, j, d);
    if i < j {
      NestedChain(p, accept, i, j - 1, d);
      IntegerStepNestsExactly(p, accept, j - 1, d);
    }
  }

  /** Over a whole run: the cells of an integer dimension are nested if and only if no round but the last escapes. */
  lemma IntegerBoxesNestExactly(p: Problem, accept: Outcome -> bool, d: nat)
    requires WellFormed(p.s.space) && d < |p.s.space| && p.s.space[d].param.Integer?
    ensures var rounds := Rounds(p, accept);
            (forall i, j :: 0 <= i <= j < |rounds| ==> NestedRounds(rounds, i, j, d)) <==>
            forall k :: 0 <= k < |rounds| - 1 ==> !RoundEscapes(p, rounds[k], d)
  {
    hide Rounds, WellFormed, RoundEscapes, NestedRounds;
    var rounds := Rounds(p, accept);
    if forall k :: 0 <= k < |rounds| - 1 ==> !RoundEscapes(p, rounds[k], d) {
      forall i, j | 0 <= i <= j < |rounds| ensures NestedRounds(rounds, i, j, d) {
        NestedChain(p, accept, i, j, d);
      }
    }
    if forall i, j :: 0 <= i <= j < |rounds| ==> NestedRounds(rounds, i, j, d) {
      forall k | 0 <= k < |rounds| - 1 ensures !RoundEscapes(p, rounds[k], d) {
        IntegerStepNestsExactly(p, accept, k, d);
        assert NestedRounds(rounds, k, k + 1, d);
      }
    }
  }

  /** Integer boxes need not be nested: a box that itself comes from the initial one freezes outside itself. */
  lemma IntegerBoxesNeedNotNest()
    ensures var param := Integer(0, 5);
            var box1 := ShrinkCell(param, InitialCell(param), 5, [4.0]);
            var box2 := ShrinkCell(param, box1, 5, [3.0]);
            && Int(4) in GridPoints(param, InitialCell(param), 5)
            && Int(3) in GridPoints(param, box1, 5)
            && box1 == Range(3.375, 4.625) && box2 == Range(3.0, 3.0) && !InCell(box2, box1)
            && Escapes(box1, 5, [3.0])
  {
    var param := Integer(0, 5);
    var box1 := ShrinkCell(param, InitialCell(param), 5, [4.0]);
    assert MinOf([4.0]) == 4.0 && MaxOf([4.0]) == 4.0 && MinOf([3.0]) == 3.0 && MaxOf([3.0]) == 3.0;
    var first, second := RoundedPoints(0.0, 5.0, 5), RoundedPoints(3.375, 4.625, 5);
    assert first[3] == 4 && second[0] == 3;
    forall i, j | 0 <= i < j < 5 ensures first[i] <= first[j] && second[i] <= second[j] {
      RawPointsOrdered(0.0, 5.0, 5, 0, 5);
      RawPointsOrdered(3.375, 4.625, 5, 0, 5);
    }
    DistinctIncreasing(first);
    DistinctIncreasing(second);
    IntsMember(Distinct(first), 4);
    IntsMember(Distinct(second), 3);
  }

  lemma IntsMember(s: seq<int>, n: int)
    requires n in s
    ensures Int(n) in Ints(s)
  {
    var i :| 0 <= i < |s| && s[i] == n;
    assert Ints(s)[i] == Int(n);
  }
}
