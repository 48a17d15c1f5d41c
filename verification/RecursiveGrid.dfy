/**
  The recursive grid's cells (optimizer.py): grid points of one dimension, the product grid,
  the shrinking step and the plateau test. A candidate or a box lists its entries in the order
  in which the space declares its parameters.
*/
module RecursiveGrid {
  import opened Basics
  import opened Numbers
  import opened Rounding

  datatype Value = Num(x: real) | Int(n: int) | Label(s: string)

  datatype Param = Continuous(low: real, high: real) | Integer(first: int, last: int) | Choice(choices: seq<Value>)

  datatype Dim = Dim(name: string, param: Param)

  /** The current extent of one dimension: an interval, or the list of choices. */
  datatype Cell = Range(lo: real, hi: real) | Options(choices: seq<Value>)

  type Box = seq<Cell>
  type ParamSet = seq<Value>

  datatype Searcher = Searcher(
    space: seq<Dim>, resolution: int, topK: int, depth: int, epsilon: real, seed: int, overrides: map<string, int>)

  datatype Error = BadResolution | BadTopK | BadDepth | BadEpsilon | BadOverride | LengthMismatch

  function Validate(s: Searcher): Option<Error> {
    if s.resolution < 2 then Some(BadResolution)
    else if s.topK < 1 then Some(BadTopK)
    else if s.depth < 1 then Some(BadDepth)
    else if s.epsilon <= 0.0 then Some(BadEpsilon)
    else if !OverridesValid(s) then Some(BadOverride)
    else None
  }

  /** Every override names a parameter of the space and is at least 2. */
  predicate OverridesValid(s: Searcher) {
    forall name :: name in s.overrides ==> s.overrides[name] >= 2 && exists d :: d in s.space && d.name == name
  }

  lemma ValidNumbers(s: Searcher)
    requires Validate(s).None?
    ensures s.resolution >= 2 && s.topK >= 1 && s.depth >= 1 && s.epsilon > 0.0
  {}

  function ResolutionFor(s: Searcher, name: string): int {
    if name in s.overrides then s.overrides[name] else s.resolution
  }

  lemma ValidResolution(s: Searcher, name: string)
    requires Validate(s).None?
    ensures ResolutionFor(s, name) >= 2
  {}

  // ----- boxes

  function InitialCell(param: Param): Cell {
    match param
    case Continuous(low, high) => Range(low, high)
    case Integer(first, last) => Range(first as real, last as real)
    case Choice(choices) => Options(choices)
  }

  function OriginalWidth(param: Param): real {
    match param
    case Continuous(low, high) => high - low
    case Integer(first, last) => (last - first) as real
    case Choice(_) => 0.0
  }

  /** Interval for a numeric parameter, choice list for a choice. */
  predicate Fits(param: Param, cell: Cell) {
    param.Choice? <==> cell.Options?
  }

  predicate BoxFits(space: seq<Dim>, box: Box) {
    |box| == |space| && forall i :: 0 <= i < |space| ==> Fits(space[i].param, box[i])
  }

  function InitialBox(space: seq<Dim>): (box: Box)
    ensures BoxFits(space, box)
  {
    seq(|space|, i requires 0 <= i < |space| => InitialCell(space[i].param))
  }

  // ----- grid points of one dimension

  function GridPoint(lo: real, hi: real, res: int, i: int): real
    requires res >= 2
  {
    lo + (hi - lo) * i as real / (res - 1) as real
  }

  function RoundedPoints(lo: real, hi: real, res: int): seq<int>
    requires res >= 2
  {
    seq(res, i requires 0 <= i < res => RoundHalfEven(GridPoint(lo, hi, res, i)))
  }

  /** The first occurrences, in order. */
  function Distinct(s: seq<int>): seq<int> {
    if s == [] then []
    else
      var kept := Distinct(s[..|s| - 1]);
      if s[|s| - 1] in kept then kept else kept + [s[|s| - 1]]
  }

  function Ints(s: seq<int>): seq<Value> {
    seq(|s|, i requires 0 <= i < |s| => Int(s[i]))
  }

  function GridPoints(param: Param, cell: Cell, res: int): seq<Value>
    requires res >= 2 && Fits(param, cell)
  {
    match cell
    case Options(choices) => choices
    case Range(lo, hi) =>
      if param.Integer? then
        if hi - lo < 1.0 then [Int(RoundHalfEven((lo + hi) / 2.0))]
        else Ints(Distinct(RoundedPoints(lo, hi, res)))
      else if hi - lo <= 0.0 then [Num(lo)]
      else seq(res, i requires 0 <= i < res => Num(GridPoint(lo, hi, res, i)))
  }

  method DimGridPoints(param: Param, cell: Cell, res: int) returns (points: seq<Value>)
    requires res >= 2 && Fits(param, cell)
    ensures points == GridPoints(param, cell, res)
  {
    if cell.Options? {
      return cell.choices;
    }
    var lo, hi := cell.lo, cell.hi;
    if param.Integer? {
      if hi - lo < 1.0 {
        return [Int(RoundHalfEven((lo + hi) / 2.0))];
      }
      var pts := RoundedPoints(lo, hi, res);
      var seen: set<int> := {};
      var unique: seq<int> := [];
      for i := 0 to |pts|
        invariant unique == Distinct(pts[..i])
        invariant forall p :: p in seen <==> p in unique
      {
        assert pts[..i + 1][..i] == pts[..i];
        if pts[i] !in seen {
          seen := seen + {pts[i]};
          unique := unique + [pts[i]];
        }
      }
      assert pts[..|pts|] == pts;
      return Ints(unique);
    }
    if hi - lo <= 0.0 {
      return [Num(lo)];
    }
    points := seq(res, i requires 0 <= i < res => Num(GridPoint(lo, hi, res, i)));
  }

  // ----- the product grid

  /** Every value of `vs` in front of every tail, first value first. */
  function Prefixed(vs: seq<Value>, tails: seq<ParamSet>): seq<ParamSet> {
    if vs == [] then []
    else seq(|tails|, j requires 0 <= j < |tails| => [vs[0]] + tails[j]) + Prefixed(vs[1..], tails)
  }

  /** `itertools.product`: the last dimension varies fastest. */
  function Product(points: seq<seq<Value>>): seq<ParamSet> {
    if points == [] then [[]] else Prefixed(points[0], Product(points[1..]))
  }

  lemma {:induction false} PrefixedMembers(vs: seq<Value>, tails: seq<ParamSet>, c: ParamSet)
    ensures c in Prefixed(vs, tails) <==> c != [] && c[0] in vs && c[1..] in tails
  {
    if vs != [] {
      PrefixedMembers(vs[1..], tails, c);
      var front := seq(|tails|, j requires 0 <= j < |tails| => [vs[0]] + tails[j]);
      assert vs == [vs[0]] + vs[1..];
      if c in front {
        var j :| 0 <= j < |front| && front[j] == c;
        assert c[1..] == tails[j];
      }
      if c != [] && c[0] == vs[0] && c[1..] in tails {
        var j :| 0 <= j < |tails| && tails[j] == c[1..];
        assert front[j] == [c[0]] + c[1..] == c;
      }
    }
  }

  /** A candidate is in the grid exactly when each of its entries is a grid point of its dimension. */
  lemma {:induction false} ProductMembers(points: seq<seq<Value>>, c: ParamSet)
    ensures c in Product(points) <==> |c| == |points| && forall i :: 0 <= i < |c| ==> c[i] in points[i]
  {
    if points != [] {
      PrefixedMembers(points[0], Product(points[1..]), c);
      if c != [] {
        ProductMembers(points[1..], c[1..]);
        if c in Product(points) {
          forall i | 0 <= i < |c| ensures c[i] in points[i] {
            if i > 0 {
              assert c[1..][i - 1] in points[1..][i - 1];
            }
          }
        }
        if |c| == |points| && forall i :: 0 <= i < |c| ==> c[i] in points[i] {
          forall i | 0 <= i < |c[1..]| ensures c[1..][i] in points[1..][i] {
            assert c[i + 1] in points[i + 1];
          }
        }
      }
    }
  }

  function PointsPerDim(s: Searcher, box: Box): seq<seq<Value>>
    requires Validate(s).None? && BoxFits(s.space, box)
  {
    seq(|s.space|, i requires 0 <= i < |s.space| =>
      ValidResolution(s, s.space[i].name);
      GridPoints(s.space[i].param, box[i], ResolutionFor(s, s.space[i].name)))
  }

  /** The candidates of a round. */
  function Candidates(s: Searcher, box: Box): seq<ParamSet>
    requires Validate(s).None? && BoxFits(s.space, box)
  {
    Product(PointsPerDim(s, box))
  }

  lemma CandidateEntries(s: Searcher, box: Box, c: ParamSet, i: nat)
    requires Validate(s).None? && BoxFits(s.space, box) && c in Candidates(s, box)
    ensures |c| == |s.space|
    ensures i < |s.space| ==> ResolutionFor(s, s.space[i].name) >= 2
                              && c[i] in GridPoints(s.space[i].param, box[i], ResolutionFor(s, s.space[i].name))
  {
    ProductMembers(PointsPerDim(s, box), c);
    if i < |s.space| {
      ValidResolution(s, s.space[i].name);
      assert c[i] in PointsPerDim(s, box)[i];
    }
  }

  // ----- shrinking

  function AsReal(v: Value): real {
    match v
    case Num(x) => x
    case Int(n) => n as real
    case Label(_) => 0.0
  }

  function HalfStep(lo: real, hi: real, res: int): real
    requires res >= 2
  {
    (hi - lo) / (res - 1) as real / 2.0
  }

  function ShrinkCell(param: Param, cell: Cell, res: int, centres: seq<real>): (r: Cell)
    requires res >= 2 && Fits(param, cell)
    ensures Fits(param, r)
  {
    if cell.Options? || centres == [] then cell
    else
      var halfStep := HalfStep(cell.lo, cell.hi, res);
      var least, most := MinOf(centres) - halfStep, MaxOf(centres) + halfStep;
      var lo := if cell.lo >= least then cell.lo else least;
      var hi := if cell.hi <= most then cell.hi else most;
      if param.Integer? && hi - lo < 1.0 then
        var centre := RoundHalfEven((lo + hi) / 2.0) as real;
        Range(centre, centre)
      else Range(lo, hi)
  }

  /** The i-th entries of the top candidates. */
  function Centres(top: seq<ParamSet>, i: nat): seq<real>
    requires forall t :: t in top ==> i < |t|
  {
    seq(|top|, j requires 0 <= j < |top| => AsReal(top[j][i]))
  }

  predicate Complete(space: seq<Dim>, top: seq<ParamSet>) {
    forall t :: t in top ==> |t| == |space|
  }

  function ShrunkBox(s: Searcher, box: Box, top: seq<ParamSet>): (r: Box)
    requires Validate(s).None? && BoxFits(s.space, box) && Complete(s.space, top)
    ensures BoxFits(s.space, r)
  {
    seq(|s.space|, i requires 0 <= i < |s.space| =>
      ValidResolution(s, s.space[i].name);
      ShrinkCell(s.space[i].param, box[i], ResolutionFor(s, s.space[i].name), Centres(top, i)))
  }

  method ShrinkBox(s: Searcher, box: Box, top: seq<ParamSet>) returns (newBox: Box)
    requires Validate(s).None? && BoxFits(s.space, box) && Complete(s.space, top)
    ensures newBox == ShrunkBox(s, box, top)
  {
    hide Validate, RoundHalfEven, MinOf, MaxOf, HalfStep, Centres;
    newBox := [];
    for i := 0 to |s.space|
      invariant newBox == ShrunkBox(s, box, top)[..i]
    {
      ValidResolution(s, s.space[i].name);
      var param, cell := s.space[i].param, box[i];
      var res := ResolutionFor(s, s.space[i].name);
      var centres := Centres(top, i);
      var shrunk := cell;
      if !param.Choice? && centres != [] {
        var halfStep := HalfStep(cell.lo, cell.hi, res);
        var least, most := MinOf(centres) - halfStep, MaxOf(centres) + halfStep;
        var lo := if cell.lo >= least then cell.lo else least;
        var hi := if cell.hi <= most then cell.hi else most;
        if param.Integer? && hi - lo < 1.0 {
          var centre := RoundHalfEven((lo + hi) / 2.0) as real;
          lo, hi := centre, centre;
        }
        shrunk := Range(lo, hi);
      }
      newBox := newBox + [shrunk];
    }
  }

  // ----- the plateau test

  predicate CellConverged(param: Param, cell: Cell, epsilon: real) {
    param.Choice? || cell.Options?
    || (param.Integer? && cell.hi - cell.lo < 1.0)
    || OriginalWidth(param) <= 0.0
    || (cell.hi - cell.lo) / OriginalWidth(param) < epsilon
  }

  predicate AllConverged(space: seq<Dim>, box: Box, epsilon: real)
    requires BoxFits(space, box)
  {
    forall i :: 0 <= i < |space| ==> CellConverged(space[i].param, box[i], epsilon)
  }
}
