/** Statistical sampling of the quality-control agent: quartile fences, null and
    outlier counts, and the confidence built on them. */
module QualityControl {
  import opened Prelude
  import opened Sorting
  import opened Confidence

  const IQR_MULTIPLIER: real := 1.5

  // ---- outliers ----

  function LowFence(q1: real, q3: real): real { q1 - IQR_MULTIPLIER * (q3 - q1) }

  function HighFence(q1: real, q3: real): real { q3 + IQR_MULTIPLIER * (q3 - q1) }

  function Low(ordered: seq<real>): real
    requires |ordered| >= 4
  {
    LowFence(ordered[|ordered| / 4], ordered[3 * |ordered| / 4])
  }

  function High(ordered: seq<real>): real
    requires |ordered| >= 4
  {
    HighFence(ordered[|ordered| / 4], ordered[3 * |ordered| / 4])
  }

  /** The values outside two fences, in order. */
  function Outside(xs: seq<real>, low: real, high: real): seq<real> {
    if xs == [] then []
    else if xs[0] < low || xs[0] > high then [xs[0]] + Outside(xs[1..], low, high)
    else Outside(xs[1..], low, high)
  }

  function IqrOutliers(samples: seq<real>): seq<real> {
    if |samples| < 4 then []
    else
      var ordered := Sort(samples);
      Outside(ordered, Low(ordered), High(ordered))
  }

  /** The part of an ascending list below one fence, and where the part above
      the other begins. */
  ghost predicate Cut(xs: seq<real>, low: real, high: real, lo: nat, hi: nat) {
    && lo <= hi <= |xs|
    && (forall i :: 0 <= i < |xs| ==> (xs[i] < low <==> i < lo))
    && (forall i :: 0 <= i < |xs| ==> (xs[i] > high <==> i >= hi))
  }

  lemma CutCons(x: real, rest: seq<real>, low: real, high: real, lo: nat, hi: nat)
    requires Ascending([x] + rest) && low <= high && Cut(rest, low, high, lo, hi)
    ensures Cut([x] + rest, low, high, if x < low then lo + 1 else 0, if x > high then 0 else hi + 1)
    ensures (x >= low ==> lo == 0) && (x > high ==> hi == 0)
  {
    Prepend(x, rest);
    var xs := [x] + rest;
    assert forall i :: 1 <= i < |xs| ==> xs[i] == rest[i - 1];
    if rest != [] {
      assert rest[0] < low <==> 0 < lo;
      assert rest[0] > high <==> 0 >= hi;
    }
  }

  lemma EndsCons(x: real, rest: seq<real>, low: real, high: real, lo: nat, hi: nat)
    requires lo <= hi <= |rest| && low <= high
    requires (x >= low ==> lo == 0) && (x > high ==> hi == 0)
    requires Outside(rest, low, high) == rest[..lo] + rest[hi..]
    ensures var xs, lo', hi' := [x] + rest, if x < low then lo + 1 else 0, if x > high then 0 else hi + 1;
      lo' <= hi' <= |xs| && Outside(xs, low, high) == xs[..lo'] + xs[hi'..]
  {
    var xs := [x] + rest;
    assert xs[1..] == rest;
    if x < low {
      assert xs[..lo + 1] == [x] + rest[..lo] && xs[hi + 1..] == rest[hi..];
    } else if x > high {
      assert rest[hi..] == rest && xs[0..] == xs;
    } else {
      assert xs[hi + 1..] == rest[hi..];
    }
  }

  /** On an ascending list the values outside two fences are a prefix and a suffix. */
  lemma {:induction false} FencesCut(xs: seq<real>, low: real, high: real) returns (lo: nat, hi: nat)
    requires Ascending(xs) && low <= high
    ensures Cut(xs, low, high, lo, hi)
    ensures Outside(xs, low, high) == xs[..lo] + xs[hi..]
  {
    if xs == [] {
      lo, hi := 0, 0;
    } else {
      var x, rest := xs[0], xs[1..];
      assert xs == [x] + rest;
      lo, hi := FencesCut(rest, low, high);
      CutCons(x, rest, low, high, lo, hi);
      EndsCons(x, rest, low, high, lo, hi);
      lo, hi := if x < low then lo + 1 else 0, if x > high then 0 else hi + 1;
    }
  }

  /** Main result: the outliers are the two ends of the sorted sample; they stop
      short of both quartile positions, so they are a strict minority. */
  lemma OutliersAreTheEnds(samples: seq<real>) returns (lo: nat, hi: nat)
    requires |samples| >= 4
    ensures var ordered, n := Sort(samples), |samples|;
      lo <= n / 4 && 3 * n / 4 < hi <= n && IqrOutliers(samples) == ordered[..lo] + ordered[hi..]
    ensures 2 * |IqrOutliers(samples)| <= |samples| - 1
  {
    var ordered := Sort(samples);
    SortAscending(samples);
    var n := |ordered|;
    AscendingAt(ordered, n / 4, 3 * n / 4);
    lo, hi := FencesCut(ordered, Low(ordered), High(ordered));
    assert !(ordered[n / 4] < Low(ordered)) && !(ordered[3 * n / 4] > High(ordered));
  }

  lemma OutliersAreAMinority(samples: seq<real>)
    ensures samples != [] ==> 2 * |IqrOutliers(samples)| <= |samples| - 1
    ensures samples == [] ==> IqrOutliers(samples) == []
  {
    if |samples| >= 4 {
      var _, _ := OutliersAreTheEnds(samples);
    }
  }

  /** The bound is attained: five values, two outliers. */
  lemma MinorityIsTight(samples: seq<real>)
    requires |samples| == 5 && samples[0] == -9.0 && samples[1] == samples[2] == samples[3] == 0.0 && samples[4] == 9.0
    ensures |IqrOutliers(samples)| == 2
  {
    SortAscending(samples);
    assert Ascending(samples[3..]);
    assert samples[2..][1..] == samples[3..];
    assert Ascending(samples[2..]);
    assert samples[1..][1..] == samples[2..];
    assert Ascending(samples);
    SortedUnique(Sort(samples), samples);
    assert Low(samples) == 0.0 && High(samples) == 0.0;
    var lo, hi := FencesCut(samples, 0.0, 0.0);
    assert samples[0] < 0.0 && !(samples[1] < 0.0) && samples[4] > 0.0 && !(samples[3] > 0.0);
    assert lo == 1 && hi == 4;
  }

  /** The order in which samples were drawn does not matter. */
  lemma OutliersDependOnMultiset(xs: seq<real>, ys: seq<real>)
    requires multiset(xs) == multiset(ys)
    ensures IqrOutliers(xs) == IqrOutliers(ys)
  {
    assert |xs| == |multiset(xs)| && |ys| == |multiset(ys)|;
    SortAscending(xs);
    SortAscending(ys);
    SortedUnique(Sort(xs), Sort(ys));
  }

  // ---- change of units ----

  function Each(f: real -> real, xs: seq<real>): (ys: seq<real>)
    ensures |ys| == |xs|
  {
    if xs == [] then [] else [f(xs[0])] + Each(f, xs[1..])
  }

  lemma EachCons(f: real -> real, x: real, xs: seq<real>)
    ensures Each(f, [x] + xs) == [f(x)] + Each(f, xs)
    ensures ([x] + xs)[1..] == xs && ([f(x)] + Each(f, xs))[1..] == Each(f, xs)
  {
    assert ([x] + xs)[1..] == xs;
  }

  lemma {:induction false} EachAt(f: real -> real, xs: seq<real>, i: nat)
    requires i < |xs|
    ensures Each(f, xs)[i] == f(xs[i])
  {
    if |xs| > 1 {
      EachAt(f, xs[1..], if i > 0 then i - 1 else 0);
    }
  }

  ghost predicate Grows(f: real -> real, x: real, y: real) { x < y ==> f(x) < f(y) }

  ghost predicate Increasing(f: real -> real) {
    forall x, y :: Grows(f, x, y)
  }

  lemma IncreasingBothWays(f: real -> real, x: real, y: real)
    requires Increasing(f)
    ensures x <= y <==> f(x) <= f(y)
  {
    assert Grows(f, x, y) && Grows(f, y, x);
  }

  lemma {:induction false} InsertEach(f: real -> real, x: real, xs: seq<real>)
    requires Increasing(f)
    ensures Insert(f(x), Each(f, xs)) == Each(f, Insert(x, xs))
  {
    if xs != [] {
      IncreasingBothWays(f, x, xs[0]);
      EachCons(f, xs[0], xs[1..]);
      assert xs == [xs[0]] + xs[1..];
      if x <= xs[0] {
        EachCons(f, x, xs);
      } else {
        InsertEach(f, x, xs[1..]);
        EachCons(f, xs[0], Insert(x, xs[1..]));
      }
    }
  }

  lemma {:induction false} SortEach(f: real -> real, xs: seq<real>)
    requires Increasing(f)
    ensures Sort(Each(f, xs)) == Each(f, Sort(xs))
  {
    if xs != [] {
      SortEach(f, xs[1..]);
      InsertEach(f, xs[0], Sort(xs[1..]));
      assert Each(f, xs)[1..] == Each(f, xs[1..]);
    }
  }

  lemma {:induction false} OutsideEach(f: real -> real, xs: seq<real>, low: real, high: real)
    requires Increasing(f)
    ensures Outside(Each(f, xs), f(low), f(high)) == Each(f, Outside(xs, low, high))
  {
    if xs != [] {
      IncreasingBothWays(f, low, xs[0]);
      IncreasingBothWays(f, xs[0], high);
      OutsideEach(f, xs[1..], low, high);
      EachCons(f, xs[0], xs[1..]);
      EachCons(f, xs[0], Outside(xs[1..], low, high));
      assert xs == [xs[0]] + xs[1..];
    }
  }

  function Affine(scale: real, shift: real): real -> real {
    x => scale * x + shift
  }

  lemma ScaleKeepsOrder(scale: real, shift: real, x: real, y: real)
    requires scale > 0.0 && x < y
    ensures scale * x + shift < scale * y + shift
  {
    assert scale * (y - x) > 0.0;
    assert scale * (y - x) == scale * y - scale * x;
  }

  lemma AffineIncreasing(scale: real, shift: real)
    requires scale > 0.0
    ensures Increasing(Affine(scale, shift))
  {
    var f := Affine(scale, shift);
    forall x: real, y: real
      ensures Grows(f, x, y)
    {
      if x < y {
        ScaleKeepsOrder(scale, shift, x, y);
        assert f(x) == scale * x + shift && f(y) == scale * y + shift;
      }
    }
  }

  /** Moving the quartiles by `f` moves both fences by `f`. */
  ghost predicate FencesMove(f: real -> real, q1: real, q3: real) {
    LowFence(f(q1), f(q3)) == f(LowFence(q1, q3)) && HighFence(f(q1), f(q3)) == f(HighFence(q1, q3))
  }

  lemma FencesOfEach(f: real -> real, ordered: seq<real>)
    requires |ordered| >= 4 && FencesMove(f, ordered[|ordered| / 4], ordered[3 * |ordered| / 4])
    ensures Low(Each(f, ordered)) == f(Low(ordered)) && High(Each(f, ordered)) == f(High(ordered))
  {
    var moved := Each(f, ordered);
    var a, b := |ordered| / 4, 3 * |ordered| / 4;
    EachAt(f, ordered, a);
    EachAt(f, ordered, b);
    assert Low(moved) == LowFence(moved[a], moved[b]);
    assert High(moved) == HighFence(moved[a], moved[b]);
  }

  lemma OutliersOfEach(f: real -> real, samples: seq<real>)
    requires Increasing(f) && forall q1, q3 :: FencesMove(f, q1, q3)
    ensures IqrOutliers(Each(f, samples)) == Each(f, IqrOutliers(samples))
  {
    if |samples| >= 4 {
      var ordered := Sort(samples);
      SortEach(f, samples);
      FencesOfEach(f, ordered);
      OutsideEach(f, ordered, Low(ordered), High(ordered));
    }
  }

  /** Changing units, by a positive factor and any offset, changes the outliers in
      the same way and picks the same ones. */
  lemma OutliersCommuteWithUnits(scale: real, shift: real, samples: seq<real>)
    requires scale > 0.0
    ensures IqrOutliers(Each(Affine(scale, shift), samples)) == Each(Affine(scale, shift), IqrOutliers(samples))
  {
    AffineIncreasing(scale, shift);
    forall q1: real, q3: real
      ensures FencesMove(Affine(scale, shift), q1, q3)
    {
    }
    OutliersOfEach(Affine(scale, shift), samples);
  }

  // ---- sampling ----

  /** A sampled field: absent, a value `float` accepts, or one it refuses. */
  datatype Cell = Null | Num(value: real) | NotNumeric

  datatype CalcRow = CalcRow(fnrb: Option<real>, emissions: Option<real>, uncertainty: Option<real>)

  datatype SourceRow = SourceRow(recordsExtracted: Cell, fieldsMapped: Cell)

  datatype Stats = Stats(sampleSize: nat, nullCount: nat, samples: seq<real>, outliers: seq<real>)

  function ColumnCell(v: Option<real>): Cell { if v.None? then Null else Num(v.value) }

  function Take<T>(xs: seq<T>, limit: nat): seq<T> { if |xs| <= limit then xs else xs[..limit] }

  function CalcCells(rows: seq<CalcRow>): seq<Cell> {
    if rows == [] then []
    else
      var r := rows[|rows| - 1];
      CalcCells(rows[..|rows| - 1]) + [ColumnCell(r.fnrb), ColumnCell(r.emissions), ColumnCell(r.uncertainty)]
  }

  function SourceCells(rows: seq<SourceRow>): seq<Cell> {
    if rows == [] then []
    else SourceCells(rows[..|rows| - 1]) + [rows[|rows| - 1].recordsExtracted, rows[|rows| - 1].fieldsMapped]
  }

  function SurveyCells(scores: seq<Option<real>>): seq<Cell> {
    if scores == [] then [] else SurveyCells(scores[..|scores| - 1]) + [ColumnCell(scores[|scores| - 1])]
  }

  /** All the fields that one check samples, in the order it reads them. */
  function Sampled(calcs: seq<CalcRow>, sources: seq<SourceRow>, surveys: seq<Option<real>>): seq<Cell> {
    CalcCells(Take(calcs, 10)) + SourceCells(Take(sources, 10)) + SurveyCells(Take(surveys, 50))
  }

  function Nulls(cells: seq<Cell>): nat {
    if cells == [] then 0 else Nulls(cells[..|cells| - 1]) + (if cells[|cells| - 1].Null? then 1 else 0)
  }

  function Values(cells: seq<Cell>): seq<real> {
    if cells == [] then []
    else Values(cells[..|cells| - 1]) + (if cells[|cells| - 1].Num? then [cells[|cells| - 1].value] else [])
  }

  function StatsOf(cells: seq<Cell>): Stats {
    Stats(|cells|, Nulls(cells), Values(cells), IqrOutliers(Values(cells)))
  }

  lemma Snoc(cells: seq<Cell>, c: Cell)
    ensures Nulls(cells + [c]) == Nulls(cells) + (if c.Null? then 1 else 0)
    ensures Values(cells + [c]) == Values(cells) + (if c.Num? then [c.value] else [])
  {
    assert (cells + [c])[..|cells|] == cells;
  }

  /** The running totals are those of the fields read so far. */
  ghost predicate Totals(seen: seq<Cell>, samples: seq<real>, nulls: nat, total: nat) {
    total == |seen| && nulls == Nulls(seen) && samples == Values(seen)
  }

  /** The inner loop over the fields of one row; `float` may raise on the way. */
  method ReadFields(fields: seq<Cell>, ghost seen: seq<Cell>, samples0: seq<real>, nulls0: nat, total0: nat)
    returns (samples: seq<real>, nulls: nat, total: nat, ok: bool)
    requires Totals(seen, samples0, nulls0, total0)
    ensures ok <==> NotNumeric !in fields
    ensures ok ==> Totals(seen + fields, samples, nulls, total)
  {
    samples, nulls, total, ok := samples0, nulls0, total0, true;
    var i := 0;
    assert seen + fields[..0] == seen;
    while i < |fields|
      invariant 0 <= i <= |fields|
      invariant NotNumeric !in fields[..i] && ok
      invariant Totals(seen + fields[..i], samples, nulls, total)
    {
      total := total + 1;
      match fields[i] {
        case Null => nulls := nulls + 1;
        case Num(value) => samples := samples + [value];
        case NotNumeric =>
          ok := false;
          return;
      }
      Snoc(seen + fields[..i], fields[i]);
      assert seen + fields[..i] + [fields[i]] == seen + fields[..i + 1];
      i := i + 1;
    }
    assert fields[..|fields|] == fields;
  }

  method SampleCalcs(recent: seq<CalcRow>) returns (samples: seq<real>, nulls: nat, total: nat)
    ensures Totals(CalcCells(recent), samples, nulls, total) && NotNumeric !in CalcCells(recent)
  {
    samples, nulls, total := [], 0, 0;
    var i := 0;
    while i < |recent|
      invariant 0 <= i <= |recent|
      invariant Totals(CalcCells(recent[..i]), samples, nulls, total) && NotNumeric !in CalcCells(recent[..i])
    {
      var fields := [ColumnCell(recent[i].fnrb), ColumnCell(recent[i].emissions), ColumnCell(recent[i].uncertainty)];
      var ok;
      samples, nulls, total, ok := ReadFields(fields, CalcCells(recent[..i]), samples, nulls, total);
      assert recent[..i + 1][..i] == recent[..i];
      i := i + 1;
    }
    assert recent[..|recent|] == recent;
  }

  method SampleSources(ds: seq<SourceRow>, ghost seen: seq<Cell>, samples0: seq<real>, nulls0: nat, total0: nat)
    returns (samples: seq<real>, nulls: nat, total: nat, ok: bool)
    requires Totals(seen, samples0, nulls0, total0)
    ensures ok <==> NotNumeric !in SourceCells(ds)
    ensures ok ==> Totals(seen + SourceCells(ds), samples, nulls, total)
  {
    samples, nulls, total, ok := samples0, nulls0, total0, true;
    var i := 0;
    assert seen + SourceCells(ds[..0]) == seen;
    while i < |ds|
      invariant 0 <= i <= |ds| && ok
      invariant Totals(seen + SourceCells(ds[..i]), samples, nulls, total) && NotNumeric !in SourceCells(ds[..i])
    {
      var fields := [ds[i].recordsExtracted, ds[i].fieldsMapped];
      samples, nulls, total, ok := ReadFields(fields, seen + SourceCells(ds[..i]), samples, nulls, total);
      if !ok {
        SourceFieldsSampled(ds, i);
        return;
      }
      assert ds[..i + 1][..i] == ds[..i];
      assert seen + SourceCells(ds[..i]) + fields == seen + SourceCells(ds[..i + 1]);
      i := i + 1;
    }
    assert ds[..|ds|] == ds;
  }

  method SampleSurveys(scores: seq<Option<real>>, ghost seen: seq<Cell>, samples0: seq<real>, nulls0: nat, total0: nat)
    returns (samples: seq<real>, nulls: nat, total: nat)
    requires Totals(seen, samples0, nulls0, total0)
    ensures Totals(seen + SurveyCells(scores), samples, nulls, total) && NotNumeric !in SurveyCells(scores)
  {
    samples, nulls, total := samples0, nulls0, total0;
    var i := 0;
    assert seen + SurveyCells(scores[..0]) == seen;
    while i < |scores|
      invariant 0 <= i <= |scores|
      invariant Totals(seen + SurveyCells(scores[..i]), samples, nulls, total) && NotNumeric !in SurveyCells(scores[..i])
    {
      var ok;
      samples, nulls, total, ok := ReadFields([ColumnCell(scores[i])], seen + SurveyCells(scores[..i]), samples, nulls, total);
      assert scores[..i + 1][..i] == scores[..i];
      assert seen + SurveyCells(scores[..i]) + [ColumnCell(scores[i])] == seen + SurveyCells(scores[..i + 1]);
      i := i + 1;
    }
    assert scores[..|scores|] == scores;
  }

  /** The agent's three sampling loops; no result when a stored value is not a
      number. */
  method SampleDataPoints(calcs: seq<CalcRow>, sources: seq<SourceRow>, surveys: seq<Option<real>>) returns (r: Option<Stats>)
    ensures var cells := Sampled(calcs, sources, surveys);
      && (r.None? <==> NotNumeric in cells)
      && (r.Some? ==> r.value == StatsOf(cells))
  {
    var recent, ds, scores := Take(calcs, 10), Take(sources, 10), Take(surveys, 50);
    var samples, nulls, total := SampleCalcs(recent);
    var ok;
    samples, nulls, total, ok := SampleSources(ds, CalcCells(recent), samples, nulls, total);
    if !ok {
      return None;
    }
    samples, nulls, total := SampleSurveys(scores, CalcCells(recent) + SourceCells(ds), samples, nulls, total);
    return Some(Stats(total, nulls, samples, IqrOutliers(samples)));
  }

  /** The fields of every row are sampled. */
  lemma {:induction false} SourceFieldsSampled(rows: seq<SourceRow>, i: nat)
    requires i < |rows|
    ensures rows[i].recordsExtracted in SourceCells(rows) && rows[i].fieldsMapped in SourceCells(rows)
    decreases |rows|
  {
    if i < |rows| - 1 {
      SourceFieldsSampled(rows[..|rows| - 1], i);
    }
  }

  /** Sampling conservation: every sampled field is a null or a sample. */
  lemma {:induction false} NullsPlusSamples(cells: seq<Cell>)
    requires NotNumeric !in cells
    ensures Nulls(cells) + |Values(cells)| == |cells|
  {
    if cells != [] {
      NullsPlusSamples(cells[..|cells| - 1]);
    }
  }

  // ---- the check's confidence ----

  function PassRate(stats: Stats, calcFlags: nat, hashFlags: nat): real {
    if stats.sampleSize > 0 then
      var failures := stats.nullCount + |stats.outliers| + calcFlags + hashFlags;
      Max(0.0, (stats.sampleSize - failures) as real / stats.sampleSize as real)
    else 0.0
  }

  function Heuristic(stats: Stats, calcFlags: nat, hashFlags: nat): real {
    if stats.sampleSize > 0 then 0.6 + 0.4 * PassRate(stats, calcFlags, hashFlags) else 0.6
  }

  /** For every sample: the pass rate is a rate and the heuristic is at least 0.6. */
  lemma HeuristicRange(stats: Stats, calcFlags: nat, hashFlags: nat)
    ensures 0.0 <= PassRate(stats, calcFlags, hashFlags) <= 1.0
    ensures 0.6 <= Heuristic(stats, calcFlags, hashFlags) <= 1.0
  {
    if stats.sampleSize > 0 {
      RateCompared(stats.sampleSize, stats.nullCount + |stats.outliers| + calcFlags + hashFlags, 1.0);
    }
  }

  /** The heuristic exceeds 0.8 exactly when fewer than half of the fields failed. */
  lemma HeuristicAboveIff(stats: Stats, calcFlags: nat, hashFlags: nat)
    ensures Heuristic(stats, calcFlags, hashFlags) > 0.8
       <==> 2 * (stats.nullCount + |stats.outliers| + calcFlags + hashFlags) < stats.sampleSize
  {
    var failures := stats.nullCount + |stats.outliers| + calcFlags + hashFlags;
    if stats.sampleSize > 0 {
      RateCompared(stats.sampleSize, failures, 0.5);
      HalfCompared(stats.sampleSize, failures);
    }
  }

  lemma HalfCompared(size: nat, failures: nat)
    ensures 0.5 * size as real > failures as real <==> 2 * failures < size
  {
    if 2 * failures < size {
      assert (2 * failures) as real < size as real;
    } else {
      assert (2 * failures) as real >= size as real;
    }
  }

  /** Comparing a rate with a threshold is comparing products. */
  lemma RateCompared(size: nat, failures: nat, threshold: real)
    requires size > 0
    ensures var rate := (size - failures) as real / size as real;
      && (rate >= threshold <==> (1.0 - threshold) * size as real >= failures as real)
      && (rate > threshold <==> (1.0 - threshold) * size as real > failures as real)
  {
    assert (size - failures) as real == size as real - failures as real;
    ShareCompared((size - failures) as real, size as real, threshold);
  }

  /** With no null and no flag, no data can bring the heuristic down to 0.8:
      outliers alone are never half of a sample. */
  lemma CleanSampleExceeds(cells: seq<Cell>)
    requires cells != [] && NotNumeric !in cells && Nulls(cells) == 0
    ensures Heuristic(StatsOf(cells), 0, 0) > 0.8
  {
    NullsPlusSamples(cells);
    OutliersAreAMinority(Values(cells));
    HeuristicAboveIff(StatsOf(cells), 0, 0);
  }

  /** The agent's confidence for any reply: a genuine-rate, clamped, or none. */
  lemma ConfidenceRange(stats: Stats, calcFlags: nat, hashFlags: nat, genuine: Option<real>)
    ensures (if genuine.None? then 0.6 else 0.24) <= Blend(Heuristic(stats, calcFlags, hashFlags), genuine) <= 1.0
  {
    HeuristicRange(stats, calcFlags, hashFlags);
    var h := Heuristic(stats, calcFlags, hashFlags);
    BlendBetween(h, genuine);
    if genuine.Some? {
      BlendMonotone(0.6, h, Some(Min(genuine.value, 0.0)), genuine);
    }
  }

  lemma HighHeuristicMeansFewFailures(stats: Stats, calcFlags: nat, hashFlags: nat)
    ensures Heuristic(stats, calcFlags, hashFlags) >= 0.875 ==>
      stats.sampleSize > 0
      && 16 * (stats.nullCount + |stats.outliers| + calcFlags + hashFlags) <= 5 * stats.sampleSize
  {
    var failures := stats.nullCount + |stats.outliers| + calcFlags + hashFlags;
    if stats.sampleSize > 0 {
      RateCompared(stats.sampleSize, failures, 0.6875);
    }
  }

  /** Whatever the model replies, the check advances by itself only when at most
      five sixteenths of the sampled fields failed. */
  lemma AutoAdvanceNeedsCleanSample(cells: seq<Cell>, calcFlags: nat, hashFlags: nat, genuine: Option<real>)
    requires NotNumeric !in cells
    requires TierOf(Blend(Heuristic(StatsOf(cells), calcFlags, hashFlags), genuine)) == AutoAdvance
    ensures 16 * (Nulls(cells) + |IqrOutliers(Values(cells))| + calcFlags + hashFlags) <= 5 * |cells| && cells != []
  {
    AutoAdvanceNeedsHeuristic(Heuristic(StatsOf(cells), calcFlags, hashFlags), genuine);
    HighHeuristicMeansFewFailures(StatsOf(cells), calcFlags, hashFlags);
  }

  // ---- the sample and the outliers, in the words of the stored values ----

  lemma {:induction false} OutsideCounts(xs: seq<real>, low: real, high: real, v: real)
    ensures multiset(Outside(xs, low, high))[v] == if v < low || high < v then multiset(xs)[v] else 0
  {
    if xs != [] {
      OutsideCounts(xs[1..], low, high, v);
      assert xs == [xs[0]] + xs[1..];
      var rest := Outside(xs[1..], low, high);
      assert multiset([xs[0]] + rest) == multiset{xs[0]} + multiset(rest);
    }
  }

  /** Fewer than four samples have no outliers. */
  lemma FewHaveNone(samples: seq<real>)
    ensures |samples| <= 3 ==> IqrOutliers(samples) == []
  {
  }

  /** Which values are outliers, exactly and as often as they occur: those further than
      one and a half interquartile ranges from the nearer of the values that stand at
      a quarter and at three quarters of the ascending order of the sample. */
  lemma OutlierMeaning(samples: seq<real>, ordered: seq<real>, v: real)
    requires |samples| >= 4 && multiset(ordered) == multiset(samples)
    requires forall i, j :: 0 <= i < j < |ordered| ==> ordered[i] <= ordered[j]
    ensures |ordered| == |samples|
    ensures var q1, q3 := ordered[|samples| / 4], ordered[3 * |samples| / 4];
      multiset(IqrOutliers(samples))[v] ==
        if v < q1 - 1.5 * (q3 - q1) || q3 + 1.5 * (q3 - q1) < v then multiset(samples)[v] else 0
  {
    assert |multiset(ordered)| == |ordered| && |multiset(samples)| == |samples|;
    SortAscending(samples);
    AscendingFrom(ordered);
    SortedUnique(Sort(samples), ordered);
    OutsideCounts(ordered, Low(ordered), High(ordered), v);
  }

  lemma {:induction false} AscendingFrom(xs: seq<real>)
    requires forall i, j :: 0 <= i < j < |xs| ==> xs[i] <= xs[j]
    ensures Ascending(xs)
  {
    if |xs| > 1 {
      AscendingFrom(xs[1..]);
    }
  }

  /** A stored number, which may be missing. */
  ghost function Stored(v: Option<real>): Cell { match v case Some(x) => Num(x) case None => Null }

  lemma {:induction false} CalcCellsAt(rows: seq<CalcRow>, i: nat)
    ensures |CalcCells(rows)| == 3 * |rows|
    ensures i < |rows| ==>
      CalcCells(rows)[3 * i] == Stored(rows[i].fnrb) && CalcCells(rows)[3 * i + 1] == Stored(rows[i].emissions)
      && CalcCells(rows)[3 * i + 2] == Stored(rows[i].uncertainty)
    decreases |rows|
  {
    if rows != [] {
      CalcCellsAt(rows[..|rows| - 1], i);
    }
  }

  lemma {:induction false} SourceCellsAt(rows: seq<SourceRow>, i: nat)
    ensures |SourceCells(rows)| == 2 * |rows|
    ensures i < |rows| ==>
      SourceCells(rows)[2 * i] == rows[i].recordsExtracted && SourceCells(rows)[2 * i + 1] == rows[i].fieldsMapped
    decreases |rows|
  {
    if rows != [] {
      SourceCellsAt(rows[..|rows| - 1], i);
    }
  }

  lemma {:induction false} SurveyCellsAt(scores: seq<Option<real>>, i: nat)
    ensures |SurveyCells(scores)| == |scores|
    ensures i < |scores| ==> SurveyCells(scores)[i] == Stored(scores[i])
    decreases |scores|
  {
    if scores != [] {
      SurveyCellsAt(scores[..|scores| - 1], i);
    }
  }

  ghost function AtMost(n: nat, limit: nat): nat { if n < limit then n else limit }

  lemma JoinedAt(a: seq<Cell>, b: seq<Cell>, c: seq<Cell>, i: nat)
    ensures i < |a| ==> (a + b + c)[i] == a[i]
    ensures i < |b| ==> (a + b + c)[|a| + i] == b[i]
    ensures i < |c| ==> (a + b + c)[|a| + |b| + i] == c[i]
  {
  }

  lemma SampledSizes(calcs: seq<CalcRow>, sources: seq<SourceRow>, surveys: seq<Option<real>>)
    ensures |CalcCells(Take(calcs, 10))| == 3 * AtMost(|calcs|, 10) && |SourceCells(Take(sources, 10))| == 2 * AtMost(|sources|, 10)
    ensures |SurveyCells(Take(surveys, 50))| == AtMost(|surveys|, 50)
  {
    CalcCellsAt(Take(calcs, 10), 0);
    SourceCellsAt(Take(sources, 10), 0);
    SurveyCellsAt(Take(surveys, 50), 0);
  }

  /** What is sampled, field by field: three of each of the first ten calculations, two
      of each of the first ten sources, one of each of the first fifty surveys. */
  lemma SampledMeaning(calcs: seq<CalcRow>, sources: seq<SourceRow>, surveys: seq<Option<real>>)
    ensures |Sampled(calcs, sources, surveys)| == 3 * AtMost(|calcs|, 10) + 2 * AtMost(|sources|, 10) + AtMost(|surveys|, 50)
  {
    SampledSizes(calcs, sources, surveys);
  }

  lemma SampledCalcs(calcs: seq<CalcRow>, sources: seq<SourceRow>, surveys: seq<Option<real>>, i: nat)
    requires i < |calcs| && i < 10
    ensures var cells := Sampled(calcs, sources, surveys);
      3 * i + 2 < |cells| && cells[3 * i] == Stored(calcs[i].fnrb) && cells[3 * i + 1] == Stored(calcs[i].emissions)
      && cells[3 * i + 2] == Stored(calcs[i].uncertainty)
  {
    var a, b, c := CalcCells(Take(calcs, 10)), SourceCells(Take(sources, 10)), SurveyCells(Take(surveys, 50));
    SampledSizes(calcs, sources, surveys);
    CalcCellsAt(Take(calcs, 10), i);
    JoinedAt(a, b, c, 3 * i);
    JoinedAt(a, b, c, 3 * i + 1);
    JoinedAt(a, b, c, 3 * i + 2);
  }

  lemma SampledSources(calcs: seq<CalcRow>, sources: seq<SourceRow>, surveys: seq<Option<real>>, i: nat)
    requires i < |sources| && i < 10
    ensures var cells, m := Sampled(calcs, sources, surveys), 3 * AtMost(|calcs|, 10);
      m + 2 * i + 1 < |cells| && cells[m + 2 * i] == sources[i].recordsExtracted && cells[m + 2 * i + 1] == sources[i].fieldsMapped
  {
    var a, b, c := CalcCells(Take(calcs, 10)), SourceCells(Take(sources, 10)), SurveyCells(Take(surveys, 50));
    SampledSizes(calcs, sources, surveys);
    SourceCellsAt(Take(sources, 10), i);
    JoinedAt(a, b, c, 2 * i);
    JoinedAt(a, b, c, 2 * i + 1);
  }

  lemma SampledSurveys(calcs: seq<CalcRow>, sources: seq<SourceRow>, surveys: seq<Option<real>>, i: nat)
    requires i < |surveys| && i < 50
    ensures var cells, m := Sampled(calcs, sources, surveys), 3 * AtMost(|calcs|, 10) + 2 * AtMost(|sources|, 10);
      m + i < |cells| && cells[m + i] == Stored(surveys[i])
  {
    var a, b, c := CalcCells(Take(calcs, 10)), SourceCells(Take(sources, 10)), SurveyCells(Take(surveys, 50));
    SampledSizes(calcs, sources, surveys);
    SurveyCellsAt(Take(surveys, 50), i);
    JoinedAt(a, b, c, i);
  }

  ghost function NullPlaces(cells: seq<Cell>): set<nat> { set i: nat | i < |cells| && cells[i] == Null }

  /** The null count of any fields. */
  lemma {:induction false} NullsMeaning(cells: seq<Cell>)
    ensures Nulls(cells) == |NullPlaces(cells)|
  {
    if cells == [] {
      assert NullPlaces(cells) == {};
    } else {
      NullsMeaning(cells[..|cells| - 1]);
      NullPlacesNext(cells, |cells| - 1);
    }
  }

  /** Each number is a sample as often as it was read. */
  lemma {:induction false} ValuesMeaning(cells: seq<Cell>, v: real)
    ensures multiset(Values(cells))[v] == multiset(cells)[Num(v)]
  {
    if cells != [] {
      var n := |cells| - 1;
      ValuesMeaning(cells[..n], v);
      OccursSnoc(cells[..n], cells[n], Num(v));
      if cells[n].Num? {
        OccursSnoc(Values(cells[..n]), cells[n].value, v);
      }
      assert cells == cells[..n] + [cells[n]];
    }
  }

  lemma NullPlacesNext(cells: seq<Cell>, n: nat)
    requires n + 1 == |cells|
    ensures |NullPlaces(cells)| == |NullPlaces(cells[..n])| + (if cells[n] == Null then 1 else 0)
  {
    var before := NullPlaces(cells[..n]);
    assert n !in before;
    assert NullPlaces(cells) == if cells[n] == Null then before + {n} else before;
  }

  lemma ShareOf(n: nat, failed: nat)
    requires n > 0
    ensures var share := Max(0.0, (n - failed) as real / n as real);
      if failed >= n then share == 0.0 else share * n as real == (n - failed) as real
  {
    RateCompared(n, failed, 0.0);
    var rate := (n - failed) as real / n as real;
    assert rate * n as real == (n - failed) as real;
  }

  lemma FourTenths(share: real, n: real, left: real)
    requires share * n == left
    ensures (0.4 * share) * n == 0.4 * left
  {
  }

  /** The heuristic of a sample: six tenths, and four tenths of the share of fields
      that did not fail, which is none when more failed than were sampled. */
  lemma HeuristicMeaning(stats: Stats, calcFlags: nat, hashFlags: nat)
    ensures var n, failed := stats.sampleSize, stats.nullCount + |stats.outliers| + calcFlags + hashFlags;
      var h := Heuristic(stats, calcFlags, hashFlags);
      if failed >= n then h == 0.6 else (h - 0.6) * n as real == 0.4 * (n - failed) as real
  {
    var n, failed := stats.sampleSize, stats.nullCount + |stats.outliers| + calcFlags + hashFlags;
    if n > 0 {
      ShareOf(n, failed);
      if failed < n {
        FourTenths(PassRate(stats, calcFlags, hashFlags), n as real, (n - failed) as real);
      }
    }
  }

  /** And the confidence for any reply: a genuine rate, brought into 0 to 1, weighs six
      tenths. */
  lemma ConfidenceMeaning(stats: Stats, calcFlags: nat, hashFlags: nat, genuine: Option<real>)
    ensures var h := Heuristic(stats, calcFlags, hashFlags);
      Blend(h, genuine) == match genuine
        case None => h
        case Some(x) => 0.4 * h + 0.6 * (if x < 0.0 then 0.0 else if x > 1.0 then 1.0 else x)
  {
    HeuristicRange(stats, calcFlags, hashFlags);
    BlendMeaning(Heuristic(stats, calcFlags, hashFlags), genuine);
  }
}
