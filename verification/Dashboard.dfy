/** The dashboard's totals and its monthly trend. */
module Dashboard {
  import opened Prelude
  import Lifecycles

  type Month = m: int | 1 <= m <= 12 witness 1

  datatype Run = Run(approved: bool, month: Month, reduction: Option<real>)

  // ---- the statistics endpoint ----

  const LISTED: seq<Lifecycles.ProjectStatus> := [
    Lifecycles.Onboarding, Lifecycles.DataCollection, Lifecycles.Calculating, Lifecycles.Review,
    Lifecycles.Submitted, Lifecycles.Verified, Lifecycles.Monitoring]

  function InStatus(projects: seq<Lifecycles.ProjectStatus>, s: Lifecycles.ProjectStatus): nat {
    if projects == [] then 0 else InStatus(projects[1..], s) + (if projects[0] == s then 1 else 0)
  }

  function StatusCounts(projects: seq<Lifecycles.ProjectStatus>, statuses: seq<Lifecycles.ProjectStatus>): seq<nat> {
    if statuses == [] then [] else [InStatus(projects, statuses[0])] + StatusCounts(projects, statuses[1..])
  }

  lemma {:induction false} ListedCountsAre(projects: seq<Lifecycles.ProjectStatus>)
    ensures NatSum(StatusCounts(projects, LISTED)) ==
      InStatus(projects, Lifecycles.Onboarding) + InStatus(projects, Lifecycles.DataCollection)
      + InStatus(projects, Lifecycles.Calculating) + InStatus(projects, Lifecycles.Review)
      + InStatus(projects, Lifecycles.Submitted) + InStatus(projects, Lifecycles.Verified)
      + InStatus(projects, Lifecycles.Monitoring)
  {
    CountsFrom(projects, LISTED, 0);
    CountsFrom(projects, LISTED, 1);
    CountsFrom(projects, LISTED, 2);
    CountsFrom(projects, LISTED, 3);
    CountsFrom(projects, LISTED, 4);
    CountsFrom(projects, LISTED, 5);
    CountsFrom(projects, LISTED, 6);
    assert LISTED[0..] == LISTED && LISTED[7..] == [];
  }

  lemma CountsFrom(projects: seq<Lifecycles.ProjectStatus>, statuses: seq<Lifecycles.ProjectStatus>, i: nat)
    requires i < |statuses|
    ensures NatSum(StatusCounts(projects, statuses[i..])) ==
      InStatus(projects, statuses[i]) + NatSum(StatusCounts(projects, statuses[i + 1..]))
  {
    assert statuses[i..][1..] == statuses[i + 1..];
    var rest := StatusCounts(projects, statuses[i + 1..]);
    assert ([InStatus(projects, statuses[i])] + rest)[1..] == rest;
  }

  lemma {:induction false} EveryProjectCounted(projects: seq<Lifecycles.ProjectStatus>)
    ensures InStatus(projects, Lifecycles.Onboarding) + InStatus(projects, Lifecycles.DataCollection)
      + InStatus(projects, Lifecycles.Calculating) + InStatus(projects, Lifecycles.Review)
      + InStatus(projects, Lifecycles.Submitted) + InStatus(projects, Lifecycles.Verified)
      + InStatus(projects, Lifecycles.Monitoring) + InStatus(projects, Lifecycles.ProjectRejected) == |projects|
  {
    if projects != [] {
      EveryProjectCounted(projects[1..]);
    }
  }

  /** The status counts leave out exactly the rejected projects. */
  lemma ProjectsConserved(projects: seq<Lifecycles.ProjectStatus>)
    ensures NatSum(StatusCounts(projects, LISTED)) + InStatus(projects, Lifecycles.ProjectRejected) == |projects|
  {
    ListedCountsAre(projects);
    EveryProjectCounted(projects);
  }

  /** SUM ignores a missing reduction, and COALESCE makes an empty sum zero. */
  function Reduction(r: Run): real { if r.reduction.Some? then r.reduction.value else 0.0 }

  function TotalEmissions(runs: seq<Run>): real {
    if runs == [] then 0.0
    else TotalEmissions(runs[..|runs| - 1]) + (if runs[|runs| - 1].approved then Reduction(runs[|runs| - 1]) else 0.0)
  }

  // ---- the trend endpoint ----

  datatype Point = Point(month: Month, value: real)

  /** GROUP BY month, ORDER BY month: the groups so far with one more run. */
  function AddTo(points: seq<Point>, month: Month, value: real): seq<Point> {
    if points == [] || month < points[0].month then [Point(month, value)] + points
    else if month == points[0].month then [Point(month, points[0].value + value)] + points[1..]
    else [points[0]] + AddTo(points[1..], month, value)
  }

  function Monthly(runs: seq<Run>): seq<Point> {
    if runs == [] then []
    else
      var before, r := Monthly(runs[..|runs| - 1]), runs[|runs| - 1];
      if r.approved then AddTo(before, r.month, Reduction(r)) else before
  }

  function MonthTotal(runs: seq<Run>, month: Month): real {
    if runs == [] then 0.0
    else
      var r := runs[|runs| - 1];
      MonthTotal(runs[..|runs| - 1], month) + (if r.approved && r.month == month then Reduction(r) else 0.0)
  }

  predicate MonthsAscend(points: seq<Point>) {
    |points| <= 1 || (points[0].month < points[1].month && MonthsAscend(points[1..]))
  }

  function PointSum(points: seq<Point>): real {
    if points == [] then 0.0 else points[0].value + PointSum(points[1..])
  }

  /** The value at a month, zero when the month is not there. */
  function ValueAt(points: seq<Point>, month: Month): real {
    if points == [] then 0.0
    else if points[0].month == month then points[0].value
    else ValueAt(points[1..], month)
  }

  lemma {:induction false} AddToKeeps(points: seq<Point>, month: Month, value: real, m: Month)
    requires MonthsAscend(points)
    ensures MonthsAscend(AddTo(points, month, value))
    ensures AddTo(points, month, value) != [] && AddTo(points, month, value)[0].month ==
      (if points == [] || month < points[0].month then month else points[0].month)
    ensures PointSum(AddTo(points, month, value)) == PointSum(points) + value
    ensures ValueAt(AddTo(points, month, value), m) == ValueAt(points, m) + (if m == month then value else 0.0)
  {
    var r := AddTo(points, month, value);
    if points == [] {
      assert r[1..] == [];
    } else if month < points[0].month {
      assert r[1..] == points;
      AbsentBefore(points, month);
    } else if month == points[0].month {
      assert r[1..] == points[1..];
    } else {
      AddToKeeps(points[1..], month, value, m);
      assert r[1..] == AddTo(points[1..], month, value);
    }
  }

  lemma {:induction false} AbsentBefore(points: seq<Point>, month: Month)
    requires MonthsAscend(points) && (points != [] ==> month < points[0].month)
    ensures ValueAt(points, month) == 0.0
  {
    if points != [] {
      AbsentBefore(points[1..], month);
    }
  }

  /** Main result for the grouping: months ascend without repeats, each has the sum
      of its own approved runs, and the values sum to the total of the other
      endpoint. */
  lemma {:induction false} MonthlyMeaning(runs: seq<Run>, month: Month)
    ensures MonthsAscend(Monthly(runs))
    ensures PointSum(Monthly(runs)) == TotalEmissions(runs)
    ensures ValueAt(Monthly(runs), month) == MonthTotal(runs, month)
    ensures Monthly(runs) == [] <==> forall r :: r in runs ==> !r.approved
  {
    if runs != [] {
      var rest, r := runs[..|runs| - 1], runs[|runs| - 1];
      MonthlyMeaning(rest, month);
      assert forall x :: x in runs <==> x in rest || x == r;
      if r.approved {
        AddToKeeps(Monthly(rest), r.month, Reduction(r), month);
      }
    }
  }

  // ---- the chart ----

  /** A point of the chart, under a month's name. */
  datatype Bar = Bar(month: string, value: real)

  const MONTH_NAMES: seq<string> := ["Jan", "Feb", "Mar", "Apr", "May", "Jun", "Jul", "Aug", "Sep", "Oct", "Nov", "Dec"]

  const DEMO: seq<Bar> := [
    Bar("Jan", 1200.0), Bar("Feb", 1850.0), Bar("Mar", 2400.0), Bar("Apr", 2100.0), Bar("May", 3200.0), Bar("Jun", 3800.0)]

  function BarSum(bars: seq<Bar>): real {
    if bars == [] then 0.0 else bars[0].value + BarSum(bars[1..])
  }

  /** The bar under a name, if there is one. */
  function ShownAt(bars: seq<Bar>, name: string): Option<real> {
    if bars == [] then None
    else if bars[0].month == name then Some(bars[0].value)
    else ShownAt(bars[1..], name)
  }

  /** The bars show the points one by one, under the months' names. */
  ghost predicate Shows(bars: seq<Bar>, points: seq<Point>) {
    |bars| == |points|
    && forall k :: 0 <= k < |points| ==> bars[k] == Bar(MONTH_NAMES[points[k].month - 1], points[k].value)
  }

  /** The chart of some runs. */
  ghost predicate Charts(bars: seq<Bar>, runs: seq<Run>) {
    if Monthly(runs) == [] then bars == DEMO else Shows(bars, Monthly(runs))
  }

  /** The loop over the query's rows, with the name looked up by the month's index,
      and the fallback to demonstration figures. */
  method EmissionsTrend(runs: seq<Run>) returns (trend: seq<Bar>)
    ensures Charts(trend, runs)
  {
    var rows := Monthly(runs);
    trend := [];
    var i := 0;
    while i < |rows|
      invariant 0 <= i <= |rows|
      invariant Shows(trend, rows[..i])
    {
      var index := rows[i].month - 1;
      trend := trend + [Bar(MONTH_NAMES[index], rows[i].value)];
      i := i + 1;
    }
    assert rows[..|rows|] == rows;
    if trend == [] {
      trend := DEMO;
    }
  }

  /** Every month has a name of its own. */
  lemma NamesDiffer(m: Month, n: Month)
    ensures MONTH_NAMES[m - 1] == MONTH_NAMES[n - 1] <==> m == n
  {
    NameTells(m);
    NameTells(n);
  }

  function MonthOf(name: string): int {
    if name == "Jan" then 1 else if name == "Feb" then 2 else if name == "Mar" then 3
    else if name == "Apr" then 4 else if name == "May" then 5 else if name == "Jun" then 6
    else if name == "Jul" then 7 else if name == "Aug" then 8 else if name == "Sep" then 9
    else if name == "Oct" then 10 else if name == "Nov" then 11 else 12
  }

  lemma NameTells(m: Month)
    ensures MonthOf(MONTH_NAMES[m - 1]) == m
  {
  }

  lemma {:induction false} ShownSums(bars: seq<Bar>, points: seq<Point>)
    requires Shows(bars, points)
    ensures BarSum(bars) == PointSum(points)
  {
    if points != [] {
      ShownSums(bars[1..], points[1..]);
    }
  }

  lemma {:induction false} ShownValues(bars: seq<Bar>, points: seq<Point>, m: Month)
    requires Shows(bars, points)
    ensures ShownAt(bars, MONTH_NAMES[m - 1]) == if exists p :: p in points && p.month == m then Some(ValueAt(points, m)) else None
  {
    if points != [] {
      NamesDiffer(points[0].month, m);
      ShownValues(bars[1..], points[1..], m);
      assert points == [points[0]] + points[1..];
    }
  }

  /** What the chart says when some run is approved: a month has a bar exactly when
      a run was approved in it, and the bar is the sum of those runs. */
  lemma ChartMeaning(runs: seq<Run>, trend: seq<Bar>, m: Month)
    requires Charts(trend, runs) && exists r :: r in runs && r.approved
    ensures ShownAt(trend, MONTH_NAMES[m - 1])
         == if exists r :: r in runs && r.approved && r.month == m then Some(MonthTotal(runs, m)) else None
  {
    MonthlyMeaning(runs, m);
    ShownValues(trend, Monthly(runs), m);
    MonthsListed(runs, m);
  }

  lemma {:induction false} MonthsListed(runs: seq<Run>, m: Month)
    ensures (exists p :: p in Monthly(runs) && p.month == m) <==> exists r :: r in runs && r.approved && r.month == m
  {
    if runs != [] {
      var rest, r := runs[..|runs| - 1], runs[|runs| - 1];
      MonthsListed(rest, m);
      assert forall x :: x in runs <==> x in rest || x == r;
      if r.approved {
        AddToLists(Monthly(rest), r.month, Reduction(r), m);
      }
    }
  }

  lemma {:induction false} AddToLists(points: seq<Point>, month: Month, value: real, m: Month)
    ensures (exists p :: p in AddTo(points, month, value) && p.month == m) <==>
      m == month || exists p :: p in points && p.month == m
  {
    var r := AddTo(points, month, value);
    if points == [] || month < points[0].month {
      assert r == [Point(month, value)] + points;
      assert r[0] in r && forall p :: p in r <==> p == r[0] || p in points;
    } else if month == points[0].month {
      assert r == [Point(month, points[0].value + value)] + points[1..] && points == [points[0]] + points[1..];
      assert r[0] in r && forall p :: p in r <==> p == r[0] || p in points[1..];
      assert forall p :: p in points <==> p == points[0] || p in points[1..];
    } else {
      AddToLists(points[1..], month, value, m);
      var more := AddTo(points[1..], month, value);
      assert r == [points[0]] + more && points == [points[0]] + points[1..];
      assert forall p :: p in r <==> p == points[0] || p in more;
      assert forall p :: p in points <==> p == points[0] || p in points[1..];
    }
  }

  lemma DemoSum()
    ensures BarSum(DEMO) == 14550.0
  {
    assert DEMO[5..][1..] == [];
    assert BarSum(DEMO[5..]) == 3800.0;
    assert DEMO[4..][1..] == DEMO[5..];
    assert BarSum(DEMO[4..]) == 7000.0;
    assert DEMO[3..][1..] == DEMO[4..];
    assert BarSum(DEMO[3..]) == 9100.0;
    assert DEMO[2..][1..] == DEMO[3..];
    assert BarSum(DEMO[2..]) == 11500.0;
    assert DEMO[1..][1..] == DEMO[2..];
    assert BarSum(DEMO[1..]) == 13350.0;
  }

  lemma {:induction false} NothingApproved(runs: seq<Run>)
    requires forall r :: r in runs ==> !r.approved
    ensures TotalEmissions(runs) == 0.0
  {
    if runs != [] {
      assert forall r :: r in runs[..|runs| - 1] ==> r in runs;
      NothingApproved(runs[..|runs| - 1]);
      assert runs[|runs| - 1] in runs;
    }
  }

  /** Main result across the two endpoints: the chart adds up to the total exactly
      when some run is approved; otherwise it shows 14550 where the total is 0. */
  lemma TrendConservesIff(runs: seq<Run>, trend: seq<Bar>)
    requires Charts(trend, runs)
    ensures BarSum(trend) == TotalEmissions(runs) <==> exists r :: r in runs && r.approved
  {
    MonthlyMeaning(runs, 1);
    DemoSum();
    if forall r :: r in runs ==> !r.approved {
      NothingApproved(runs);
    } else {
      ShownSums(trend, Monthly(runs));
    }
  }

  /** The total is the sum over the approved runs of what each states, in any order
      and any grouping: these three determine it. */
  lemma TotalMeaning(runs: seq<Run>, more: seq<Run>, r: Run)
    ensures TotalEmissions([]) == 0.0
    ensures TotalEmissions([r]) == (match r.reduction case Some(x) => if r.approved then x else 0.0 case None => 0.0)
    ensures TotalEmissions(runs + more) == TotalEmissions(runs) + TotalEmissions(more)
  {
    assert [r][..0] == [];
    TotalAppend(runs, more);
  }

  lemma {:induction false} TotalAppend(runs: seq<Run>, more: seq<Run>)
    ensures TotalEmissions(runs + more) == TotalEmissions(runs) + TotalEmissions(more)
  {
    if more == [] {
      assert runs + more == runs;
    } else {
      assert (runs + more)[..|runs + more| - 1] == runs + more[..|more| - 1];
      TotalAppend(runs, more[..|more| - 1]);
    }
  }

  /** What a month shows is the total of its own runs. */
  lemma {:induction false} MonthTotalMeaning(runs: seq<Run>, month: Month)
    ensures MonthTotal(runs, month) == TotalEmissions(OfMonth(runs, month))
  {
    if runs != [] {
      var rest, r := runs[..|runs| - 1], runs[|runs| - 1];
      MonthTotalMeaning(rest, month);
      if r.month == month {
        TotalMeaning(OfMonth(rest, month), [r], r);
      } else {
        assert OfMonth(runs, month) == OfMonth(rest, month);
      }
    }
  }

  ghost function OfMonth(runs: seq<Run>, month: Month): seq<Run> {
    if runs == [] then []
    else OfMonth(runs[..|runs| - 1], month) + (if runs[|runs| - 1].month == month then [runs[|runs| - 1]] else [])
  }

  /** Each status count is the number of projects in that status. */
  lemma {:induction false} InStatusMeaning(projects: seq<Lifecycles.ProjectStatus>, s: Lifecycles.ProjectStatus)
    ensures InStatus(projects, s) == multiset(projects)[s]
  {
    if projects != [] {
      InStatusMeaning(projects[1..], s);
      assert projects == [projects[0]] + projects[1..];
    }
  }
}
