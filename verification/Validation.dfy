/** The validation agent: source rates, additionality, red flags, and what the
    language model's review can and cannot do to the result. */
module Validation {
  import opened Prelude
  import opened Confidence

  const RED_FLAG_CAP: real := 0.9
  const RECORD_LIMIT: int := 100000

  /** The counts stored with a source; a missing count reads as zero. */
  datatype Source = Source(recordsExtracted: Option<int>, fieldsMapped: Option<int>)

  /** Dates as day numbers. */
  datatype Project = Project(start: Option<int>, end: Option<int>, methodologySupported: bool, characterized: bool)

  /** The latest calculation run, by its total leakage. */
  datatype Calculation = Calculation(leakage: real)

  datatype Finding = SmoothActivity(sources: nat, records: int) | MissingBaseline | NegativeLeakage(leakage: real)

  datatype Flag = Flag(id: string, detail: string)

  function OrZero(v: Option<int>): int { if v.Some? then v.value else 0 }

  function Records(s: Source): int { OrZero(s.recordsExtracted) }

  predicate IsOutlier(s: Source) { Records(s) > RECORD_LIMIT }

  /** A source that mapped some fields, but fewer than five. */
  predicate HasGap(s: Source) { OrZero(s.fieldsMapped) != 0 && OrZero(s.fieldsMapped) < 5 }

  function Outliers(sources: seq<Source>): nat {
    if sources == [] then 0 else Outliers(sources[..|sources| - 1]) + (if IsOutlier(sources[|sources| - 1]) then 1 else 0)
  }

  function Gaps(sources: seq<Source>): nat {
    if sources == [] then 0 else Gaps(sources[..|sources| - 1]) + (if HasGap(sources[|sources| - 1]) then 1 else 0)
  }

  function TotalRecords(sources: seq<Source>): int {
    if sources == [] then 0 else TotalRecords(sources[..|sources| - 1]) + Records(sources[|sources| - 1])
  }

  function OutlierRate(sources: seq<Source>): real {
    if TotalRecords(sources) > 0 then Outliers(sources) as real / TotalRecords(sources) as real else 0.0
  }

  function GapPercentage(sources: seq<Source>): real
    requires sources != []
  {
    Gaps(sources) as real / |sources| as real * 100.0
  }

  // ---- additionality ----

  function Checks(p: Project, today: int): seq<bool> {
    [p.start.Some? && p.end.Some? && p.start.value < p.end.value,
     p.start.Some? && p.start.value <= today,
     p.methodologySupported,
     p.characterized]
  }

  function One(b: bool): nat { if b then 1 else 0 }

  function Passed(p: Project, today: int): nat {
    var c := Checks(p, today);
    One(c[0]) + One(c[1]) + One(c[2]) + One(c[3])
  }

  function Additionality(p: Project, today: int): real { Passed(p, today) as real / 4.0 }

  // ---- red flags ----

  /** The record counts that are present and not zero, in order. */
  function Counts(sources: seq<Source>): seq<int> {
    if sources == [] then []
    else Counts(sources[..|sources| - 1])
         + (if Records(sources[|sources| - 1]) != 0 then [Records(sources[|sources| - 1])] else [])
  }

  predicate AllEqual(xs: seq<int>) { forall i :: 0 <= i < |xs| ==> xs[i] == xs[0] }

  function IdOf(f: Finding): string {
    match f
    case SmoothActivity(_, _) => "smooth_activity_data"
    case MissingBaseline => "missing_baseline"
    case NegativeLeakage(_) => "negative_leakage"
  }

  function FlagFor(f: Finding, describe: Finding -> string): Flag { Flag(IdOf(f), describe(f)) }

  function RedFlags(sources: seq<Source>, latest: Option<Calculation>, describe: Finding -> string): seq<Flag> {
    var counts := Counts(sources);
    (if |counts| >= 3 && AllEqual(counts) then [FlagFor(SmoothActivity(|counts|, counts[0]), describe)] else [])
    + (if latest.None? then [FlagFor(MissingBaseline, describe)]
       else if latest.value.leakage < 0.0 then [FlagFor(NegativeLeakage(latest.value.leakage), describe)]
       else [])
  }

  method CollectRedFlags(sources: seq<Source>, latest: Option<Calculation>, describe: Finding -> string)
    returns (flags: seq<Flag>)
    ensures flags == RedFlags(sources, latest, describe)
  {
    flags := [];
    var counts := [];
    var i := 0;
    while i < |sources|
      invariant 0 <= i <= |sources|
      invariant counts == Counts(sources[..i])
    {
      if Records(sources[i]) != 0 {
        counts := counts + [Records(sources[i])];
      }
      assert sources[..i + 1][..i] == sources[..i];
      i := i + 1;
    }
    assert sources[..|sources|] == sources;
    if |counts| >= 3 && AllEqual(counts) {
      flags := flags + [FlagFor(SmoothActivity(|counts|, counts[0]), describe)];
    }
    if latest.None? {
      flags := flags + [FlagFor(MissingBaseline, describe)];
    } else if latest.value.leakage < 0.0 {
      flags := flags + [FlagFor(NegativeLeakage(latest.value.leakage), describe)];
    }
  }

  // ---- the model's review ----

  /** Unavailable, or a document: the dismissed ids if they are a list, and the
      number of confirmed flags if they are a list. */
  datatype Reply = Fallback | Review(falsePositives: Option<seq<string>>, confirmed: Option<nat>)

  predicate Dismissed(f: Flag, ids: seq<string>) { f.id in ids || f.detail in ids }

  function Undismissed(flags: seq<Flag>, ids: seq<string>): seq<Flag> {
    if flags == [] then []
    else if Dismissed(flags[0], ids) then Undismissed(flags[1..], ids)
    else [flags[0]] + Undismissed(flags[1..], ids)
  }

  function Survivors(flags: seq<Flag>, reply: Reply): seq<Flag> {
    if reply.Review? && reply.falsePositives.Some? then Undismissed(flags, reply.falsePositives.value) else flags
  }

  function ReviewScore(flags: seq<Flag>, reply: Reply): Option<real> {
    if reply.Fallback? then None
    else if reply.confirmed.Some? && flags != []
    then Some(Unit(1.0 - reply.confirmed.value as real / |flags| as real * 0.5))
    else Some(1.0)
  }

  // ---- the run ----

  datatype Status = Completed | QueuedForReview

  datatype Result = Result(status: Status, confidence: real, flags: seq<Flag>)

  function HeuristicFrom(outlierRate: real, gapPercentage: real, additionality: real): real {
    var outlierConfidence := Max(0.0, 1.0 - outlierRate * 5.0);
    var gapConfidence := Max(0.0, 1.0 - gapPercentage / 100.0);
    Unit(outlierConfidence * 0.4 + gapConfidence * 0.3 + additionality * 0.3)
  }

  function Heuristic(sources: seq<Source>, p: Project, today: int): real
    requires sources != []
  {
    HeuristicFrom(OutlierRate(sources), GapPercentage(sources), Additionality(p, today))
  }

  function Assess(project: Option<Project>, sources: seq<Source>, latest: Option<Calculation>, today: int,
                  describe: Finding -> string, reply: Reply): Result {
    if project.None? || sources == [] then Result(Completed, 0.6, [])
    else
      var flags := RedFlags(sources, latest, describe);
      var survivors := Survivors(flags, reply);
      var blended := Blend(Heuristic(sources, project.value, today), ReviewScore(flags, reply));
      Result(if OutlierRate(sources) < 0.05 && GapPercentage(sources) < 10.0 && survivors == [] then Completed else QueuedForReview,
             if survivors != [] then Min(blended, RED_FLAG_CAP) else blended,
             survivors)
  }

  /** The agent's run: the totals are accumulated source by source, and the
      confidence is reassigned when a flag survives. */
  method Run(project: Option<Project>, sources: seq<Source>, latest: Option<Calculation>, today: int,
             describe: Finding -> string, reply: Reply) returns (r: Result)
    ensures r == Assess(project, sources, latest, today, describe, reply)
  {
    if project.None? || sources == [] {
      return Result(Completed, 0.6, []);
    }
    var outliers, gaps, total := AccumulateRates(sources);
    var outlierRate := if total > 0 then outliers as real / total as real else 0.0;
    var gapPercentage := gaps as real / |sources| as real * 100.0;
    var additionality := Passed(project.value, today) as real / 4.0;
    var flags := CollectRedFlags(sources, latest, describe);
    var confirmed := flags;
    if reply.Review? && reply.falsePositives.Some? {
      confirmed := Undismissed(flags, reply.falsePositives.value);
    }
    var heuristic := HeuristicFrom(outlierRate, gapPercentage, additionality);
    var confidence := Blend(heuristic, ReviewScore(flags, reply));
    if confirmed != [] {
      confidence := Min(confidence, RED_FLAG_CAP);
    }
    var status := if outlierRate < 0.05 && gapPercentage < 10.0 && confirmed == [] then Completed else QueuedForReview;
    return Result(status, confidence, confirmed);
  }

  method AccumulateRates(sources: seq<Source>) returns (outliers: nat, gaps: nat, total: int)
    ensures outliers == Outliers(sources) && gaps == Gaps(sources) && total == TotalRecords(sources)
  {
    outliers, gaps, total := 0, 0, 0;
    var i := 0;
    while i < |sources|
      invariant 0 <= i <= |sources|
      invariant outliers == Outliers(sources[..i]) && gaps == Gaps(sources[..i]) && total == TotalRecords(sources[..i])
    {
      outliers := outliers + (if IsOutlier(sources[i]) then 1 else 0);
      gaps := gaps + (if HasGap(sources[i]) then 1 else 0);
      total := total + Records(sources[i]);
      assert sources[..i + 1][..i] == sources[..i];
      i := i + 1;
    }
    assert sources[..|sources|] == sources;
  }

  // ---- the rates ----

  predicate NonNegative(sources: seq<Source>) {
    forall i :: 0 <= i < |sources| ==> Records(sources[i]) >= 0
  }

  lemma {:induction false} OutliersAreHeavy(sources: seq<Source>)
    requires NonNegative(sources)
    ensures TotalRecords(sources) >= (RECORD_LIMIT + 1) * Outliers(sources)
  {
    if sources != [] {
      OutliersAreHeavy(sources[..|sources| - 1]);
    }
  }

  /** An outlier is heavy enough to drown itself: with non-negative counts the
      outlier rate is always below one in 100000. */
  lemma OutlierRateTiny(sources: seq<Source>)
    requires NonNegative(sources)
    ensures 0.0 <= OutlierRate(sources) < 0.00001
  {
    OutliersAreHeavy(sources);
    if TotalRecords(sources) > 0 {
      var n, total := Outliers(sources), TotalRecords(sources);
      ShareCompared(n as real, total as real, 0.0);
      ShareCompared(n as real, total as real, 0.00001);
      assert total as real >= 100001.0 * n as real;
    }
  }

  /** So the 5% outlier test never decides: a run with data completes exactly when
      fewer than a tenth of the sources have a gap and no flag survives. */
  lemma CompletedIff(project: Option<Project>, sources: seq<Source>, latest: Option<Calculation>, today: int,
                     describe: Finding -> string, reply: Reply)
    requires project.Some? && sources != [] && NonNegative(sources)
    ensures Assess(project, sources, latest, today, describe, reply).status == Completed
       <==> 10 * Gaps(sources) < |sources| && Survivors(RedFlags(sources, latest, describe), reply) == []
  {
    OutlierRateTiny(sources);
    GapBelowTen(Gaps(sources), |sources|);
  }

  lemma GapBelowTen(gaps: nat, n: nat)
    requires n > 0
    ensures gaps as real / n as real * 100.0 < 10.0 <==> 10 * gaps < n
  {
    ShareCompared(gaps as real, n as real, 0.1);
    assert 10 * gaps < n <==> (10 * gaps) as real < n as real;
  }

  // ---- what a review can do to the flags ----

  /** `xs` with some elements removed. */
  predicate Subsequence(xs: seq<Flag>, ys: seq<Flag>) {
    if xs == [] then true
    else if ys == [] then false
    else if xs[0] == ys[0] then Subsequence(xs[1..], ys[1..])
    else Subsequence(xs, ys[1..])
  }

  lemma {:induction false} SubsequenceSkip(xs: seq<Flag>, ys: seq<Flag>, y: Flag)
    requires Subsequence(xs, ys)
    ensures Subsequence(xs, [y] + ys)
    decreases |ys|, 1
  {
    assert ([y] + ys)[1..] == ys;
    if xs != [] && xs[0] == y {
      SubsequenceTail(xs, ys);
    }
  }

  lemma {:induction false} SubsequenceTail(xs: seq<Flag>, ys: seq<Flag>)
    requires xs != [] && Subsequence(xs, ys)
    ensures Subsequence(xs[1..], ys)
    decreases |ys|, 0
  {
    if xs[0] == ys[0] {
      SubsequenceSkip(xs[1..], ys[1..], ys[0]);
      assert ys == [ys[0]] + ys[1..];
    } else {
      SubsequenceTail(xs, ys[1..]);
      SubsequenceSkip(xs[1..], ys[1..], ys[0]);
      assert ys == [ys[0]] + ys[1..];
    }
  }

  lemma {:induction false} UndismissedMeaning(flags: seq<Flag>, ids: seq<string>)
    ensures Subsequence(Undismissed(flags, ids), flags)
    ensures forall f :: f in Undismissed(flags, ids) <==> f in flags && !Dismissed(f, ids)
  {
    if flags != [] {
      UndismissedMeaning(flags[1..], ids);
      var rest := Undismissed(flags[1..], ids);
      assert flags == [flags[0]] + flags[1..];
      if Dismissed(flags[0], ids) {
        SubsequenceSkip(rest, flags[1..], flags[0]);
      } else {
        assert ([flags[0]] + rest)[1..] == rest;
      }
    }
  }

  /** For every reply the surviving flags are raised flags in their order, without
      the dismissed ones and no others; with no usable list all survive. */
  lemma SurvivorsMeaning(flags: seq<Flag>, reply: Reply)
    ensures Subsequence(Survivors(flags, reply), flags)
    ensures forall f :: f in Survivors(flags, reply) <==>
      f in flags && !(reply.Review? && reply.falsePositives.Some? && Dismissed(f, reply.falsePositives.value))
  {
    if reply.Review? && reply.falsePositives.Some? {
      UndismissedMeaning(flags, reply.falsePositives.value);
    } else {
      SubsequenceSelf(flags);
    }
  }

  lemma {:induction false} SubsequenceSelf(flags: seq<Flag>)
    ensures Subsequence(flags, flags)
  {
    if flags != [] {
      SubsequenceSelf(flags[1..]);
    }
  }

  /** Main result, for every reply: one surviving flag caps the confidence, keeps
      the run out of automatic advance, and queues it for review. */
  lemma SurvivorCapsTheRun(project: Option<Project>, sources: seq<Source>, latest: Option<Calculation>, today: int,
                           describe: Finding -> string, reply: Reply)
    ensures var r := Assess(project, sources, latest, today, describe, reply);
      r.flags != [] ==> r.confidence <= RED_FLAG_CAP && TierOf(r.confidence) != AutoAdvance && r.status == QueuedForReview
  {
  }

  lemma HeuristicNeedsAdditionality(sources: seq<Source>, p: Project, today: int)
    requires sources != [] && NonNegative(sources)
    ensures Heuristic(sources, p, today) >= 0.875 ==> Passed(p, today) >= 3
  {
    OutlierRateTiny(sources);
    assert GapPercentage(sources) >= 0.0 by {
      assert Gaps(sources) as real / |sources| as real >= 0.0;
    }
  }

  /** A review that confirms any flag scores at most 0.75, dismissed or not. */
  lemma ConfirmationLowersScore(flags: seq<Flag>, reply: Reply)
    requires 0 < |flags| <= 2 && reply.Review? && reply.confirmed.Some? && reply.confirmed.value > 0
    ensures ReviewScore(flags, reply).Some? && ReviewScore(flags, reply).value <= 0.75
  {
    ShareCompared(reply.confirmed.value as real, |flags| as real, 0.5);
  }

  /** What automatic advance implies, whatever the model replied: no surviving
      flag, a heuristic of 0.875, three of the four additionality checks, and a
      review that confirmed none of the raised flags. */
  lemma AutoAdvanceImplies(project: Option<Project>, sources: seq<Source>, latest: Option<Calculation>, today: int,
                           describe: Finding -> string, reply: Reply)
    requires project.Some? && sources != [] && NonNegative(sources)
    ensures TierOf(Assess(project, sources, latest, today, describe, reply).confidence) == AutoAdvance ==>
      && Assess(project, sources, latest, today, describe, reply).flags == []
      && Heuristic(sources, project.value, today) >= 0.875 && Passed(project.value, today) >= 3
      && (RedFlags(sources, latest, describe) != [] && reply.Review? && reply.confirmed.Some? ==> reply.confirmed.value == 0)
  {
    if TierOf(Assess(project, sources, latest, today, describe, reply).confidence) == AutoAdvance {
      SurvivorCapsTheRun(project, sources, latest, today, describe, reply);
      var flags, h := RedFlags(sources, latest, describe), Heuristic(sources, project.value, today);
      AutoAdvanceNeedsHeuristic(h, ReviewScore(flags, reply));
      HeuristicNeedsAdditionality(sources, project.value, today);
      if flags != [] && reply.Review? && reply.confirmed.Some? && reply.confirmed.value > 0 {
        assert |flags| <= 2;
        ConfirmationLowersScore(flags, reply);
        BlendMonotone(h, 1.0, ReviewScore(flags, reply), Some(0.75));
        assert false;
      }
    }
  }

  // ---- the run, in the words of its inputs ----

  /** The sources whose record count is present and not zero. */
  ghost function Counted(sources: seq<Source>): set<nat> {
    set i: nat | i < |sources| && sources[i].recordsExtracted.Some? && sources[i].recordsExtracted.value != 0
  }

  /** At least three sources have counts, and all of these are equal. */
  ghost predicate Smooth(sources: seq<Source>) {
    |Counted(sources)| >= 3
    && forall i, j :: i in Counted(sources) && j in Counted(sources) ==>
         sources[i].recordsExtracted.value == sources[j].recordsExtracted.value
  }

  lemma {:induction false} CountsMeaning(sources: seq<Source>, x: int)
    ensures |Counts(sources)| == |Counted(sources)|
    ensures x in Counts(sources) <==> exists i :: i in Counted(sources) && sources[i].recordsExtracted.value == x
  {
    if sources == [] {
      assert Counted(sources) == {};
    } else {
      var n := |sources| - 1;
      CountsMeaning(sources[..n], x);
      CountedNext(sources, n);
      var before := Counted(sources[..n]);
      assert forall i :: i in before ==> sources[..n][i] == sources[i];
      assert Records(sources[n]) != 0 ==> n in Counted(sources);
    }
  }

  lemma CountedNext(sources: seq<Source>, n: nat)
    requires n + 1 == |sources|
    ensures Counted(sources) == Counted(sources[..n]) + (if Records(sources[n]) != 0 then {n} else {})
    ensures |Counted(sources)| == |Counted(sources[..n])| + (if Records(sources[n]) != 0 then 1 else 0)
  {
    var before := Counted(sources[..n]);
    assert n !in before;
    assert Counted(sources) == before + (if Records(sources[n]) != 0 then {n} else {});
  }

  lemma SmoothIff(sources: seq<Source>)
    ensures |Counts(sources)| >= 3 && AllEqual(Counts(sources)) <==> Smooth(sources)
  {
    var counts := Counts(sources);
    CountsMeaning(sources, 0);
    forall x
      ensures x in counts <==> exists i :: i in Counted(sources) && sources[i].recordsExtracted.value == x
    {
      CountsMeaning(sources, x);
    }
    if AllEqual(counts) {
      forall i, j | i in Counted(sources) && j in Counted(sources)
        ensures sources[i].recordsExtracted.value == sources[j].recordsExtracted.value
      {
        assert sources[i].recordsExtracted.value in counts && sources[j].recordsExtracted.value in counts;
      }
    } else {
      var i :| 0 <= i < |counts| && counts[i] != counts[0];
      assert counts[i] in counts && counts[0] in counts;
    }
  }

  /** Main result: the flags raised, exactly. Three ids, each under its own condition
      on the stored counts and the latest run, at most once, and no other. */
  lemma FlagsRaisedIff(sources: seq<Source>, latest: Option<Calculation>, describe: Finding -> string)
    ensures var flags := RedFlags(sources, latest, describe);
      && ((exists f :: f in flags && f.id == "smooth_activity_data") <==> Smooth(sources))
      && ((exists f :: f in flags && f.id == "missing_baseline") <==> latest == None)
      && ((exists f :: f in flags && f.id == "negative_leakage") <==> latest.Some? && latest.value.leakage < 0.0)
    ensures var flags := RedFlags(sources, latest, describe);
      && (forall f :: f in flags ==> f.id in {"smooth_activity_data", "missing_baseline", "negative_leakage"})
      && (forall i, j :: 0 <= i < j < |flags| ==> flags[i].id != flags[j].id)
  {
    SmoothIff(sources);
    var flags, counts := RedFlags(sources, latest, describe), Counts(sources);
    IdsDiffer();
    if Smooth(sources) {
      assert flags[0] == FlagFor(SmoothActivity(|counts|, counts[0]), describe) && flags[0] in flags;
    }
    if latest == None {
      assert flags[|flags| - 1] == FlagFor(MissingBaseline, describe) && flags[|flags| - 1] in flags;
    } else if latest.value.leakage < 0.0 {
      assert flags[|flags| - 1] == FlagFor(NegativeLeakage(latest.value.leakage), describe) && flags[|flags| - 1] in flags;
    }
  }

  lemma IdsDiffer()
    ensures "smooth_activity_data" != "missing_baseline" && "smooth_activity_data" != "negative_leakage"
    ensures "missing_baseline" != "negative_leakage"
  {
    assert "smooth_activity_data"[0] == 's' && "missing_baseline"[0] == 'm' && "negative_leakage"[0] == 'n';
  }

  /** What the flags tell: the reply dismisses by this text or by the id. */
  lemma FlagDetails(sources: seq<Source>, latest: Option<Calculation>, describe: Finding -> string, f: Flag)
    requires f in RedFlags(sources, latest, describe)
    ensures f.id == "missing_baseline" ==> f.detail == describe(MissingBaseline)
    ensures f.id == "negative_leakage" ==> latest.Some? && f.detail == describe(NegativeLeakage(latest.value.leakage))
    ensures f.id == "smooth_activity_data" ==>
      exists i :: i in Counted(sources) && f.detail == describe(SmoothActivity(|Counted(sources)|, sources[i].recordsExtracted.value))
  {
    IdsDiffer();
    CountsMeaning(sources, 0);
    if f.id == "smooth_activity_data" {
      var counts := Counts(sources);
      CountsMeaning(sources, counts[0]);
      assert counts[0] in counts;
    }
  }

  /** The reply is a review whose list dismisses the flag. */
  ghost predicate TakenOff(f: Flag, reply: Reply) {
    reply.Review? && exists ids :: reply.falsePositives == Some(ids) && (f.id in ids || f.detail in ids)
  }

  ghost function OutlierPlaces(sources: seq<Source>): set<nat> {
    set i: nat | i < |sources| && sources[i].recordsExtracted.Some? && sources[i].recordsExtracted.value > 100_000
  }

  ghost function GapPlaces(sources: seq<Source>): set<nat> {
    set i: nat | i < |sources| && sources[i].fieldsMapped.Some? && sources[i].fieldsMapped.value != 0
                 && sources[i].fieldsMapped.value < 5
  }

  /** The stored counts together; a missing one adds nothing. */
  ghost function RecordSum(sources: seq<Source>): int {
    if sources == [] then 0
    else (match sources[0].recordsExtracted case Some(n) => n case None => 0) + RecordSum(sources[1..])
  }

  lemma {:induction false} RatesMeaning(sources: seq<Source>)
    ensures Outliers(sources) == |OutlierPlaces(sources)| && Gaps(sources) == |GapPlaces(sources)|
    ensures TotalRecords(sources) == RecordSum(sources)
  {
    if sources == [] {
      assert OutlierPlaces(sources) == {} && GapPlaces(sources) == {};
    } else {
      var n := |sources| - 1;
      RatesMeaning(sources[..n]);
      OutlierPlacesNext(sources, n);
      GapPlacesNext(sources, n);
      RecordSumSnoc(sources[..n], sources[n]);
      assert sources == sources[..n] + [sources[n]];
    }
  }

  lemma OutlierPlacesNext(sources: seq<Source>, n: nat)
    requires n + 1 == |sources|
    ensures |OutlierPlaces(sources)| == |OutlierPlaces(sources[..n])| + (if IsOutlier(sources[n]) then 1 else 0)
  {
    var outliers := OutlierPlaces(sources[..n]);
    assert n !in outliers;
    assert OutlierPlaces(sources) == if IsOutlier(sources[n]) then outliers + {n} else outliers;
  }

  lemma GapPlacesNext(sources: seq<Source>, n: nat)
    requires n + 1 == |sources|
    ensures |GapPlaces(sources)| == |GapPlaces(sources[..n])| + (if HasGap(sources[n]) then 1 else 0)
  {
    var gaps := GapPlaces(sources[..n]);
    assert n !in gaps;
    assert GapPlaces(sources) == if HasGap(sources[n]) then gaps + {n} else gaps;
  }

  lemma {:induction false} RecordSumSnoc(sources: seq<Source>, s: Source)
    ensures RecordSum(sources + [s]) == RecordSum(sources) + Records(s)
  {
    if sources == [] {
      assert sources + [s] == [s] && [s][1..] == [];
    } else {
      assert (sources + [s])[1..] == sources[1..] + [s];
      RecordSumSnoc(sources[1..], s);
    }
  }

  /** The four checks, as the project's own fields answer them. */
  ghost function ChecksPassed(p: Project, today: int): nat {
    (if exists a, b :: p.start == Some(a) && p.end == Some(b) && a < b then 1 else 0)
    + (if exists a :: p.start == Some(a) && a <= today then 1 else 0)
    + (if p.methodologySupported then 1 else 0)
    + (if p.characterized then 1 else 0)
  }

  lemma ChecksMeaning(p: Project, today: int)
    ensures Passed(p, today) == ChecksPassed(p, today)
  {
    if p.start.Some? && p.end.Some? {
      assert p.start == Some(p.start.value) && p.end == Some(p.end.value);
    }
  }

  ghost function OutlierShare(sources: seq<Source>): real {
    if RecordSum(sources) > 0 then |OutlierPlaces(sources)| as real / RecordSum(sources) as real else 0.0
  }

  ghost function GapShare(sources: seq<Source>): real
    requires sources != []
  {
    |GapPlaces(sources)| as real / |sources| as real
  }

  ghost function NotBelowZero(x: real): real { if x < 0.0 then 0.0 else x }

  /** Four tenths for few outliers, three for few gaps, three for the checks. */
  ghost function Expected(sources: seq<Source>, p: Project, today: int): real
    requires sources != []
  {
    0.4 * NotBelowZero(1.0 - 5.0 * OutlierShare(sources)) + 0.3 * NotBelowZero(1.0 - GapShare(sources))
    + 0.075 * ChecksPassed(p, today) as real
  }

  lemma SharesMeaning(sources: seq<Source>)
    requires sources != []
    ensures OutlierRate(sources) == OutlierShare(sources) >= 0.0 && GapPercentage(sources) == 100.0 * GapShare(sources)
    ensures 0.0 <= GapShare(sources)
  {
    RatesMeaning(sources);
    if RecordSum(sources) > 0 {
      assert |OutlierPlaces(sources)| as real / RecordSum(sources) as real >= 0.0;
    }
    assert |GapPlaces(sources)| as real / |sources| as real >= 0.0;
  }

  lemma HeuristicMeaning(sources: seq<Source>, p: Project, today: int)
    requires sources != []
    ensures Heuristic(sources, p, today) == Expected(sources, p, today)
    ensures 0.0 <= Expected(sources, p, today) <= 1.0
  {
    SharesMeaning(sources);
    ChecksMeaning(p, today);
    assert Additionality(p, today) * 0.3 == 0.075 * ChecksPassed(p, today) as real;
    assert 0 <= ChecksPassed(p, today) <= 4;
  }

  /** What a review makes of the heuristic: nothing without a review, and otherwise six
      tenths of a score that loses half the confirmed share of the raised flags. */
  ghost function Reviewed(h: real, raised: nat, reply: Reply): real {
    if reply.Fallback? then h
    else if reply.confirmed == None || raised == 0 then 0.4 * h + 0.6
    else
      var lost := 0.5 * (reply.confirmed.value as real / raised as real);
      0.4 * h + 0.6 * NotBelowZero(1.0 - lost)
  }

  lemma ReviewMeaning(h: real, flags: seq<Flag>, reply: Reply)
    requires 0.0 <= h <= 1.0
    ensures Blend(h, ReviewScore(flags, reply)) == Reviewed(h, |flags|, reply)
  {
    BlendMeaning(h, ReviewScore(flags, reply));
    if reply.Review? && reply.confirmed.Some? && flags != [] {
      assert reply.confirmed.value as real / |flags| as real >= 0.0;
    }
  }

  lemma NoneLeftIff(flags: seq<Flag>, reply: Reply)
    ensures Survivors(flags, reply) == [] <==> forall f :: f in flags ==> TakenOff(f, reply)
  {
    SurvivorsMeaning(flags, reply);
    var left := Survivors(flags, reply);
    if left != [] {
      assert left[0] in left && !TakenOff(left[0], reply);
    } else if reply.Review? && reply.falsePositives.Some? {
      assert reply.falsePositives == Some(reply.falsePositives.value);
    }
  }

  /** Main result: status and confidence of every run, for every reply, from the stored
      counts, the project's fields, and the flags that `FlagsRaisedIff` names. */
  lemma RunMeaning(project: Option<Project>, sources: seq<Source>, latest: Option<Calculation>, today: int,
                   describe: Finding -> string, reply: Reply)
    ensures var r, flags := Assess(project, sources, latest, today, describe, reply), RedFlags(sources, latest, describe);
      if project == None || sources == [] then r == Result(Completed, 0.6, [])
      else
        var c, allOff := Reviewed(Expected(sources, project.value, today), |flags|, reply), forall f :: f in flags ==> TakenOff(f, reply);
        && r.confidence == (if !allOff && c > 0.9 then 0.9 else c)
        && (r.status == Completed <==> OutlierShare(sources) < 0.05 && GapShare(sources) < 0.1 && allOff)
  {
    if project.Some? && sources != [] {
      var flags := RedFlags(sources, latest, describe);
      SharesMeaning(sources);
      HeuristicMeaning(sources, project.value, today);
      ReviewMeaning(Expected(sources, project.value, today), flags, reply);
      NoneLeftIff(flags, reply);
    }
  }

  /** The status alone, with the flags spelled out: each kind that is warranted has to
      be dismissed by its id or by its text. */
  lemma CompletesIff(project: Option<Project>, sources: seq<Source>, latest: Option<Calculation>, today: int,
                     describe: Finding -> string, reply: Reply)
    requires project.Some? && sources != []
    ensures Assess(project, sources, latest, today, describe, reply).status == Completed <==>
      && OutlierShare(sources) < 0.05 && GapShare(sources) < 0.1
      && (latest == None ==> TakenOff(Flag("missing_baseline", describe(MissingBaseline)), reply))
      && (latest.Some? && latest.value.leakage < 0.0 ==>
            TakenOff(Flag("negative_leakage", describe(NegativeLeakage(latest.value.leakage))), reply))
      && (Smooth(sources) ==> forall i :: i in Counted(sources) ==>
            TakenOff(Flag("smooth_activity_data",
                          describe(SmoothActivity(|Counted(sources)|, sources[i].recordsExtracted.value))), reply))
  {
    RunMeaning(project, sources, latest, today, describe, reply);
    var flags, counts := RedFlags(sources, latest, describe), Counts(sources);
    SmoothIff(sources);
    CountsMeaning(sources, 0);
    if Smooth(sources) {
      CountsMeaning(sources, counts[0]);
      assert counts[0] in counts;
      var i :| i in Counted(sources) && sources[i].recordsExtracted.value == counts[0];
      assert flags[0] == FlagFor(SmoothActivity(|counts|, counts[0]), describe) && flags[0] in flags;
    }
    var last := if latest == None then [FlagFor(MissingBaseline, describe)]
                else if latest.value.leakage < 0.0 then [FlagFor(NegativeLeakage(latest.value.leakage), describe)] else [];
    assert forall f :: f in last ==> f in flags;
  }
}
