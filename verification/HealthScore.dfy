/** The composite system health score, and what reaching the deploy gate's
    threshold says about the backlog. */
module HealthScore {
  import opened Prelude

  // ---- rounding ----

  /** Python's `round` to an integer: to the nearest, ties to even. */
  function RoundHalfEven(x: real): int {
    var below := x.Floor;
    var rest := x - below as real;
    if rest < 0.5 then below
    else if rest > 0.5 then below + 1
    else if below % 2 == 0 then below else below + 1
  }

  function RoundTenth(x: real): real { RoundHalfEven(x * 10.0) as real / 10.0 }

  /** Rounding reaches an even number from half a unit below it on. */
  lemma RoundsUpToEven(x: real, n: int)
    requires n % 2 == 0
    ensures RoundHalfEven(x) >= n <==> x >= n as real - 0.5
  {
    var below := x.Floor;
    if below >= n {
    } else if below == n - 1 {
      assert below % 2 != 0;
    } else {
      assert RoundHalfEven(x) <= below + 1 <= n - 1;
    }
  }

  lemma RoundTenthWithin(x: real, lo: int, hi: int)
    requires lo as real <= x <= hi as real
    ensures lo as real <= RoundTenth(x) <= hi as real
  {
    var y := x * 10.0;
    assert (10 * lo) as real <= y <= (10 * hi) as real;
    assert 10 * lo <= RoundHalfEven(y) <= 10 * hi;
    assert (10 * lo) as real == 10.0 * lo as real && (10 * hi) as real == 10.0 * hi as real;
  }

  // ---- the tables the score reads ----

  datatype Decision = Decision(at: int, confidence: Option<real>)

  datatype EscalationStatus = Open | Acknowledged | Resolved

  datatype Escalation = Escalation(priority: int, status: EscalationStatus)

  datatype QueueStatus = Pending | InReview | QueueResolved | QueueEscalated

  datatype Outcome = Good | Bad | Other

  /** A remediation (succeeded, or attempted or failed) or a validation run
      (completed, or failed), with its time. */
  datatype Attempt = Attempt(at: int, outcome: Outcome)

  datatype Tables = Tables(
    decisions: seq<Decision>, events: seq<Escalation>, queue: seq<QueueStatus>,
    remediations: seq<Attempt>, runs: seq<Attempt>)

  const HOUR: int := 3600
  const CONFIDENCE_WINDOW: int := 24 * HOUR
  const WEEK_WINDOW: int := 7 * 24 * HOUR

  function OpenAt(events: seq<Escalation>, priority: int): nat {
    Count(events, (e: Escalation) => e.status == Open && e.priority == priority)
  }

  function Depth(queue: seq<QueueStatus>): nat {
    Count(queue, q => q == Pending || q == InReview)
  }

  function Recent(attempts: seq<Attempt>, cutoff: int, outcome: Outcome): nat {
    Count(attempts, (a: Attempt) => a.at >= cutoff && a.outcome == outcome)
  }

  function Confidences(decisions: seq<Decision>, cutoff: int): seq<real> {
    if decisions == [] then []
    else
      (if decisions[0].at >= cutoff && decisions[0].confidence.Some? then [decisions[0].confidence.value] else [])
      + Confidences(decisions[1..], cutoff)
  }

  // ---- components ----

  datatype Component = AgentConfidence | OpenEscalations | ReviewQueueDepth | ResolutionRate | ValidationHealth

  function Weight(c: Component): real {
    match c
    case AgentConfidence => 0.30
    case OpenEscalations => 0.30
    case ReviewQueueDepth => 0.20
    case ResolutionRate => 0.10
    case ValidationHealth => 0.10
  }

  function Backlog(events: seq<Escalation>): nat {
    25 * OpenAt(events, 0) + 10 * OpenAt(events, 1) + 2 * OpenAt(events, 2)
  }

  /** The share of good outcomes among the counted ones, in percent. */
  function Rate(attempts: seq<Attempt>, cutoff: int): Option<real> {
    var good, bad := Recent(attempts, cutoff, Good), Recent(attempts, cutoff, Bad);
    if good + bad > 0 then Some(RoundTenth(good as real / (good + bad) as real * 100.0)) else None
  }

  function MeanConfidence(decisions: seq<Decision>, cutoff: int): Option<real> {
    var cs := Confidences(decisions, cutoff);
    if cs == [] then None else Some(RoundTenth(Sum(cs) / |cs| as real * 100.0))
  }

  /** The component's score, when the tables have data for it. */
  function Score(t: Tables, now: int, c: Component): Option<real> {
    match c
    case AgentConfidence => MeanConfidence(t.decisions, now - CONFIDENCE_WINDOW)
    case OpenEscalations => Some(Max(0.0, 100.0 - Backlog(t.events) as real))
    case ReviewQueueDepth => Some(Max(0.0, 100.0 - 5.0 * Depth(t.queue) as real))
    case ResolutionRate => Rate(t.remediations, now - WEEK_WINDOW)
    case ValidationHealth => Rate(t.runs, now - WEEK_WINDOW)
  }

  function TotalWeight(cs: seq<(Component, real)>): (w: real)
    ensures w >= 0.0 && (cs != [] ==> w > 0.0)
  {
    if cs == [] then 0.0 else Weight(cs[0].0) + TotalWeight(cs[1..])
  }

  function Weighted(cs: seq<(Component, real)>): real {
    if cs == [] then 0.0 else Weight(cs[0].0) * cs[0].1 + Weighted(cs[1..])
  }

  function Entry(c: Component, score: Option<real>): seq<(Component, real)> {
    if score.Some? then [(c, score.value)] else []
  }

  /** The components dictionary, in insertion order. */
  function Components(t: Tables, now: int): seq<(Component, real)> {
    Entry(AgentConfidence, Score(t, now, AgentConfidence))
    + Entry(OpenEscalations, Score(t, now, OpenEscalations))
    + Entry(ReviewQueueDepth, Score(t, now, ReviewQueueDepth))
    + Entry(ResolutionRate, Score(t, now, ResolutionRate))
    + Entry(ValidationHealth, Score(t, now, ValidationHealth))
  }

  function Overall(cs: seq<(Component, real)>): int {
    RoundHalfEven(Clamp(0.0, 100.0, if cs == [] then 100.0 else Weighted(cs) / TotalWeight(cs)))
  }

  method ComputeHealthScore(t: Tables, now: int) returns (score: int, components: seq<(Component, real)>)
    ensures components == Components(t, now)
    ensures score == Overall(components)
  {
    components := [];
    var cs := Confidences(t.decisions, now - CONFIDENCE_WINDOW);
    if cs != [] {
      components := components + [(AgentConfidence, RoundTenth(Sum(cs) / |cs| as real * 100.0))];
    }
    assert components == Entry(AgentConfidence, Score(t, now, AgentConfidence));
    var p0, p1, p2 := OpenAt(t.events, 0), OpenAt(t.events, 1), OpenAt(t.events, 2);
    var weighted: int := p0 * 25 + p1 * 10 + p2 * 2;
    var escalations := Max(0.0, (100 - weighted) as real);
    assert Some(escalations) == Score(t, now, OpenEscalations);
    components := components + [(OpenEscalations, escalations)];
    var depth: int := Depth(t.queue);
    var queueScore := Max(0.0, (100 - depth * 5) as real);
    assert Some(queueScore) == Score(t, now, ReviewQueueDepth);
    components := components + [(ReviewQueueDepth, queueScore)];
    components := AddRate(components, ResolutionRate, t.remediations, now - WEEK_WINDOW);
    components := AddRate(components, ValidationHealth, t.runs, now - WEEK_WINDOW);
    assert components == Components(t, now);
    var raw := 100.0;
    if components != [] {
      raw := Weighted(components) / TotalWeight(components);
    }
    score := RoundHalfEven(Clamp(0.0, 100.0, raw));
  }

  /** The two rates are added only when they have something to count. */
  method AddRate(components: seq<(Component, real)>, c: Component, attempts: seq<Attempt>, cutoff: int)
    returns (r: seq<(Component, real)>)
    ensures r == components + Entry(c, Rate(attempts, cutoff))
  {
    r := components;
    var good, bad := Recent(attempts, cutoff, Good), Recent(attempts, cutoff, Bad);
    if good + bad > 0 {
      var rate := good as real / (good + bad) as real;
      r := r + [(c, RoundTenth(rate * 100.0))];
    }
  }

  // ---- the statistics endpoint ----

  datatype Stats = Stats(total: nat, byStatus: map<EscalationStatus, nat>, byPriority: map<int, nat>, openP0: nat)

  function StatusCount(events: seq<Escalation>, status: EscalationStatus): nat {
    Count(events, (e: Escalation) => e.status == status)
  }

  function PriorityCount(events: seq<Escalation>, priority: int): nat {
    Count(events, (e: Escalation) => e.priority == priority)
  }

  /** The counting loop: every counter ends as the number of events it stands for,
      including priorities that the endpoint did not expect. */
  method EscalationStats(events: seq<Escalation>) returns (r: Stats)
    ensures r.total == |events| && r.openP0 == OpenAt(events, 0)
    ensures r.byStatus.Keys == {Open, Acknowledged, Resolved}
    ensures forall s :: s in r.byStatus ==> r.byStatus[s] == StatusCount(events, s)
    ensures forall p :: p in r.byPriority <==> 0 <= p <= 2 || exists e :: e in events && e.priority == p
    ensures forall p :: p in r.byPriority ==> r.byPriority[p] == PriorityCount(events, p)
  {
    var byStatus: map<EscalationStatus, nat> := map[Open := 0, Acknowledged := 0, Resolved := 0];
    var byPriority: map<int, nat> := map[0 := 0, 1 := 0, 2 := 0];
    var i := 0;
    while i < |events|
      invariant 0 <= i <= |events|
      invariant byStatus.Keys == {Open, Acknowledged, Resolved}
      invariant forall s :: s in byStatus ==> byStatus[s] == StatusCount(events[..i], s)
      invariant forall p :: p in byPriority <==> 0 <= p <= 2 || exists e :: e in events[..i] && e.priority == p
      invariant forall p :: p in byPriority ==> byPriority[p] == PriorityCount(events[..i], p)
      invariant forall p :: p !in byPriority ==> PriorityCount(events[..i], p) == 0
    {
      var event := events[i];
      forall s: EscalationStatus
        ensures StatusCount(events[..i + 1], s) == StatusCount(events[..i], s) + (if event.status == s then 1 else 0)
      {
        CountSnoc(events, i, (e: Escalation) => e.status == s);
      }
      forall p: int
        ensures PriorityCount(events[..i + 1], p) == PriorityCount(events[..i], p) + (if event.priority == p then 1 else 0)
      {
        CountSnoc(events, i, (e: Escalation) => e.priority == p);
      }
      assert forall e :: e in events[..i + 1] <==> e in events[..i] || e == event;
      byStatus := byStatus[event.status := byStatus[event.status] + 1];
      byPriority := byPriority[event.priority := (if event.priority in byPriority then byPriority[event.priority] else 0) + 1];
      i := i + 1;
    }
    assert events[..|events|] == events;
    r := Stats(|events|, byStatus, byPriority, OpenAt(events, 0));
  }

  /** Every event is in exactly one status. */
  lemma {:induction false} StatusesConserve(events: seq<Escalation>)
    ensures StatusCount(events, Open) + StatusCount(events, Acknowledged) + StatusCount(events, Resolved) == |events|
    ensures OpenAt(events, 0) + OpenAt(events, 1) + OpenAt(events, 2) <= StatusCount(events, Open)
  {
    if events != [] {
      StatusesConserve(events[1..]);
    }
  }

  // ---- what a score of 90 says ----

  /** How far the components fall short of 100, weighted. */
  function Deficit(cs: seq<(Component, real)>): real {
    if cs == [] then 0.0 else Weight(cs[0].0) * (100.0 - cs[0].1) + Deficit(cs[1..])
  }

  lemma {:induction false} WeightedPlusDeficit(cs: seq<(Component, real)>)
    ensures Weighted(cs) + Deficit(cs) == 100.0 * TotalWeight(cs)
  {
    if cs != [] {
      WeightedPlusDeficit(cs[1..]);
      var w, s := Weight(cs[0].0), cs[0].1;
      assert w * s + w * (100.0 - s) == 100.0 * w;
    }
  }

  /** For any components at all, the gate's 90 is a bound on the weighted deficit. */
  lemma ReachesThresholdIff(cs: seq<(Component, real)>)
    requires cs != []
    ensures Overall(cs) >= 90 <==> Deficit(cs) <= 10.5 * TotalWeight(cs)
  {
    var mean := Weighted(cs) / TotalWeight(cs);
    WeightedPlusDeficit(cs);
    ShareCompared(Weighted(cs), TotalWeight(cs), 89.5);
    RoundsUpToEven(Clamp(0.0, 100.0, mean), 90);
    assert 89.5 * TotalWeight(cs) == 100.0 * TotalWeight(cs) - 10.5 * TotalWeight(cs);
  }

  lemma {:induction false} SumsAppend(cs: seq<(Component, real)>, ds: seq<(Component, real)>)
    ensures TotalWeight(cs + ds) == TotalWeight(cs) + TotalWeight(ds)
    ensures Deficit(cs + ds) == Deficit(cs) + Deficit(ds)
  {
    if cs == [] {
      assert cs + ds == ds;
    } else {
      assert (cs + ds)[1..] == cs[1..] + ds;
      SumsAppend(cs[1..], ds);
    }
  }

  function Present(c: Component, score: Option<real>): real { if score.Some? then Weight(c) else 0.0 }

  function Shortfall(c: Component, score: Option<real>): real {
    if score.Some? then Weight(c) * (100.0 - score.value) else 0.0
  }

  lemma EntrySums(c: Component, score: Option<real>)
    ensures TotalWeight(Entry(c, score)) == Present(c, score)
    ensures Deficit(Entry(c, score)) == Shortfall(c, score)
  {
    var cs := Entry(c, score);
    if cs != [] {
      assert cs[1..] == [];
    }
  }

  lemma AppendEntry(cs: seq<(Component, real)>, c: Component, score: Option<real>)
    ensures TotalWeight(cs + Entry(c, score)) == TotalWeight(cs) + Present(c, score)
    ensures Deficit(cs + Entry(c, score)) == Deficit(cs) + Shortfall(c, score)
  {
    SumsAppend(cs, Entry(c, score));
    EntrySums(c, score);
  }

  /** The optional components' part of the two sums. */
  function OptionalWeight(t: Tables, now: int): real {
    Present(AgentConfidence, Score(t, now, AgentConfidence))
    + Present(ResolutionRate, Score(t, now, ResolutionRate))
    + Present(ValidationHealth, Score(t, now, ValidationHealth))
  }

  function OptionalShortfall(t: Tables, now: int): real {
    Shortfall(AgentConfidence, Score(t, now, AgentConfidence))
    + Shortfall(ResolutionRate, Score(t, now, ResolutionRate))
    + Shortfall(ValidationHealth, Score(t, now, ValidationHealth))
  }

  lemma ComponentSums(t: Tables, now: int)
    ensures TotalWeight(Components(t, now)) == 0.5 + OptionalWeight(t, now)
    ensures Deficit(Components(t, now)) ==
      0.3 * Min(100.0, Backlog(t.events) as real) + 0.2 * Min(100.0, 5.0 * Depth(t.queue) as real) + OptionalShortfall(t, now)
  {
    var c0 := Entry(AgentConfidence, Score(t, now, AgentConfidence));
    EntrySums(AgentConfidence, Score(t, now, AgentConfidence));
    var c1 := c0 + Entry(OpenEscalations, Score(t, now, OpenEscalations));
    AppendEntry(c0, OpenEscalations, Score(t, now, OpenEscalations));
    var c2 := c1 + Entry(ReviewQueueDepth, Score(t, now, ReviewQueueDepth));
    AppendEntry(c1, ReviewQueueDepth, Score(t, now, ReviewQueueDepth));
    var c3 := c2 + Entry(ResolutionRate, Score(t, now, ResolutionRate));
    AppendEntry(c2, ResolutionRate, Score(t, now, ResolutionRate));
    AppendEntry(c3, ValidationHealth, Score(t, now, ValidationHealth));
  }

  lemma {:induction false} MeanWithin(cs: seq<real>)
    requires cs != [] && forall i :: 0 <= i < |cs| ==> 0.0 <= cs[i] <= 1.0
    ensures 0.0 <= Sum(cs) <= |cs| as real
  {
    if |cs| > 1 {
      MeanWithin(cs[1..]);
    } else {
      assert cs[1..] == [];
    }
  }

  /** Decision confidences are scores, as the agents' result type clamps them. */
  ghost predicate ConfidencesAreScores(decisions: seq<Decision>) {
    forall i :: 0 <= i < |decisions| && decisions[i].confidence.Some? ==> 0.0 <= decisions[i].confidence.value <= 1.0
  }

  lemma {:induction false} ConfidencesWithin(decisions: seq<Decision>, cutoff: int)
    requires ConfidencesAreScores(decisions)
    ensures forall i :: 0 <= i < |Confidences(decisions, cutoff)| ==> 0.0 <= Confidences(decisions, cutoff)[i] <= 1.0
  {
    if decisions != [] {
      ConfidencesWithin(decisions[1..], cutoff);
    }
  }

  /** Every component score is a percentage. */
  lemma ScoresArePercentages(t: Tables, now: int, c: Component)
    requires ConfidencesAreScores(t.decisions)
    ensures Score(t, now, c).Some? ==> 0.0 <= Score(t, now, c).value <= 100.0
  {
    match c {
      case AgentConfidence =>
        var cs := Confidences(t.decisions, now - CONFIDENCE_WINDOW);
        ConfidencesWithin(t.decisions, now - CONFIDENCE_WINDOW);
        if cs != [] {
          MeanWithin(cs);
          PercentRounds(Sum(cs), |cs| as real);
        }
      case ResolutionRate => RateWithin(t.remediations, now - WEEK_WINDOW);
      case ValidationHealth => RateWithin(t.runs, now - WEEK_WINDOW);
      case OpenEscalations =>
      case ReviewQueueDepth =>
    }
  }

  lemma PercentRounds(part: real, whole: real)
    requires 0.0 <= part <= whole && 0.0 < whole
    ensures 0.0 <= RoundTenth(part / whole * 100.0) <= 100.0
  {
    ShareCompared(part, whole, 0.0);
    ShareCompared(part, whole, 1.0);
    RoundTenthWithin(part / whole * 100.0, 0, 100);
  }

  lemma RateWithin(attempts: seq<Attempt>, cutoff: int)
    ensures Rate(attempts, cutoff).Some? ==> 0.0 <= Rate(attempts, cutoff).value <= 100.0
  {
    var good, bad := Recent(attempts, cutoff, Good), Recent(attempts, cutoff, Bad);
    if good + bad > 0 {
      PercentRounds(good as real, (good + bad) as real);
    }
  }

  // ---- the components and the score, in the words of the tables ----

  /** Python's rounding is to the nearest integer, and to the even one of two. */
  lemma RoundsToNearest(x: real)
    ensures var r := RoundHalfEven(x);
      -0.5 <= r as real - x <= 0.5 && (r as real - x == 0.5 || r as real - x == -0.5 ==> r % 2 == 0)
  {
  }

  lemma RoundMonotone(x: real, y: real)
    requires x <= y
    ensures RoundHalfEven(x) <= RoundHalfEven(y) && RoundTenth(x) <= RoundTenth(y)
  {
    RoundsInOrder(x, y);
    RoundsInOrder(x * 10.0, y * 10.0);
  }

  lemma RoundsInOrder(x: real, y: real)
    requires x <= y
    ensures RoundHalfEven(x) <= RoundHalfEven(y)
  {
    assert x.Floor <= y.Floor;
  }

  lemma TenthNear(x: real)
    ensures -0.05 <= RoundTenth(x) - x <= 0.05
  {
    RoundsToNearest(x * 10.0);
  }

  /** The attempts of a window with one outcome. */
  ghost function In(attempts: seq<Attempt>, cutoff: int, outcome: Outcome): set<nat> {
    set i: nat | i < |attempts| && attempts[i].at >= cutoff && attempts[i].outcome == outcome
  }

  lemma RecentIsPlaces(attempts: seq<Attempt>, cutoff: int, outcome: Outcome)
    ensures Recent(attempts, cutoff, outcome) == |In(attempts, cutoff, outcome)|
  {
    var p := (a: Attempt) => a.at >= cutoff && a.outcome == outcome;
    CountIsPlaces(attempts, p);
    assert Places(attempts, p) == In(attempts, cutoff, outcome);
  }

  lemma TenthOfPercent(share: real)
    ensures -0.05 <= RoundTenth(share * 100.0) - 100.0 * share <= 0.05
    ensures share == 1.0 ==> RoundTenth(share * 100.0) == 100.0
    ensures share == 0.0 ==> RoundTenth(share * 100.0) == 0.0
  {
    TenthNear(share * 100.0);
  }

  lemma ShareEnds(part: nat, whole: nat)
    requires 0 < whole
    ensures part == whole ==> part as real / whole as real == 1.0
    ensures part == 0 ==> part as real / whole as real == 0.0
  {
  }

  /** The rate is the share of good attempts among the good and bad ones of the
      window, in percent to a tenth; there is none without either. */
  lemma RateMeaning(attempts: seq<Attempt>, cutoff: int)
    ensures var good, bad, rate := |In(attempts, cutoff, Good)|, |In(attempts, cutoff, Bad)|, Rate(attempts, cutoff);
      && (rate == None <==> good + bad == 0)
      && (rate.Some? ==> var exact := 100.0 * (good as real / (good + bad) as real); -0.05 <= rate.value - exact <= 0.05)
      && (rate.Some? && bad == 0 ==> rate == Some(100.0))
      && (rate.Some? && good == 0 ==> rate == Some(0.0))
  {
    RecentIsPlaces(attempts, cutoff, Good);
    RecentIsPlaces(attempts, cutoff, Bad);
    var good, bad := Recent(attempts, cutoff, Good), Recent(attempts, cutoff, Bad);
    if good + bad > 0 {
      ShareEnds(good, good + bad);
      TenthOfPercent(good as real / (good + bad) as real);
    }
  }

  lemma ShareGrows(good: nat, bad: nat)
    requires good + bad > 0
    ensures good as real / (good + bad) as real <= (good + 1) as real / (good + 1 + bad) as real
  {
    var n := (good + bad) as real;
    ShareCompared((good + 1) as real, n + 1.0, good as real / n);
    assert good as real / n * n == good as real;
    assert good as real / n * (n + 1.0) == good as real + good as real / n;
    ShareCompared(good as real, n, 1.0);
  }

  /** A further success in the window never lowers the rate. */
  lemma SuccessNeverLowers(attempts: seq<Attempt>, cutoff: int, at: int)
    requires at >= cutoff && Rate(attempts, cutoff).Some?
    ensures var more := Rate(attempts + [Attempt(at, Good)], cutoff); more.Some? && more.value >= Rate(attempts, cutoff).value
  {
    var a := Attempt(at, Good);
    CountAppend(attempts, [a], (x: Attempt) => x.at >= cutoff && x.outcome == Good);
    CountAppend(attempts, [a], (x: Attempt) => x.at >= cutoff && x.outcome == Bad);
    assert [a][1..] == [];
    var good, bad := Recent(attempts, cutoff, Good), Recent(attempts, cutoff, Bad);
    assert Recent(attempts + [a], cutoff, Good) == good + 1 && Recent(attempts + [a], cutoff, Bad) == bad;
    ShareGrows(good, bad);
    RoundMonotone(good as real / (good + bad) as real * 100.0, (good + 1) as real / (good + 1 + bad) as real * 100.0);
  }

  /** The decisions of a window that state a confidence, and their sum. */
  ghost function Stated(decisions: seq<Decision>, cutoff: int): set<nat> {
    set i: nat | i < |decisions| && decisions[i].at >= cutoff && decisions[i].confidence.Some?
  }

  ghost function StatedSum(decisions: seq<Decision>, cutoff: int): real {
    if decisions == [] then 0.0
    else
      var d := decisions[|decisions| - 1];
      StatedSum(decisions[..|decisions| - 1], cutoff)
      + (match d.confidence case Some(c) => if d.at >= cutoff then c else 0.0 case None => 0.0)
  }

  lemma {:induction false} SumAppend(xs: seq<real>, ys: seq<real>)
    ensures Sum(xs + ys) == Sum(xs) + Sum(ys)
  {
    if xs == [] {
      assert xs + ys == ys;
    } else {
      assert (xs + ys)[1..] == xs[1..] + ys;
      SumAppend(xs[1..], ys);
    }
  }

  lemma {:induction false} ConfidencesSnoc(decisions: seq<Decision>, d: Decision, cutoff: int)
    ensures Confidences(decisions + [d], cutoff)
         == Confidences(decisions, cutoff) + (if d.at >= cutoff && d.confidence.Some? then [d.confidence.value] else [])
  {
    if decisions == [] {
      assert decisions + [d] == [d] && [d][1..] == [];
    } else {
      assert (decisions + [d])[1..] == decisions[1..] + [d];
      ConfidencesSnoc(decisions[1..], d, cutoff);
    }
  }

  lemma {:induction false} ConfidencesMeaning(decisions: seq<Decision>, cutoff: int)
    ensures |Confidences(decisions, cutoff)| == |Stated(decisions, cutoff)|
    ensures Sum(Confidences(decisions, cutoff)) == StatedSum(decisions, cutoff)
  {
    if decisions == [] {
      assert Stated(decisions, cutoff) == {};
    } else {
      var n := |decisions| - 1;
      var rest, d := decisions[..n], decisions[n];
      ConfidencesMeaning(rest, cutoff);
      ConfidencesSnoc(rest, d, cutoff);
      assert decisions == rest + [d];
      var more := if d.at >= cutoff && d.confidence.Some? then [d.confidence.value] else [];
      SumAppend(Confidences(rest, cutoff), more);
      if more != [] {
        assert more[1..] == [];
      }
      StatedNext(decisions, n, cutoff);
    }
  }

  lemma StatedNext(decisions: seq<Decision>, n: nat, cutoff: int)
    requires n + 1 == |decisions|
    ensures |Stated(decisions, cutoff)|
         == |Stated(decisions[..n], cutoff)| + (if decisions[n].at >= cutoff && decisions[n].confidence.Some? then 1 else 0)
  {
    var before := Stated(decisions[..n], cutoff);
    assert n !in before;
    assert Stated(decisions, cutoff)
        == if decisions[n].at >= cutoff && decisions[n].confidence.Some? then before + {n} else before;
  }

  /** The mean confidence of the window, in percent to a tenth. */
  lemma MeanMeaning(decisions: seq<Decision>, cutoff: int)
    ensures var n, mean := |Stated(decisions, cutoff)|, MeanConfidence(decisions, cutoff);
      && (mean == None <==> n == 0)
      && (mean.Some? ==> var exact := 100.0 * (StatedSum(decisions, cutoff) / n as real); -0.05 <= mean.value - exact <= 0.05)
  {
    ConfidencesMeaning(decisions, cutoff);
    var cs := Confidences(decisions, cutoff);
    if cs != [] {
      TenthNear(Sum(cs) / |cs| as real * 100.0);
    }
  }

  ghost function OpenPlaces(events: seq<Escalation>, priority: int): set<nat> {
    set i: nat | i < |events| && events[i].status == Open && events[i].priority == priority
  }

  ghost function WaitingPlaces(queue: seq<QueueStatus>): set<nat> {
    set i: nat | i < |queue| && (queue[i] == Pending || queue[i] == InReview)
  }

  /** Each counter counts the rows it stands for. */
  lemma CountersMeaning(events: seq<Escalation>, queue: seq<QueueStatus>, priority: int, status: EscalationStatus)
    ensures OpenAt(events, priority) == |OpenPlaces(events, priority)|
    ensures Depth(queue) == |WaitingPlaces(queue)|
    ensures StatusCount(events, status) == |set i: nat | i < |events| && events[i].status == status|
    ensures PriorityCount(events, priority) == |set i: nat | i < |events| && events[i].priority == priority|
  {
    var open := (e: Escalation) => e.status == Open && e.priority == priority;
    CountIsPlaces(events, open);
    assert Places(events, open) == OpenPlaces(events, priority);
    var waiting := q => q == Pending || q == InReview;
    CountIsPlaces(queue, waiting);
    assert Places(queue, waiting) == WaitingPlaces(queue);
    var ofStatus, ofPriority := (e: Escalation) => e.status == status, (e: Escalation) => e.priority == priority;
    CountIsPlaces(events, ofStatus);
    CountIsPlaces(events, ofPriority);
    assert Places(events, ofStatus) == set i: nat | i < |events| && events[i].status == status;
    assert Places(events, ofPriority) == set i: nat | i < |events| && events[i].priority == priority;
  }

  /** A hundred, less what a backlog costs, and no less than zero. */
  ghost function Left(cost: nat): real { if cost > 100 then 0.0 else 100.0 - cost as real }

  ghost function EscalationCost(t: Tables): nat {
    25 * |OpenPlaces(t.events, 0)| + 10 * |OpenPlaces(t.events, 1)| + 2 * |OpenPlaces(t.events, 2)|
  }

  ghost function WeightIf(present: bool, w: real): real { if present then w else 0.0 }

  ghost function PartIf(score: Option<real>, w: real): real { if score.Some? then w * score.value else 0.0 }

  /** The weighted mean over the components that are there: confidence of a day,
      escalations, queue, remediations and validation runs of a week. */
  ghost function Mean(t: Tables, now: int): real {
    var confidence := MeanConfidence(t.decisions, now - 86_400);
    var resolution, validation := Rate(t.remediations, now - 604_800), Rate(t.runs, now - 604_800);
    (PartIf(confidence, 0.3) + 0.3 * Left(EscalationCost(t)) + 0.2 * Left(5 * |WaitingPlaces(t.queue)|)
     + PartIf(resolution, 0.1) + PartIf(validation, 0.1))
    / (0.5 + WeightIf(confidence.Some?, 0.3) + WeightIf(resolution.Some?, 0.1) + WeightIf(validation.Some?, 0.1))
  }

  lemma SumsOfFive(t: Tables, now: int)
    ensures TotalWeight(Components(t, now)) ==
      0.5 + WeightIf(Score(t, now, AgentConfidence).Some?, 0.3) + WeightIf(Score(t, now, ResolutionRate).Some?, 0.1)
      + WeightIf(Score(t, now, ValidationHealth).Some?, 0.1)
    ensures Weighted(Components(t, now)) ==
      PartIf(Score(t, now, AgentConfidence), 0.3) + 0.3 * Left(EscalationCost(t)) + 0.2 * Left(5 * |WaitingPlaces(t.queue)|)
      + PartIf(Score(t, now, ResolutionRate), 0.1) + PartIf(Score(t, now, ValidationHealth), 0.1)
  {
    ComponentSums(t, now);
    WeightedPlusDeficit(Components(t, now));
    CountersMeaning(t.events, t.queue, 0, Open);
    CountersMeaning(t.events, t.queue, 1, Open);
    CountersMeaning(t.events, t.queue, 2, Open);
    var cost, wait := EscalationCost(t), 5 * |WaitingPlaces(t.queue)|;
    assert Backlog(t.events) == cost && 5.0 * Depth(t.queue) as real == wait as real;
    assert Left(cost) == 100.0 - Min(100.0, cost as real) && Left(wait) == 100.0 - Min(100.0, wait as real);
  }

  /** Main result: the score is the integer nearest to that mean, kept between 0 and
      100, and the even one of two. */
  lemma ScoreMeaning(t: Tables, now: int)
    ensures var score, mean := Overall(Components(t, now)), Mean(t, now);
      var kept := if mean < 0.0 then 0.0 else if mean > 100.0 then 100.0 else mean;
      -0.5 <= score as real - kept <= 0.5 && (score as real - kept == 0.5 || score as real - kept == -0.5 ==> score % 2 == 0)
  {
    SumsOfFive(t, now);
    assert Components(t, now) != [];
    RoundsToNearest(Clamp(0.0, 100.0, Mean(t, now)));
  }
}
