/** The pre-deploy gate: worst score of each UTC day, the streak of bad days that
    ends today, and the reasons that block a deploy. */
module DeployGate {
  import opened Prelude

  const SCORE_THRESHOLD: int := 90
  const STREAK_LIMIT: nat := 7
  const DAY: int := 86400

  /** A wall-clock reading in seconds and its offset from UTC; no offset means UTC. */
  datatype Stamp = Stamp(local: int, offset: Option<int>)

  datatype Snapshot = Snapshot(createdAt: Option<Stamp>, score: Option<int>)

  function DayOf(t: Stamp): int {
    (t.local - (if t.offset.Some? then t.offset.value else 0)) / DAY
  }

  /** A snapshot without a time is skipped; one with a time must have a score. */
  predicate Readable(s: Snapshot) { s.createdAt.Some? ==> s.score.Some? }

  predicate AllReadable(history: seq<Snapshot>) {
    forall i :: 0 <= i < |history| ==> Readable(history[i])
  }

  /** The snapshot's instant in UTC, and the calendar day that it falls on. */
  ghost function Utc(t: Stamp): int { match t.offset case Some(east) => t.local - east case None => t.local }

  ghost predicate OnDay(s: Snapshot, day: int) {
    s.createdAt.Some? && s.score.Some? && day * 86_400 <= Utc(s.createdAt.value) < (day + 1) * 86_400
  }

  lemma DayOfMeaning(t: Stamp, day: int)
    ensures DayOf(t) == day <==> day * 86_400 <= Utc(t) < (day + 1) * 86_400
  {
  }

  // ---- the worst score of each day ----

  type DayScores = map<int, int>

  function Lower(scores: DayScores, s: Snapshot): DayScores {
    if s.createdAt.None? || s.score.None? then scores
    else
      var day := DayOf(s.createdAt.value);
      if day !in scores || s.score.value < scores[day] then scores[day := s.score.value] else scores
  }

  function DailyMins(history: seq<Snapshot>): DayScores {
    if history == [] then map[] else Lower(DailyMins(history[..|history| - 1]), history[|history| - 1])
  }

  /** The loop; no result when a score is missing and `int` raises. */
  method DailyMinScores(history: seq<Snapshot>) returns (r: Option<DayScores>)
    ensures r.Some? <==> AllReadable(history)
    ensures r.Some? ==> r.value == DailyMins(history)
  {
    var scores: DayScores := map[];
    var i := 0;
    while i < |history|
      invariant 0 <= i <= |history|
      invariant AllReadable(history[..i]) && scores == DailyMins(history[..i])
    {
      var s := history[i];
      assert history[..i + 1][..i] == history[..i];
      if s.createdAt.Some? {
        if s.score.None? {
          assert !Readable(history[i]);
          return None;
        }
        var day := DayOf(s.createdAt.value);
        if day !in scores || s.score.value < scores[day] {
          scores := scores[day := s.score.value];
        }
      }
      i := i + 1;
    }
    assert history[..|history|] == history;
    return Some(scores);
  }

  /** Each day's entry is the minimum of that day's snapshots, and attained. */
  lemma {:induction false} DailyMinsMeaning(history: seq<Snapshot>, day: int)
    ensures day in DailyMins(history) <==> exists s :: s in history && OnDay(s, day)
    ensures day in DailyMins(history) ==>
      && (exists s :: s in history && OnDay(s, day) && s.score.value == DailyMins(history)[day])
      && (forall s :: s in history && OnDay(s, day) ==> DailyMins(history)[day] <= s.score.value)
  {
    if history != [] {
      var rest, last := history[..|history| - 1], history[|history| - 1];
      assert history == rest + [last];
      DailyMinsMeaning(rest, day);
      assert forall s :: s in history <==> s in rest || s == last;
      if last.createdAt.Some? {
        DayOfMeaning(last.createdAt.value, day);
      }
      if OnDay(last, day) {
        assert last in history;
      }
    }
  }

  /** Joining two histories takes the lower score of each day. */
  lemma DailyMinsConcat(a: seq<Snapshot>, b: seq<Snapshot>, day: int)
    ensures day in DailyMins(a + b) <==> day in DailyMins(a) || day in DailyMins(b)
    ensures day in DailyMins(a + b) && day !in DailyMins(b) ==> DailyMins(a + b)[day] == DailyMins(a)[day]
    ensures day in DailyMins(a + b) && day !in DailyMins(a) ==> DailyMins(a + b)[day] == DailyMins(b)[day]
    ensures day in DailyMins(a) && day in DailyMins(b) ==>
      DailyMins(a + b)[day] == (if DailyMins(a)[day] <= DailyMins(b)[day] then DailyMins(a)[day] else DailyMins(b)[day])
  {
    DailyMinsMeaning(a, day);
    DailyMinsMeaning(b, day);
    DailyMinsMeaning(a + b, day);
    assert forall s :: s in a + b <==> s in a || s in b;
  }

  // ---- the streak ----

  predicate BadEntry(scores: DayScores, day: int) { day in scores && scores[day] < SCORE_THRESHOLD }

  function DaysUpTo(scores: DayScores, day: int): set<int> { set d | d in scores && d <= day }

  /** Bad days in a row, walking back from `day`. */
  function StreakFrom(scores: DayScores, day: int): nat
    decreases |DaysUpTo(scores, day)|
  {
    if !BadEntry(scores, day) then 0
    else
      assert DaysUpTo(scores, day) == DaysUpTo(scores, day - 1) + {day};
      1 + StreakFrom(scores, day - 1)
  }

  method DailyStreak(history: seq<Snapshot>, today: int) returns (r: Option<nat>)
    ensures r.Some? <==> AllReadable(history)
    ensures r.Some? ==> r.value == StreakFrom(DailyMins(history), today)
  {
    var mins := DailyMinScores(history);
    if mins.None? {
      return None;
    }
    var scores := mins.value;
    if today !in scores || scores[today] >= SCORE_THRESHOLD {
      return Some(0);
    }
    var streak, day := 0, today;
    while day in scores && scores[day] < SCORE_THRESHOLD
      invariant streak + StreakFrom(scores, day) == StreakFrom(scores, today)
      decreases |DaysUpTo(scores, day)|
    {
      assert DaysUpTo(scores, day) == DaysUpTo(scores, day - 1) + {day};
      streak := streak + 1;
      day := day - 1;
    }
    return Some(streak);
  }

  /** A day on which at least one snapshot was below the threshold. */
  ghost predicate BadDay(history: seq<Snapshot>, day: int) {
    exists s :: s in history && OnDay(s, day) && s.score.value < 90
  }

  lemma BadEntryIff(history: seq<Snapshot>, day: int)
    ensures BadEntry(DailyMins(history), day) <==> BadDay(history, day)
  {
    DailyMinsMeaning(history, day);
  }

  function Streak(history: seq<Snapshot>, today: int): nat { StreakFrom(DailyMins(history), today) }

  lemma {:induction false} StreakFromMeaning(scores: DayScores, day: int)
    ensures forall k :: day - StreakFrom(scores, day) < k <= day ==> BadEntry(scores, k)
    ensures !BadEntry(scores, day - StreakFrom(scores, day))
    ensures StreakFrom(scores, day) <= |DaysUpTo(scores, day)|
    decreases |DaysUpTo(scores, day)|
  {
    if BadEntry(scores, day) {
      assert DaysUpTo(scores, day) == DaysUpTo(scores, day - 1) + {day};
      StreakFromMeaning(scores, day - 1);
    }
  }

  /** Main result: the streak is the longest run of consecutive bad days that ends
      today, and `n` is that length exactly when it runs so far and no further. */
  lemma StreakMeaning(history: seq<Snapshot>, today: int, n: nat)
    ensures Streak(history, today) == n <==>
      (forall day :: today - n < day <= today ==> BadDay(history, day)) && !BadDay(history, today - n)
  {
    var scores, r := DailyMins(history), Streak(history, today);
    StreakFromMeaning(scores, today);
    forall day
      ensures BadEntry(scores, day) <==> BadDay(history, day)
    {
      BadEntryIff(history, day);
    }
    if r < n {
      assert !BadDay(history, today - r);
    } else if n < r {
      assert BadEntry(scores, today - n);
    }
  }

  /** The walk ends within the number of days that have a snapshot. */
  lemma StreakBounded(history: seq<Snapshot>, today: int)
    ensures Streak(history, today) <= |DailyMins(history)|
  {
    var scores := DailyMins(history);
    StreakFromMeaning(scores, today);
    assert DaysUpTo(scores, today) + (scores.Keys - DaysUpTo(scores, today)) == scores.Keys;
  }

  /** More bad days never shorten the streak. */
  lemma StreakMonotone(a: seq<Snapshot>, b: seq<Snapshot>, today: int)
    requires forall day :: BadDay(a, day) ==> BadDay(b, day)
    ensures Streak(a, today) <= Streak(b, today)
  {
    var n, m := Streak(a, today), Streak(b, today);
    StreakMeaning(a, today, n);
    StreakMeaning(b, today, m);
  }

  /** Only the bad days count: the order of the history, and any snapshot at or
      above the threshold, make no difference; any other snapshot can only lengthen
      the streak. */
  lemma StreakIgnoresOrder(a: seq<Snapshot>, b: seq<Snapshot>, today: int)
    requires multiset(a) == multiset(b)
    ensures Streak(a, today) == Streak(b, today)
  {
    forall s
      ensures s in a <==> s in b
    {
      assert s in multiset(a) <==> s in multiset(b);
    }
    StreakMonotone(a, b, today);
    StreakMonotone(b, a, today);
  }

  lemma StreakAfterSnapshot(history: seq<Snapshot>, s: Snapshot, today: int)
    ensures Streak(history, today) <= Streak(history + [s], today)
    ensures s.score.Some? && s.score.value >= 90 ==> Streak(history + [s], today) == Streak(history, today)
  {
    assert forall t :: t in history + [s] <==> t in history || t == s;
    StreakMonotone(history, history + [s], today);
    if s.score.Some? && s.score.value >= SCORE_THRESHOLD {
      StreakMonotone(history + [s], history, today);
    }
  }

  // ---- the gate ----

  datatype Journey = Journey(name: string, completed: int, failed: int)

  /** The validation-health response; the journeys come in the order of their
      sorted names. */
  datatype Health = Health(hasLatest: bool, history: seq<Snapshot>, journeys: seq<Journey>)

  datatype Reason =
    | ScoreMissing
    | ScoreLow(score: int)
    | NoSnapshots
    | StreakTooLong(days: nat)
    | NoJourneys
    | JourneyFailed(name: string, runs: int)
    | JourneyIncomplete(name: string)

  /** When each reason belongs in the answer. */
  predicate Applies(r: Reason, score: Option<int>, h: Health, today: int) {
    match r
    case ScoreMissing => score.None?
    case ScoreLow(n) => score == Some(n) && n < SCORE_THRESHOLD
    case NoSnapshots => !h.hasLatest && h.history == []
    case StreakTooLong(n) => n == Streak(h.history, today) && n >= STREAK_LIMIT
    case NoJourneys => h.journeys == []
    case JourneyFailed(name, runs) => runs > 0 && exists j :: j in h.journeys && j.name == name && j.failed == runs
    case JourneyIncomplete(name) => exists j :: j in h.journeys && j.name == name && j.completed == 0
  }

  method JourneyReasons(journeys: seq<Journey>) returns (reasons: seq<Reason>)
    ensures forall r :: r in reasons <==>
      (r.JourneyFailed? && r.runs > 0 && exists j :: j in journeys && j.name == r.name && j.failed == r.runs)
      || (r.JourneyIncomplete? && exists j :: j in journeys && j.name == r.name && j.completed == 0)
  {
    reasons := [];
    var i := 0;
    while i < |journeys|
      invariant 0 <= i <= |journeys|
      invariant forall r :: r in reasons <==>
        (r.JourneyFailed? && r.runs > 0 && exists j :: j in journeys[..i] && j.name == r.name && j.failed == r.runs)
        || (r.JourneyIncomplete? && exists j :: j in journeys[..i] && j.name == r.name && j.completed == 0)
    {
      var stats := journeys[i];
      assert forall j :: j in journeys[..i + 1] <==> j in journeys[..i] || j == stats;
      if stats.failed > 0 {
        reasons := reasons + [JourneyFailed(stats.name, stats.failed)];
      }
      if stats.completed == 0 {
        reasons := reasons + [JourneyIncomplete(stats.name)];
      }
      i := i + 1;
    }
    assert journeys[..|journeys|] == journeys;
  }

  /** The gate answers, and with no reason: it neither raises nor blocks. */
  ghost predicate Passes(score: Option<int>, h: Health, today: int) {
    AllReadable(h.history) && forall r :: !Applies(r, score, h, today)
  }

  lemma EmptyAnswer(reasons: seq<Reason>, score: Option<int>, h: Health, today: int)
    requires forall reason :: reason in reasons <==> Applies(reason, score, h, today)
    requires AllReadable(h.history)
    ensures reasons == [] <==> Passes(score, h, today)
  {
    if reasons != [] {
      assert reasons[0] in reasons;
    }
  }

  /** The reasons in the answer are exactly those that apply; the gate raises only
      when it reads a history with a missing score. */
  method EvaluateGate(score: Option<int>, h: Health, today: int) returns (r: Result<seq<Reason>, string>)
    ensures r.Ok? <==> AllReadable(h.history)
    ensures r.Ok? ==> forall reason :: reason in r.value <==> Applies(reason, score, h, today)
    ensures Passes(score, h, today) <==> r == Ok([])
  {
    var reasons := [];
    if score.None? {
      reasons := reasons + [ScoreMissing];
    } else if score.value < SCORE_THRESHOLD {
      reasons := reasons + [ScoreLow(score.value)];
    }
    if !h.hasLatest && h.history == [] {
      reasons := reasons + [NoSnapshots];
    } else {
      var streak := DailyStreak(h.history, today);
      if streak.None? {
        return Err("score is missing");
      }
      if streak.value >= STREAK_LIMIT {
        reasons := reasons + [StreakTooLong(streak.value)];
      }
    }
    StreakBounded([], today);
    if h.journeys == [] {
      reasons := reasons + [NoJourneys];
    } else {
      var journeyReasons := JourneyReasons(h.journeys);
      reasons := reasons + journeyReasons;
    }
    EmptyAnswer(reasons, score, h, today);
    return Ok(reasons);
  }

  /** Exactly when a deploy passes, in terms of the raw responses. */
  lemma PassesIff(score: Option<int>, h: Health, today: int)
    ensures Passes(score, h, today) <==>
      && (forall s :: s in h.history && s.createdAt.Some? ==> s.score.Some?)
      && score.Some? && score.value >= 90
      && (h.hasLatest || h.history != [])
      && (exists day :: today - 7 < day <= today && !BadDay(h.history, day))
      && h.journeys != []
      && (forall j :: j in h.journeys ==> j.failed <= 0 && j.completed != 0)
  {
    var n := Streak(h.history, today);
    StreakMeaning(h.history, today, n);
    if n < STREAK_LIMIT {
      assert !BadDay(h.history, today - n);
    }
    if forall r :: !Applies(r, score, h, today) {
      assert !Applies(ScoreMissing, score, h, today);
      assert score.Some? ==> !Applies(ScoreLow(score.value), score, h, today);
      assert !Applies(NoSnapshots, score, h, today);
      assert !Applies(StreakTooLong(n), score, h, today);
      assert !Applies(NoJourneys, score, h, today);
      forall j | j in h.journeys
        ensures j.failed <= 0 && j.completed != 0
      {
        assert !Applies(JourneyFailed(j.name, j.failed), score, h, today);
        assert !Applies(JourneyIncomplete(j.name), score, h, today);
      }
    }
  }
}
